/**
 * Role helpers over the three-valued `user_role` enumeration:
 * the three role predicates, the display-name table and the
 * required-role membership check.
 */
module Roles {

  /** The `user_role` enumeration: "student" | "psg_member" | "admin". */
  datatype UserRole = Student | PsgMember | Admin

  predicate IsStudent(role: UserRole) {
    role == Student
  }

  predicate IsPsgMember(role: UserRole) {
    role == PsgMember
  }

  predicate IsAdmin(role: UserRole) {
    role == Admin
  }

  /** The role's display name, looked up in a fixed record. */
  function FormatRole(role: UserRole): string {
    match role
    case Student => "Student"
    case PsgMember => "PSG Member"
    case Admin => "Administrator"
  }

  /**
   * `requiredRoles.includes(userRole)`: a left-to-right scan that stops at
   * the first element equal to `userRole`.
   */
  function HasRole(userRole: UserRole, requiredRoles: seq<UserRole>): (r: bool)
    ensures r <==> userRole in requiredRoles
  {
    if |requiredRoles| == 0 then false
    else requiredRoles[0] == userRole || HasRole(userRole, requiredRoles[1..])
  }

  /**
   * Each predicate holds for its own role and for no other, so for every
   * role exactly one of the three is true.
   */
  lemma ExactlyOneRolePredicate(role: UserRole)
    ensures IsStudent(role) <==> role == Student
    ensures IsPsgMember(role) <==> role == PsgMember
    ensures IsAdmin(role) <==> role == Admin
    ensures (if IsStudent(role) then 1 else 0)
          + (if IsPsgMember(role) then 1 else 0)
          + (if IsAdmin(role) then 1 else 0) == 1
  {
  }

  /** The display names of the three roles, which are pairwise distinct. */
  lemma FormatRoleInjective(a: UserRole, b: UserRole)
    ensures FormatRole(Student) == "Student"
    ensures FormatRole(PsgMember) == "PSG Member"
    ensures FormatRole(Admin) == "Administrator"
    ensures FormatRole(a) == FormatRole(b) ==> a == b
  {
    if a != b {
      // the three names have lengths 7, 10 and 13
      assert |FormatRole(a)| != |FormatRole(b)|;
    }
  }

  /** No role is required by an empty list; a one-element list requires exactly its role. */
  lemma HasRoleBaseCases(userRole: UserRole, other: UserRole)
    ensures !HasRole(userRole, [])
    ensures HasRole(userRole, [userRole])
    ensures HasRole(userRole, [other]) <==> other == userRole
  {
  }

  /** Appending roles to the required list never turns a granted check into a denied one. */
  lemma HasRoleMonotone(userRole: UserRole, requiredRoles: seq<UserRole>, more: seq<UserRole>)
    requires HasRole(userRole, requiredRoles)
    ensures HasRole(userRole, requiredRoles + more)
    ensures HasRole(userRole, more + requiredRoles)
  {
  }
}
