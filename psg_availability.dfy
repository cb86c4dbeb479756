/**
 * Peer-support-group (PSG) availability: weekly recurring windows, the
 * slot generator that turns active windows into bookable time slots over a
 * date range, and the query for the members free at one date and time.
 *
 * Times of day are whole minutes after midnight; dates are day numbers
 * counted from 1970-01-01 (day 0, a Thursday). The booking-conflict check
 * that lives in the database is the parameter `isPsgAvailable`.
 */
module PsgAvailability {
  import opened Wrappers

  /** The slot length used when the caller gives none. */
  const DefaultDurationMinutes: int := 60

  /** A row of the `psg_availability` table: one weekly window of one member. */
  datatype Availability = Availability(
    id: string,
    psgMemberId: string,
    dayOfWeek: int,
    startTime: int,
    endTime: int,
    isActive: bool)

  /** The public profile fields joined onto an availability row. */
  datatype Profile = Profile(id: string, fullName: string, avatarUrl: Option<string>)

  /** An availability row as the slot queries read it, with the member's profile joined in. */
  datatype AvailabilityWithProfile = AvailabilityWithProfile(
    id: string,
    psgMemberId: string,
    dayOfWeek: int,
    startTime: int,
    endTime: int,
    isActive: bool,
    psgMember: Profile)

  /** A bookable slot; computed on every query, never stored. */
  datatype TimeSlot = TimeSlot(
    psgMemberId: string,
    psgMemberName: string,
    psgMemberAvatar: Option<string>,
    date: int,
    startTime: int,
    endTime: int,
    durationMinutes: int)

  /**
   * The `is_psg_available` procedure: member id, date, minute of day and
   * duration to a boolean, or to nothing when the call yields no data.
   */
  type ConflictOracle = (string, int, int, int) -> Option<bool>

  /** The truthiness test on the procedure's answer: only a definite `true` admits. */
  predicate Confirms(isAvailable: Option<bool>) {
    isAvailable == Some(true)
  }

  /** The weekday of a day number, 0 for Sunday to 6 for Saturday. */
  function Weekday(date: int): (w: int)
    ensures 0 <= w < 7
  {
    (date + 4) % 7
  }

  // ---------------------------------------------------------------------
  // Window store: the ownership guard and default of create, and update
  // ---------------------------------------------------------------------

  datatype CreateAvailabilityInput = CreateAvailabilityInput(
    psgMemberId: string,
    dayOfWeek: int,
    startTime: int,
    endTime: int,
    isActive: Option<bool>)

  /** The values written by the insert of a new window. */
  datatype NewAvailability = NewAvailability(
    psgMemberId: string,
    dayOfWeek: int,
    startTime: int,
    endTime: int,
    isActive: bool)

  /**
   * The checks of `createPSGAvailability` ahead of its insert: a signed-in
   * caller, who may only create windows of their own. `callerId` is the
   * authenticated user's id, `None` when nobody is signed in.
   */
  function CreateAvailabilityRow(callerId: Option<string>, input: CreateAvailabilityInput): (r: Result<NewAvailability, string>)
    ensures r.Success? <==> callerId == Some(input.psgMemberId)
    ensures callerId.None? ==> r == Failure("Unauthorized")
    ensures callerId.Some? && callerId.value != input.psgMemberId ==>
              r == Failure("You can only manage your own availability")
    ensures r.Success? ==>
              && r.value.psgMemberId == callerId.value
              && r.value.dayOfWeek == input.dayOfWeek
              && r.value.startTime == input.startTime
              && r.value.endTime == input.endTime
              && (r.value.isActive <==> input.isActive != Some(false))
  {
    if callerId.None? then
      Failure("Unauthorized")
    else if input.psgMemberId != callerId.value then
      Failure("You can only manage your own availability")
    else
      Success(NewAvailability(
        input.psgMemberId, input.dayOfWeek, input.startTime, input.endTime, input.isActive.GetOr(true)))
  }

  /** A partial set of new column values, as `updatePSGAvailability` receives it. */
  datatype AvailabilityUpdate = AvailabilityUpdate(
    psgMemberId: Option<string>,
    dayOfWeek: Option<int>,
    startTime: Option<int>,
    endTime: Option<int>,
    isActive: Option<bool>)

  /** The row after an update: every given column replaced, every other one kept. */
  function ApplyUpdate(row: Availability, u: AvailabilityUpdate): (r: Availability)
    ensures r.id == row.id
  {
    Availability(
      row.id,
      u.psgMemberId.GetOr(row.psgMemberId),
      u.dayOfWeek.GetOr(row.dayOfWeek),
      u.startTime.GetOr(row.startTime),
      u.endTime.GetOr(row.endTime),
      u.isActive.GetOr(row.isActive))
  }

  /** The update `togglePSGAvailability` sends: the active flag and nothing else. */
  function ToggleUpdate(isActive: bool): AvailabilityUpdate {
    AvailabilityUpdate(None, None, None, None, Some(isActive))
  }

  /** Toggling sets the active flag and leaves every other column as it was. */
  lemma ToggleChangesOnlyActiveFlag(row: Availability, isActive: bool)
    ensures ApplyUpdate(row, ToggleUpdate(isActive)) == row.(isActive := isActive)
  {
  }

  /** Applying the same update twice is the same as applying it once. */
  lemma ApplyUpdateIdempotent(row: Availability, u: AvailabilityUpdate)
    ensures ApplyUpdate(ApplyUpdate(row, u), u) == ApplyUpdate(row, u)
  {
  }

  /** An update naming no column leaves the row unchanged. */
  lemma EmptyUpdateKeepsRow(row: Availability)
    ensures ApplyUpdate(row, AvailabilityUpdate(None, None, None, None, None)) == row
  {
  }

  // ---------------------------------------------------------------------
  // Filters
  // ---------------------------------------------------------------------

  /** `s.filter(p)`: the elements satisfying `p`, in their original order. */
  function Filter<T(!new)>(s: seq<T>, p: T -> bool): (r: seq<T>)
    ensures |r| <= |s|
    ensures forall x :: x in r <==> x in s && p(x)
  {
    if |s| == 0 then []
    else
      assert s == s[..|s| - 1] + [s[|s| - 1]];
      Filter(s[..|s| - 1], p) + (if p(s[|s| - 1]) then [s[|s| - 1]] else [])
  }

  // Two facts about concatenation, kept in lemmas of their own so that the
  // inductive proofs below never reason about sequence elements.
  lemma ConcatAssociative<T>(x: seq<T>, y: seq<T>, z: seq<T>)
    ensures x + y + z == x + (y + z)
  {
  }

  lemma ConcatEmptyRight<T>(x: seq<T>)
    ensures x + [] == x
  {
  }

  /** Filtering a concatenation filters each part and keeps them in order. */
  lemma {:induction false} FilterAppend<T(!new)>(a: seq<T>, b: seq<T>, p: T -> bool)
    ensures Filter(a + b, p) == Filter(a, p) + Filter(b, p)
    decreases |b|
  {
    if |b| == 0 {
      ConcatEmptyRight(a);
      ConcatEmptyRight(Filter(a, p));
    } else {
      var init, last := b[..|b| - 1], b[|b| - 1];
      assert (a + b)[..|a + b| - 1] == a + init;
      assert (a + b)[|a + b| - 1] == last;
      FilterAppend(a, init, p);
      ConcatAssociative(Filter(a, p), Filter(init, p), if p(last) then [last] else []);
    }
  }

  predicate IsActiveWindow(av: AvailabilityWithProfile) {
    av.isActive
  }

  /** The rows the slot query fetches: the active ones. */
  function ActiveWindows(table: seq<AvailabilityWithProfile>): seq<AvailabilityWithProfile> {
    Filter(table, IsActiveWindow)
  }

  /** The windows recurring on the given weekday. */
  function WindowsForDay(availabilities: seq<AvailabilityWithProfile>, weekday: int): seq<AvailabilityWithProfile> {
    Filter(availabilities, (av: AvailabilityWithProfile) => av.dayOfWeek == weekday)
  }

  // ---------------------------------------------------------------------
  // Candidate slots of one window
  // ---------------------------------------------------------------------

  lemma MulMonotone(a: int, b: int, d: int)
    requires a <= b && 0 <= d
    ensures a * d <= b * d
  {
    assert b * d - a * d == (b - a) * d;
  }

  /**
   * The number of whole slots of `durationMinutes` that fit back to back
   * in the window: the largest `n` with `start + n * duration <= end`, or
   * zero when none fits.
   */
  function SlotCount(av: AvailabilityWithProfile, durationMinutes: int): (n: nat)
    requires durationMinutes > 0
    ensures n == 0 || av.startTime + n * durationMinutes <= av.endTime
    ensures av.startTime + (n + 1) * durationMinutes > av.endTime
  {
    if av.startTime < av.endTime then
      var len := av.endTime - av.startTime;
      var q := len / durationMinutes;
      assert q * durationMinutes + len % durationMinutes == len;
      assert (q + 1) * durationMinutes == q * durationMinutes + durationMinutes;
      q
    else
      0
  }

  /** Candidate `k` fits in the window exactly when `k` is below the slot count. */
  lemma SlotFitsIff(av: AvailabilityWithProfile, durationMinutes: int, k: int)
    requires durationMinutes > 0 && 0 <= k
    ensures av.startTime + (k + 1) * durationMinutes <= av.endTime <==> k < SlotCount(av, durationMinutes)
  {
    var n := SlotCount(av, durationMinutes);
    if k < n {
      MulMonotone(k + 1, n, durationMinutes);
    } else {
      MulMonotone(n + 1, k + 1, durationMinutes);
    }
  }

  /** The `k`-th back-to-back candidate of a window on a date. */
  function Candidate(av: AvailabilityWithProfile, date: int, k: int, durationMinutes: int): TimeSlot {
    var start := av.startTime + k * durationMinutes;
    TimeSlot(av.psgMemberId, av.psgMember.fullName, av.psgMember.avatarUrl,
             date, start, start + durationMinutes, durationMinutes)
  }

  /** The conflict check passes for candidate `k`. */
  predicate CandidateConfirmed(av: AvailabilityWithProfile, date: int, k: int, durationMinutes: int, isPsgAvailable: ConflictOracle) {
    Confirms(isPsgAvailable(av.psgMemberId, date, av.startTime + k * durationMinutes, durationMinutes))
  }

  /** Of the first `n` candidates, those the conflict check confirms, in order. */
  function ConfirmedCandidates(av: AvailabilityWithProfile, date: int, durationMinutes: int, isPsgAvailable: ConflictOracle, n: nat): seq<TimeSlot> {
    if n == 0 then []
    else
      ConfirmedCandidates(av, date, durationMinutes, isPsgAvailable, n - 1)
      + (if CandidateConfirmed(av, date, n - 1, durationMinutes, isPsgAvailable)
         then [Candidate(av, date, n - 1, durationMinutes)] else [])
  }

  /** The slots one window contributes on one date. */
  function WindowSlots(av: AvailabilityWithProfile, date: int, durationMinutes: int, isPsgAvailable: ConflictOracle): seq<TimeSlot>
    requires durationMinutes > 0
  {
    ConfirmedCandidates(av, date, durationMinutes, isPsgAvailable, SlotCount(av, durationMinutes))
  }

  /** Every candidate below the slot count lies inside its window and lasts exactly the duration. */
  lemma CandidateInWindow(av: AvailabilityWithProfile, date: int, k: int, durationMinutes: int)
    requires durationMinutes > 0 && 0 <= k < SlotCount(av, durationMinutes)
    ensures Candidate(av, date, k, durationMinutes).startTime == av.startTime + k * durationMinutes
    ensures av.startTime <= Candidate(av, date, k, durationMinutes).startTime
    ensures Candidate(av, date, k, durationMinutes).endTime <= av.endTime
    ensures Candidate(av, date, k, durationMinutes).endTime - Candidate(av, date, k, durationMinutes).startTime == durationMinutes
  {
    SlotFitsIff(av, durationMinutes, k);
    MulMonotone(0, k, durationMinutes);
    assert (k + 1) * durationMinutes == k * durationMinutes + durationMinutes;
  }

  lemma {:induction false} ConfirmedCandidatesIff(
    av: AvailabilityWithProfile, date: int, durationMinutes: int, isPsgAvailable: ConflictOracle, n: nat, s: TimeSlot)
    ensures s in ConfirmedCandidates(av, date, durationMinutes, isPsgAvailable, n) <==>
              exists k :: 0 <= k < n && s == Candidate(av, date, k, durationMinutes)
                          && CandidateConfirmed(av, date, k, durationMinutes, isPsgAvailable)
  {
    if n > 0 {
      ConfirmedCandidatesIff(av, date, durationMinutes, isPsgAvailable, n - 1, s);
    }
  }

  /**
   * A slot comes out of a window exactly when it is one of the window's
   * whole candidates and the conflict check confirms it.
   */
  lemma WindowSlotsIff(av: AvailabilityWithProfile, date: int, durationMinutes: int, isPsgAvailable: ConflictOracle, s: TimeSlot)
    requires durationMinutes > 0
    ensures s in WindowSlots(av, date, durationMinutes, isPsgAvailable) <==>
              exists k :: 0 <= k < SlotCount(av, durationMinutes) && s == Candidate(av, date, k, durationMinutes)
                          && CandidateConfirmed(av, date, k, durationMinutes, isPsgAvailable)
  {
    ConfirmedCandidatesIff(av, date, durationMinutes, isPsgAvailable, SlotCount(av, durationMinutes), s);
  }

  lemma {:induction false} ConfirmedCandidatesCount(
    av: AvailabilityWithProfile, date: int, durationMinutes: int, isPsgAvailable: ConflictOracle, n: nat)
    ensures (forall k :: 0 <= k < n ==> CandidateConfirmed(av, date, k, durationMinutes, isPsgAvailable))
            ==> |ConfirmedCandidates(av, date, durationMinutes, isPsgAvailable, n)| == n
    ensures (forall k :: 0 <= k < n ==> !CandidateConfirmed(av, date, k, durationMinutes, isPsgAvailable))
            ==> ConfirmedCandidates(av, date, durationMinutes, isPsgAvailable, n) == []
  {
    if n > 0 {
      ConfirmedCandidatesCount(av, date, durationMinutes, isPsgAvailable, n - 1);
    }
  }

  /**
   * A window yields exactly `(end - start) div duration` slots when every
   * candidate is confirmed, and none when no candidate is: filtering never
   * falls back to a default.
   */
  lemma WindowSlotCount(av: AvailabilityWithProfile, date: int, durationMinutes: int, isPsgAvailable: ConflictOracle)
    requires durationMinutes > 0
    ensures SlotCount(av, durationMinutes) ==
              if av.startTime < av.endTime then (av.endTime - av.startTime) / durationMinutes else 0
    ensures (forall k :: 0 <= k < SlotCount(av, durationMinutes) ==> CandidateConfirmed(av, date, k, durationMinutes, isPsgAvailable))
            ==> |WindowSlots(av, date, durationMinutes, isPsgAvailable)| == SlotCount(av, durationMinutes)
    ensures (forall k :: 0 <= k < SlotCount(av, durationMinutes) ==> !CandidateConfirmed(av, date, k, durationMinutes, isPsgAvailable))
            ==> WindowSlots(av, date, durationMinutes, isPsgAvailable) == []
  {
    ConfirmedCandidatesCount(av, date, durationMinutes, isPsgAvailable, SlotCount(av, durationMinutes));
  }

  /** Each slot ends no later than every later slot starts: ascending and non-overlapping. */
  ghost predicate BackToBack(r: seq<TimeSlot>) {
    forall i, j :: 0 <= i < j < |r| ==> r[i].endTime <= r[j].startTime
  }

  /** No slot is followed by a slot of an earlier date. */
  ghost predicate DateOrdered(r: seq<TimeSlot>) {
    forall i, j :: 0 <= i < j < |r| ==> r[i].date <= r[j].date
  }

  lemma {:induction false} ConfirmedCandidatesAscending(
    av: AvailabilityWithProfile, date: int, durationMinutes: int, isPsgAvailable: ConflictOracle, n: nat)
    requires durationMinutes > 0
    ensures BackToBack(ConfirmedCandidates(av, date, durationMinutes, isPsgAvailable, n))
    ensures forall s :: s in ConfirmedCandidates(av, date, durationMinutes, isPsgAvailable, n) ==>
              s.endTime <= av.startTime + n * durationMinutes
  {
    if n > 0 {
      var prev := ConfirmedCandidates(av, date, durationMinutes, isPsgAvailable, n - 1);
      ConfirmedCandidatesAscending(av, date, durationMinutes, isPsgAvailable, n - 1);
      var c := Candidate(av, date, n - 1, durationMinutes);
      var bound := av.startTime + (n - 1) * durationMinutes;
      assert c.startTime == bound;
      assert c.endTime == av.startTime + n * durationMinutes by {
        assert n * durationMinutes == (n - 1) * durationMinutes + durationMinutes;
      }
      MulMonotone(n - 1, n, durationMinutes);
      var r := ConfirmedCandidates(av, date, durationMinutes, isPsgAvailable, n);
      if CandidateConfirmed(av, date, n - 1, durationMinutes, isPsgAvailable) {
        assert r == prev + [c];
        forall i, j | 0 <= i < j < |r|
          ensures r[i].endTime <= r[j].startTime
        {
          assert r[i] == prev[i];
          if j == |prev| {
            assert prev[i] in prev;
            assert r[j] == c;
          } else {
            assert r[j] == prev[j];
            assert prev[i].endTime <= prev[j].startTime;
          }
        }
      }
    }
  }

  /** The slots of one window are in ascending order and never overlap. */
  lemma WindowSlotsAscending(av: AvailabilityWithProfile, date: int, durationMinutes: int, isPsgAvailable: ConflictOracle)
    requires durationMinutes > 0
    ensures BackToBack(WindowSlots(av, date, durationMinutes, isPsgAvailable))
  {
    ConfirmedCandidatesAscending(av, date, durationMinutes, isPsgAvailable, SlotCount(av, durationMinutes));
  }

  /**
   * The cursor loop over one window: step from the window's start by the
   * duration while the cursor is before the window's end, and check each
   * candidate that ends no later than the window does.
   */
  method CollectWindowSlots(av: AvailabilityWithProfile, date: int, durationMinutes: int, isPsgAvailable: ConflictOracle)
    returns (slots: seq<TimeSlot>)
    requires durationMinutes > 0
    ensures slots == WindowSlots(av, date, durationMinutes, isPsgAvailable)
  {
    ghost var n := SlotCount(av, durationMinutes);
    ghost var k: nat := 0;
    slots := [];
    var currentSlot := av.startTime;
    while currentSlot < av.endTime
      invariant currentSlot == av.startTime + k * durationMinutes
      invariant k <= n + 1
      invariant slots == ConfirmedCandidates(av, date, durationMinutes, isPsgAvailable, if k <= n then k else n)
      decreases av.endTime - currentSlot
    {
      var nextSlot := currentSlot + durationMinutes;
      assert nextSlot == av.startTime + (k + 1) * durationMinutes;
      SlotFitsIff(av, durationMinutes, k);
      if nextSlot <= av.endTime {
        var isAvailable := isPsgAvailable(av.psgMemberId, date, currentSlot, durationMinutes);
        if Confirms(isAvailable) {
          slots := slots + [TimeSlot(av.psgMemberId, av.psgMember.fullName, av.psgMember.avatarUrl,
                                     date, currentSlot, nextSlot, durationMinutes)];
        }
      }
      currentSlot := nextSlot;
      k := k + 1;
    }
    if k < n {
      SlotFitsIff(av, durationMinutes, k);
    }
  }

  // ---------------------------------------------------------------------
  // Slots of a day and of a date range
  // ---------------------------------------------------------------------

  /** The slots of a list of windows on one date, window by window. */
  function ConcatWindowSlots(windows: seq<AvailabilityWithProfile>, date: int, durationMinutes: int, isPsgAvailable: ConflictOracle): seq<TimeSlot>
    requires durationMinutes > 0
  {
    if |windows| == 0 then []
    else ConcatWindowSlots(windows[..|windows| - 1], date, durationMinutes, isPsgAvailable)
         + WindowSlots(windows[|windows| - 1], date, durationMinutes, isPsgAvailable)
  }

  /** The slots of one date: those of the windows recurring on its weekday. */
  function DaySlots(availabilities: seq<AvailabilityWithProfile>, date: int, durationMinutes: int, isPsgAvailable: ConflictOracle): seq<TimeSlot>
    requires durationMinutes > 0
  {
    ConcatWindowSlots(WindowsForDay(availabilities, Weekday(date)), date, durationMinutes, isPsgAvailable)
  }

  /** The slots of every date from `startDate` to `endDate` inclusive, date by date. */
  function RangeSlots(availabilities: seq<AvailabilityWithProfile>, startDate: int, endDate: int,
                      durationMinutes: int, isPsgAvailable: ConflictOracle): seq<TimeSlot>
    requires durationMinutes > 0
    decreases endDate - startDate
  {
    if endDate < startDate then []
    else RangeSlots(availabilities, startDate, endDate - 1, durationMinutes, isPsgAvailable)
         + DaySlots(availabilities, endDate, durationMinutes, isPsgAvailable)
  }

  /** What `getAvailableTimeSlots` returns for the rows of the availability table. */
  function AvailableTimeSlots(table: seq<AvailabilityWithProfile>, startDate: int, endDate: int,
                              durationMinutes: int, isPsgAvailable: ConflictOracle): seq<TimeSlot>
    requires durationMinutes > 0
  {
    RangeSlots(ActiveWindows(table), startDate, endDate, durationMinutes, isPsgAvailable)
  }

  lemma {:induction false} ConcatWindowSlotsIff(
    windows: seq<AvailabilityWithProfile>, date: int, durationMinutes: int, isPsgAvailable: ConflictOracle, s: TimeSlot)
    requires durationMinutes > 0
    ensures s in ConcatWindowSlots(windows, date, durationMinutes, isPsgAvailable) <==>
              exists w :: w in windows && s in WindowSlots(w, date, durationMinutes, isPsgAvailable)
  {
    if |windows| > 0 {
      var init := windows[..|windows| - 1];
      assert windows == init + [windows[|windows| - 1]];
      ConcatWindowSlotsIff(init, date, durationMinutes, isPsgAvailable, s);
    }
  }

  /** The slots of earlier windows come before the slots of later ones. */
  lemma {:induction false} ConcatWindowSlotsAppend(
    a: seq<AvailabilityWithProfile>, b: seq<AvailabilityWithProfile>, date: int, durationMinutes: int, isPsgAvailable: ConflictOracle)
    requires durationMinutes > 0
    ensures ConcatWindowSlots(a + b, date, durationMinutes, isPsgAvailable)
            == ConcatWindowSlots(a, date, durationMinutes, isPsgAvailable) + ConcatWindowSlots(b, date, durationMinutes, isPsgAvailable)
    decreases |b|
  {
    if |b| == 0 {
      ConcatEmptyRight(a);
      ConcatEmptyRight(ConcatWindowSlots(a, date, durationMinutes, isPsgAvailable));
    } else {
      var init, last := b[..|b| - 1], b[|b| - 1];
      assert (a + b)[..|a + b| - 1] == a + init;
      assert (a + b)[|a + b| - 1] == last;
      ConcatWindowSlotsAppend(a, init, date, durationMinutes, isPsgAvailable);
      ConcatAssociative(ConcatWindowSlots(a, date, durationMinutes, isPsgAvailable),
                        ConcatWindowSlots(init, date, durationMinutes, isPsgAvailable),
                        WindowSlots(last, date, durationMinutes, isPsgAvailable));
    }
  }

  /**
   * Within a date the slots follow the order of the fetched windows: the
   * slots of windows listed earlier all come first.
   */
  lemma DaySlotsFollowWindowOrder(
    a: seq<AvailabilityWithProfile>, b: seq<AvailabilityWithProfile>, date: int, durationMinutes: int, isPsgAvailable: ConflictOracle)
    requires durationMinutes > 0
    ensures DaySlots(a + b, date, durationMinutes, isPsgAvailable)
            == DaySlots(a, date, durationMinutes, isPsgAvailable) + DaySlots(b, date, durationMinutes, isPsgAvailable)
  {
    var p := (av: AvailabilityWithProfile) => av.dayOfWeek == Weekday(date);
    FilterAppend(a, b, p);
    ConcatWindowSlotsAppend(WindowsForDay(a, Weekday(date)), WindowsForDay(b, Weekday(date)), date, durationMinutes, isPsgAvailable);
  }

  /**
   * A slot is offered on a date exactly when a window recurring on that
   * date's weekday produces it.
   */
  lemma DaySlotsIff(availabilities: seq<AvailabilityWithProfile>, date: int, durationMinutes: int, isPsgAvailable: ConflictOracle, s: TimeSlot)
    requires durationMinutes > 0
    ensures s in DaySlots(availabilities, date, durationMinutes, isPsgAvailable) <==>
              exists av :: av in availabilities && av.dayOfWeek == Weekday(date)
                           && s in WindowSlots(av, date, durationMinutes, isPsgAvailable)
  {
    ConcatWindowSlotsIff(WindowsForDay(availabilities, Weekday(date)), date, durationMinutes, isPsgAvailable, s);
  }

  /** Every slot of a date carries that date. */
  lemma DaySlotsDated(availabilities: seq<AvailabilityWithProfile>, date: int, durationMinutes: int, isPsgAvailable: ConflictOracle, s: TimeSlot)
    requires durationMinutes > 0
    requires s in DaySlots(availabilities, date, durationMinutes, isPsgAvailable)
    ensures s.date == date
  {
    DaySlotsIff(availabilities, date, durationMinutes, isPsgAvailable, s);
    var av :| av in availabilities && av.dayOfWeek == Weekday(date) && s in WindowSlots(av, date, durationMinutes, isPsgAvailable);
    WindowSlotsIff(av, date, durationMinutes, isPsgAvailable, s);
  }

  /** Every date of the range is visited, and only those: a slot is in the range's output exactly when its own date's slots hold it. */
  lemma {:induction false} RangeSlotsIff(
    availabilities: seq<AvailabilityWithProfile>, startDate: int, endDate: int, durationMinutes: int, isPsgAvailable: ConflictOracle, s: TimeSlot)
    requires durationMinutes > 0
    ensures s in RangeSlots(availabilities, startDate, endDate, durationMinutes, isPsgAvailable) <==>
              startDate <= s.date <= endDate && s in DaySlots(availabilities, s.date, durationMinutes, isPsgAvailable)
    decreases endDate - startDate
  {
    if startDate <= endDate {
      RangeSlotsIff(availabilities, startDate, endDate - 1, durationMinutes, isPsgAvailable, s);
      if s in DaySlots(availabilities, endDate, durationMinutes, isPsgAvailable) {
        DaySlotsDated(availabilities, endDate, durationMinutes, isPsgAvailable, s);
      }
    }
  }

  /** The output is ordered by date: no slot is followed by a slot of an earlier date. */
  lemma {:induction false} RangeSlotsDateOrdered(
    availabilities: seq<AvailabilityWithProfile>, startDate: int, endDate: int, durationMinutes: int, isPsgAvailable: ConflictOracle)
    requires durationMinutes > 0
    ensures DateOrdered(RangeSlots(availabilities, startDate, endDate, durationMinutes, isPsgAvailable))
    decreases endDate - startDate
  {
    if startDate <= endDate {
      var prev := RangeSlots(availabilities, startDate, endDate - 1, durationMinutes, isPsgAvailable);
      var day := DaySlots(availabilities, endDate, durationMinutes, isPsgAvailable);
      RangeSlotsDateOrdered(availabilities, startDate, endDate - 1, durationMinutes, isPsgAvailable);
      forall i | 0 <= i < |prev|
        ensures prev[i].date <= endDate - 1
      {
        RangeSlotsIff(availabilities, startDate, endDate - 1, durationMinutes, isPsgAvailable, prev[i]);
      }
      forall i | 0 <= i < |day|
        ensures day[i].date == endDate
      {
        DaySlotsDated(availabilities, endDate, durationMinutes, isPsgAvailable, day[i]);
      }
      DateOrderedAppendDay(prev, day, endDate);
    }
  }

  /** A date-ordered prefix of earlier dates followed by slots of one later date stays date-ordered. */
  lemma DateOrderedAppendDay(prev: seq<TimeSlot>, day: seq<TimeSlot>, date: int)
    requires DateOrdered(prev)
    requires forall i :: 0 <= i < |prev| ==> prev[i].date < date
    requires forall i :: 0 <= i < |day| ==> day[i].date == date
    ensures DateOrdered(prev + day)
  {
    var r := prev + day;
    forall i, j | 0 <= i < j < |r|
      ensures r[i].date <= r[j].date
    {
      if j < |prev| {
        assert r[i] == prev[i] && r[j] == prev[j];
      } else if i < |prev| {
        assert r[i] == prev[i] && r[j] == day[j - |prev|];
      } else {
        assert r[i] == day[i - |prev|] && r[j] == day[j - |prev|];
      }
    }
  }

  /** A range splits at any date into the earlier part followed by the later part. */
  lemma {:induction false} RangeSlotsSplit(
    availabilities: seq<AvailabilityWithProfile>, startDate: int, middle: int, endDate: int,
    durationMinutes: int, isPsgAvailable: ConflictOracle)
    requires durationMinutes > 0
    requires startDate - 1 <= middle <= endDate
    ensures RangeSlots(availabilities, startDate, endDate, durationMinutes, isPsgAvailable)
            == RangeSlots(availabilities, startDate, middle, durationMinutes, isPsgAvailable)
               + RangeSlots(availabilities, middle + 1, endDate, durationMinutes, isPsgAvailable)
    decreases endDate - middle
  {
    if middle < endDate {
      RangeSlotsSplit(availabilities, startDate, middle, endDate - 1, durationMinutes, isPsgAvailable);
      ConcatAssociative(RangeSlots(availabilities, startDate, middle, durationMinutes, isPsgAvailable),
                        RangeSlots(availabilities, middle + 1, endDate - 1, durationMinutes, isPsgAvailable),
                        DaySlots(availabilities, endDate, durationMinutes, isPsgAvailable));
    } else {
      ConcatEmptyRight(RangeSlots(availabilities, startDate, middle, durationMinutes, isPsgAvailable));
    }
  }

  /**
   * The whole contract of the slot query: a slot is returned exactly when
   * its date lies in the range, an active window recurs on that date's
   * weekday, the slot is one of that window's whole back-to-back candidates
   * and the conflict check confirms it.
   */
  lemma AvailableTimeSlotsIff(
    table: seq<AvailabilityWithProfile>, startDate: int, endDate: int, durationMinutes: int, isPsgAvailable: ConflictOracle, s: TimeSlot)
    requires durationMinutes > 0
    ensures s in AvailableTimeSlots(table, startDate, endDate, durationMinutes, isPsgAvailable) <==>
              && startDate <= s.date <= endDate
              && exists av, k :: av in table && av.isActive && av.dayOfWeek == Weekday(s.date)
                                 && 0 <= k < SlotCount(av, durationMinutes)
                                 && s == Candidate(av, s.date, k, durationMinutes)
                                 && CandidateConfirmed(av, s.date, k, durationMinutes, isPsgAvailable)
  {
    var active := ActiveWindows(table);
    RangeSlotsIff(active, startDate, endDate, durationMinutes, isPsgAvailable, s);
    DaySlotsIff(active, s.date, durationMinutes, isPsgAvailable, s);
    if s in AvailableTimeSlots(table, startDate, endDate, durationMinutes, isPsgAvailable) {
      var av :| av in active && av.dayOfWeek == Weekday(s.date) && s in WindowSlots(av, s.date, durationMinutes, isPsgAvailable);
      WindowSlotsIff(av, s.date, durationMinutes, isPsgAvailable, s);
    }
    if startDate <= s.date <= endDate
       && exists av, k :: av in table && av.isActive && av.dayOfWeek == Weekday(s.date)
                          && 0 <= k < SlotCount(av, durationMinutes)
                          && s == Candidate(av, s.date, k, durationMinutes)
                          && CandidateConfirmed(av, s.date, k, durationMinutes, isPsgAvailable)
    {
      var av, k :| av in table && av.isActive && av.dayOfWeek == Weekday(s.date)
                   && 0 <= k < SlotCount(av, durationMinutes)
                   && s == Candidate(av, s.date, k, durationMinutes)
                   && CandidateConfirmed(av, s.date, k, durationMinutes, isPsgAvailable);
      WindowSlotsIff(av, s.date, durationMinutes, isPsgAvailable, s);
    }
  }

  /**
   * Every returned slot lies inside an active window of its member
   * recurring on the slot's weekday, starts a whole number of durations
   * after the window's start, lasts exactly the requested duration and was
   * confirmed by the conflict check.
   */
  lemma AvailableSlotInWindow(
    table: seq<AvailabilityWithProfile>, startDate: int, endDate: int, durationMinutes: int, isPsgAvailable: ConflictOracle, s: TimeSlot)
    requires durationMinutes > 0
    requires s in AvailableTimeSlots(table, startDate, endDate, durationMinutes, isPsgAvailable)
    ensures startDate <= s.date <= endDate
    ensures s.durationMinutes == durationMinutes && s.endTime == s.startTime + durationMinutes
    ensures Confirms(isPsgAvailable(s.psgMemberId, s.date, s.startTime, durationMinutes))
    ensures exists av :: av in table && av.isActive && av.psgMemberId == s.psgMemberId
                         && av.dayOfWeek == Weekday(s.date)
                         && av.startTime <= s.startTime && s.endTime <= av.endTime
                         && (s.startTime - av.startTime) % durationMinutes == 0
  {
    AvailableTimeSlotsIff(table, startDate, endDate, durationMinutes, isPsgAvailable, s);
    var av, k :| av in table && av.isActive && av.dayOfWeek == Weekday(s.date)
                 && 0 <= k < SlotCount(av, durationMinutes)
                 && s == Candidate(av, s.date, k, durationMinutes)
                 && CandidateConfirmed(av, s.date, k, durationMinutes, isPsgAvailable);
    CandidateInWindow(av, s.date, k, durationMinutes);
    assert (s.startTime - av.startTime) % durationMinutes == 0 by {
      assert s.startTime - av.startTime == k * durationMinutes;
      MultipleHasNoRemainder(k, durationMinutes);
    }
  }

  /** The part of `AvailableSlotInWindow` the slot query promises about each returned slot. */
  lemma AvailableSlotInRange(
    table: seq<AvailabilityWithProfile>, startDate: int, endDate: int, durationMinutes: int, isPsgAvailable: ConflictOracle, s: TimeSlot)
    requires durationMinutes > 0
    requires s in AvailableTimeSlots(table, startDate, endDate, durationMinutes, isPsgAvailable)
    ensures startDate <= s.date <= endDate && s.durationMinutes == durationMinutes
  {
    AvailableSlotInWindow(table, startDate, endDate, durationMinutes, isPsgAvailable, s);
  }

  lemma MultipleHasNoRemainder(k: int, d: int)
    requires d > 0
    ensures (k * d) % d == 0
  {
    var q, m := (k * d) / d, (k * d) % d;
    assert k * d == q * d + m;
    assert (k - q) * d == m;
    if k - q > 0 {
      MulMonotone(1, k - q, d);
    } else if k - q < 0 {
      MulMonotone(k - q, -1, d);
    }
  }

  /** The loop over the windows that recur on one date, in the order they were fetched. */
  method CollectDaySlots(availabilities: seq<AvailabilityWithProfile>, date: int, durationMinutes: int, isPsgAvailable: ConflictOracle)
    returns (slots: seq<TimeSlot>)
    requires durationMinutes > 0
    ensures slots == DaySlots(availabilities, date, durationMinutes, isPsgAvailable)
  {
    var dayAvailabilities := WindowsForDay(availabilities, Weekday(date));
    slots := [];
    for i := 0 to |dayAvailabilities|
      invariant slots == ConcatWindowSlots(dayAvailabilities[..i], date, durationMinutes, isPsgAvailable)
    {
      var windowSlots := CollectWindowSlots(dayAvailabilities[i], date, durationMinutes, isPsgAvailable);
      assert dayAvailabilities[..i + 1][..i] == dayAvailabilities[..i];
      slots := slots + windowSlots;
    }
    assert dayAvailabilities[..|dayAvailabilities|] == dayAvailabilities;
  }

  /**
   * `getAvailableTimeSlots`: `store` holds the rows of the availability
   * table, or `None` when the store reports an error; `durationMinutes` is
   * `None` when the caller leaves the duration out. Walks the dates from
   * `startDate` to `endDate`, one day per step.
   */
  method GetAvailableTimeSlots(store: Option<seq<AvailabilityWithProfile>>, startDate: int, endDate: int,
                               durationMinutes: Option<int>, isPsgAvailable: ConflictOracle)
    returns (r: Result<seq<TimeSlot>, string>)
    requires store.Some? ==> durationMinutes.GetOr(DefaultDurationMinutes) > 0
    ensures store.None? ==> r == Failure("Failed to fetch availabilities")
    ensures store.Some? ==>
              r == Success(AvailableTimeSlots(store.value, startDate, endDate,
                                              durationMinutes.GetOr(DefaultDurationMinutes), isPsgAvailable))
    ensures r.Success? ==>
              forall s :: s in r.value ==>
                startDate <= s.date <= endDate && s.durationMinutes == durationMinutes.GetOr(DefaultDurationMinutes)
  {
    if store.None? {
      return Failure("Failed to fetch availabilities");
    }
    var duration := durationMinutes.GetOr(DefaultDurationMinutes);
    var availabilities := ActiveWindows(store.value);
    var slots := [];
    var date := startDate;
    while date <= endDate
      invariant startDate <= date && (date <= endDate + 1 || date == startDate)
      invariant slots == RangeSlots(availabilities, startDate, date - 1, duration, isPsgAvailable)
      decreases endDate - date
    {
      var daySlots := CollectDaySlots(availabilities, date, duration, isPsgAvailable);
      assert RangeSlots(availabilities, startDate, date, duration, isPsgAvailable) == slots + daySlots;
      slots := slots + daySlots;
      date := date + 1;
    }
    assert slots == AvailableTimeSlots(store.value, startDate, endDate, duration, isPsgAvailable);
    forall s | s in slots
      ensures startDate <= s.date <= endDate && s.durationMinutes == duration
    {
      AvailableSlotInRange(store.value, startDate, endDate, duration, isPsgAvailable, s);
    }
    return Success(slots);
  }

  // ---------------------------------------------------------------------
  // Members free at one date and time
  // ---------------------------------------------------------------------

  /**
   * The store-side filter of `getAvailablePSGMembers`: active, recurring on
   * the weekday, and `startTime <= time <= endTime`, both ends inclusive.
   */
  predicate CoversTime(av: AvailabilityWithProfile, weekday: int, time: int) {
    av.isActive && av.dayOfWeek == weekday && av.startTime <= time && time <= av.endTime
  }

  function MatchingWindows(table: seq<AvailabilityWithProfile>, weekday: int, time: int): seq<AvailabilityWithProfile> {
    Filter(table, (av: AvailabilityWithProfile) => CoversTime(av, weekday, time))
  }

  /** The profiles of the windows whose member the conflict check confirms, in window order. */
  function ConfirmedMembers(windows: seq<AvailabilityWithProfile>, date: int, time: int,
                            durationMinutes: int, isPsgAvailable: ConflictOracle): seq<Profile>
  {
    if |windows| == 0 then []
    else
      var av := windows[|windows| - 1];
      ConfirmedMembers(windows[..|windows| - 1], date, time, durationMinutes, isPsgAvailable)
      + (if Confirms(isPsgAvailable(av.psgMemberId, date, time, durationMinutes)) then [av.psgMember] else [])
  }

  /** What `getAvailablePSGMembers` returns for the rows of the availability table. */
  function AvailableMembers(table: seq<AvailabilityWithProfile>, date: int, time: int,
                            durationMinutes: int, isPsgAvailable: ConflictOracle): seq<Profile>
  {
    ConfirmedMembers(MatchingWindows(table, Weekday(date), time), date, time, durationMinutes, isPsgAvailable)
  }

  lemma {:induction false} ConfirmedMembersIff(
    windows: seq<AvailabilityWithProfile>, date: int, time: int, durationMinutes: int, isPsgAvailable: ConflictOracle, p: Profile)
    ensures |ConfirmedMembers(windows, date, time, durationMinutes, isPsgAvailable)| <= |windows|
    ensures p in ConfirmedMembers(windows, date, time, durationMinutes, isPsgAvailable) <==>
              exists av :: av in windows && av.psgMember == p
                           && Confirms(isPsgAvailable(av.psgMemberId, date, time, durationMinutes))
  {
    if |windows| > 0 {
      var init := windows[..|windows| - 1];
      assert windows == init + [windows[|windows| - 1]];
      ConfirmedMembersIff(init, date, time, durationMinutes, isPsgAvailable, p);
    }
  }

  /**
   * The result follows the order of the windows, one entry per confirmed
   * window: the result for a concatenation is the result for the first part
   * followed by the result for the second.
   */
  lemma {:induction false} ConfirmedMembersAppend(
    a: seq<AvailabilityWithProfile>, b: seq<AvailabilityWithProfile>, date: int, time: int,
    durationMinutes: int, isPsgAvailable: ConflictOracle)
    ensures ConfirmedMembers(a + b, date, time, durationMinutes, isPsgAvailable)
            == ConfirmedMembers(a, date, time, durationMinutes, isPsgAvailable)
               + ConfirmedMembers(b, date, time, durationMinutes, isPsgAvailable)
    decreases |b|
  {
    if |b| == 0 {
      ConcatEmptyRight(a);
      ConcatEmptyRight(ConfirmedMembers(a, date, time, durationMinutes, isPsgAvailable));
    } else {
      var init, last := b[..|b| - 1], b[|b| - 1];
      assert (a + b)[..|a + b| - 1] == a + init;
      assert (a + b)[|a + b| - 1] == last;
      ConfirmedMembersAppend(a, init, date, time, durationMinutes, isPsgAvailable);
      ConcatAssociative(ConfirmedMembers(a, date, time, durationMinutes, isPsgAvailable),
                        ConfirmedMembers(init, date, time, durationMinutes, isPsgAvailable),
                        if Confirms(isPsgAvailable(last.psgMemberId, date, time, durationMinutes)) then [last.psgMember] else []);
    }
  }

  /** A single window contributes its member's profile when the conflict check confirms it, and nothing otherwise. */
  lemma ConfirmedMembersSingle(w: AvailabilityWithProfile, date: int, time: int,
                               durationMinutes: int, isPsgAvailable: ConflictOracle)
    ensures ConfirmedMembers([w], date, time, durationMinutes, isPsgAvailable)
            == if Confirms(isPsgAvailable(w.psgMemberId, date, time, durationMinutes)) then [w.psgMember] else []
  {
    assert [w][..0] == [];
  }

  /**
   * A profile is returned exactly when one of its member's active windows
   * recurs on the date's weekday, covers the time with both ends included,
   * and the conflict check confirms the member at that instant. There is at
   * most one profile per matching window.
   */
  lemma AvailableMembersIff(
    table: seq<AvailabilityWithProfile>, date: int, time: int, durationMinutes: int, isPsgAvailable: ConflictOracle, p: Profile)
    ensures |AvailableMembers(table, date, time, durationMinutes, isPsgAvailable)| <= |MatchingWindows(table, Weekday(date), time)|
    ensures p in AvailableMembers(table, date, time, durationMinutes, isPsgAvailable) <==>
              exists av :: av in table && av.psgMember == p
                           && av.isActive && av.dayOfWeek == Weekday(date)
                           && av.startTime <= time <= av.endTime
                           && Confirms(isPsgAvailable(av.psgMemberId, date, time, durationMinutes))
  {
    ConfirmedMembersIff(MatchingWindows(table, Weekday(date), time), date, time, durationMinutes, isPsgAvailable, p);
  }

  /**
   * The boundary of the time filter: a window is matched at its very end
   * time, although an appointment of any positive length starting there
   * runs past the window.
   */
  lemma WindowEndIsIncluded(
    table: seq<AvailabilityWithProfile>, av: AvailabilityWithProfile, date: int, durationMinutes: int, isPsgAvailable: ConflictOracle)
    requires av in table && av.isActive && av.dayOfWeek == Weekday(date) && av.startTime <= av.endTime
    requires Confirms(isPsgAvailable(av.psgMemberId, date, av.endTime, durationMinutes))
    ensures av.psgMember in AvailableMembers(table, date, av.endTime, durationMinutes, isPsgAvailable)
  {
    AvailableMembersIff(table, date, av.endTime, durationMinutes, isPsgAvailable, av.psgMember);
  }

  /**
   * `getAvailablePSGMembers`: `store` holds the rows of the availability
   * table, or `None` when the store reports an error; `durationMinutes` is
   * `None` when the caller leaves the duration out.
   */
  method GetAvailablePsgMembers(store: Option<seq<AvailabilityWithProfile>>, date: int, time: int,
                                durationMinutes: Option<int>, isPsgAvailable: ConflictOracle)
    returns (r: Result<seq<Profile>, string>)
    ensures store.None? ==> r == Failure("Failed to fetch available PSG members")
    ensures store.Some? ==>
              r == Success(AvailableMembers(store.value, date, time,
                                            durationMinutes.GetOr(DefaultDurationMinutes), isPsgAvailable))
  {
    if store.None? {
      return Failure("Failed to fetch available PSG members");
    }
    var duration := durationMinutes.GetOr(DefaultDurationMinutes);
    var availabilities := MatchingWindows(store.value, Weekday(date), time);
    var availableMembers := [];
    for i := 0 to |availabilities|
      invariant availableMembers == ConfirmedMembers(availabilities[..i], date, time, duration, isPsgAvailable)
    {
      var availability := availabilities[i];
      var isAvailable := isPsgAvailable(availability.psgMemberId, date, time, duration);
      assert availabilities[..i + 1][..i] == availabilities[..i];
      if Confirms(isAvailable) {
        availableMembers := availableMembers + [availability.psgMember];
      }
    }
    assert availabilities[..|availabilities|] == availabilities;
    return Success(availableMembers);
  }

  // ---------------------------------------------------------------------
  // Worked examples
  // ---------------------------------------------------------------------

  /** An oracle that confirms every candidate. */
  function AlwaysAvailable(psgMemberId: string, date: int, minute: int, durationMinutes: int): Option<bool> {
    Some(true)
  }

  /**
   * A window 09:00-17:00 gives eight one-hour slots 09:00-10:00 up to
   * 16:00-17:00, one slot of 480 minutes and none of 481 minutes.
   */
  lemma NineToFiveExample(av: AvailabilityWithProfile, date: int)
    requires av.startTime == 9 * 60 && av.endTime == 17 * 60
    ensures SlotCount(av, 60) == 8 && SlotCount(av, 480) == 1 && SlotCount(av, 481) == 0
    ensures var r := WindowSlots(av, date, 60, AlwaysAvailable);
            |r| == 8 && forall i :: 0 <= i < 8 ==> r[i].startTime == 540 + 60 * i && r[i].endTime == 600 + 60 * i
  {
    var r := WindowSlots(av, date, 60, AlwaysAvailable);
    WindowSlotCount(av, date, 60, AlwaysAvailable);
    forall i | 0 <= i < 8
      ensures r[i].startTime == 540 + 60 * i && r[i].endTime == 600 + 60 * i
    {
      ConfirmedCandidatesAt(av, date, 60, AlwaysAvailable, 8, i);
    }
  }

  lemma {:induction false} ConfirmedCandidatesAt(
    av: AvailabilityWithProfile, date: int, durationMinutes: int, isPsgAvailable: ConflictOracle, n: nat, i: int)
    requires forall k :: 0 <= k < n ==> CandidateConfirmed(av, date, k, durationMinutes, isPsgAvailable)
    requires 0 <= i < n
    ensures |ConfirmedCandidates(av, date, durationMinutes, isPsgAvailable, n)| == n
    ensures ConfirmedCandidates(av, date, durationMinutes, isPsgAvailable, n)[i] == Candidate(av, date, i, durationMinutes)
  {
    ConfirmedCandidatesCount(av, date, durationMinutes, isPsgAvailable, n);
    ConfirmedCandidatesCount(av, date, durationMinutes, isPsgAvailable, n - 1);
    if i < n - 1 {
      ConfirmedCandidatesAt(av, date, durationMinutes, isPsgAvailable, n - 1, i);
    }
  }

  /** Consecutive dates have consecutive weekdays, and the weekday repeats every seven days. */
  lemma WeekdayCycle(date: int)
    ensures Weekday(date + 1) == (Weekday(date) + 1) % 7
    ensures Weekday(date + 7) == Weekday(date)
  {
  }
}
