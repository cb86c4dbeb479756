# CareConnect scheduling core in Dafny

This project models three parts of CareConnect, a student mental-health support application, and proves properties about them:

- **PSG availability** (`psg_availability.dfy`, module `PsgAvailability`). Peer-support-group (PSG) members declare weekly recurring availability windows. The slot engine turns the active windows into bookable time slots over an inclusive date range. Each window is cut into back-to-back slots of a fixed duration, and every candidate goes through the database's booking-conflict check. A second query answers which members are free at one date and time. The store-side guard and default of window creation are modelled too, along with the active-flag toggle as a special case of update. The two queries are written as methods with loops over sequence accumulators, as the source fills its arrays with `push`. Each method is proved equal to a specification function, and lemmas state what that function means.
- **Severity classifier** (`case_assessment.dfy`, module `CaseAssessment`). The six-question screening table and `calculateSeverity`, which maps yes/no answers to a low, moderate or high level with a colour and an immediate-attention flag.
- **Role helpers** (`roles.dfy`, module `Roles`). The three role predicates, the display-name table and the required-role check over the `user_role` enumeration.

`wrappers.dfy` holds the `Option` and `Result` datatypes shared by the modules.

Conventions of the model:

- A time of day is a whole number of minutes after midnight.
- A date is a day number counted from 1970-01-01, which is day 0 and a Thursday. `Weekday` therefore agrees with `Date.getDay()`: 0 is Sunday and 6 is Saturday.
- The database procedure `is_psg_available` is the parameter `isPsgAvailable`. It takes a member id, a date, a minute of day and a duration, and returns `Option<bool>`. `None` stands for a call that returned no data. A candidate is kept only on `Some(true)`, which is the source's truthiness test on the returned value.
- The store's query result is a parameter `store: Option<seq<...>>` holding the rows of the availability table. `None` means the store reported an error. The query's own filters (`is_active`, weekday, time range) are modelled as filters over those rows.

## Model

| member | source | states |
|---|---|---|
| `Roles.ExactlyOneRolePredicate` | src/lib/utils/auth.ts:12-22 | `isStudent`, `isPSGMember` and `isAdmin` each hold exactly for their own role, so for every role exactly one of them is true |
| `Roles.FormatRoleInjective` | src/lib/utils/auth.ts:25-32 | student, psg_member and admin display as "Student", "PSG Member" and "Administrator", and distinct roles get distinct display names |
| `Roles.HasRole` | src/lib/utils/auth.ts:35-40 | the left-to-right `includes` scan is true iff the role occurs in the required list |
| `Roles.HasRoleBaseCases` | src/lib/utils/auth.ts:35-40 | false for an empty list; for a one-element list, true exactly when that element is the role |
| `Roles.HasRoleMonotone` | src/lib/utils/auth.ts:39 | adding roles to the required list, before or after, never turns a granted check into a denied one |
| `CaseAssessment.AnyResponse` | src/lib/constants/caseAssessment.ts:74-78 | the short-circuit `some` scan is true iff some response satisfies the predicate |
| `CaseAssessment.IsYesSpellings` | src/lib/constants/caseAssessment.ts:77 | the lower-cased comparison with "yes" accepts exactly the eight case spellings of "yes" |
| `CaseAssessment.CalculateSeverity` | src/lib/constants/caseAssessment.ts:68-107 | high iff some q4/q5/q6 answer is yes; moderate iff no such answer but some q3 answer is yes; otherwise low; red/yellow/green follow the level; immediate attention iff high |
| `CaseAssessment.SeverityMonotone` | src/lib/constants/caseAssessment.ts:74-99 | if one response list is a sub-multiset of another, the larger list's level is at least as high |
| `CaseAssessment.SeverityMonotoneUnderAppend` | src/lib/constants/caseAssessment.ts:74-99 | appending responses never lowers the level |
| `CaseAssessment.SeverityPermutationInvariant` | src/lib/constants/caseAssessment.ts:74-91 | permuting the responses leaves the whole result unchanged |
| `CaseAssessment.OtherQuestionsNeverRaise` | src/lib/constants/caseAssessment.ts:74-106 | appending responses to questions outside q3-q6 leaves the result unchanged |
| `CaseAssessment.LowRiskQuestionsAloneGiveLow` | src/lib/constants/caseAssessment.ts:101-106 | answers to q1 and q2 alone, whatever they are, give low / green / no immediate attention |
| `CaseAssessment.QuestionTableIds` | src/lib/constants/caseAssessment.ts:14-60 | the table has six questions with distinct ids q1 to q6, in order |
| `CaseAssessment.SkipTargetsLieAhead` | src/lib/constants/caseAssessment.ts:14-60 | every skip rule (q2 on "no") names a question that exists later in the table |
| `CaseAssessment.RiskLevelsAgreeWithClassifier` | src/lib/constants/caseAssessment.ts:14-106 | every question carries a risk level, and a lone "yes" to it makes the classifier return exactly that level |
| `PsgAvailability.CreateAvailabilityRow` | src/actions/psg-availability.ts:16-47 | fails with "Unauthorized" without a caller and with the ownership error when the window's member is not the caller; otherwise copies the fields, and the window is active unless `is_active` is given as false |
| `PsgAvailability.ToggleChangesOnlyActiveFlag` | src/actions/psg-availability.ts:113-167 | applying the toggle's update changes the active flag and nothing else |
| `PsgAvailability.ApplyUpdateIdempotent` | src/actions/psg-availability.ts:113-125 | applying the same partial update twice equals applying it once |
| `PsgAvailability.EmptyUpdateKeepsRow` | src/actions/psg-availability.ts:113-125 | an update naming no column leaves the row unchanged |
| `PsgAvailability.Weekday` | src/actions/psg-availability.ts:208 | the weekday of a date lies in 0..6 |
| `PsgAvailability.WeekdayCycle` | src/actions/psg-availability.ts:203-208 | stepping one day advances the weekday by one modulo 7; it repeats every seven days |
| `PsgAvailability.Filter` | src/actions/psg-availability.ts:211-212 | the filter keeps exactly the elements satisfying the predicate and never grows the list |
| `PsgAvailability.FilterAppend` | src/actions/psg-availability.ts:211-212 | filtering keeps the original order: the filter of a concatenation is the concatenation of the filters |
| `PsgAvailability.SlotCount` | src/actions/psg-availability.ts:229-235 | the number of whole slots is the largest n with start + n·D <= end (zero if none fits): one more slot would overrun the window |
| `PsgAvailability.SlotFitsIff` | src/actions/psg-availability.ts:231-235 | candidate k ends within the window exactly when k is below the slot count |
| `PsgAvailability.CandidateInWindow` | src/actions/psg-availability.ts:230-235 | every counted candidate starts at window start + k·D, starts no earlier than the window, ends no later than the window and lasts exactly D |
| `PsgAvailability.WindowSlotsIff` | src/actions/psg-availability.ts:229-262 | a slot comes out of a window on a date exactly when it is one of the window's whole candidates and the conflict check returns `true` for it |
| `PsgAvailability.WindowSlotCount` | src/actions/psg-availability.ts:229-264 | the slot count is (end − start) div D for a non-empty window, else 0; all candidates confirmed gives exactly that many slots; none confirmed gives no slot |
| `PsgAvailability.WindowSlotsAscending` | src/actions/psg-availability.ts:230-264 | a window's slots are ascending and do not overlap: each ends no later than every later one starts |
| `PsgAvailability.CollectWindowSlots` | src/actions/psg-availability.ts:229-265 | the cursor loop, with its `<` and `<=` tests, returns exactly the window's confirmed whole candidates in order |
| `PsgAvailability.ConcatWindowSlotsIff` | src/actions/psg-availability.ts:214-266 | the slots of a list of windows are exactly the slots of its members |
| `PsgAvailability.ConcatWindowSlotsAppend` | src/actions/psg-availability.ts:214-266 | the slots of earlier windows come before those of later windows |
| `PsgAvailability.DaySlotsIff` | src/actions/psg-availability.ts:208-214 | on a date, a slot comes only from windows whose `day_of_week` equals the date's weekday |
| `PsgAvailability.DaySlotsFollowWindowOrder` | src/actions/psg-availability.ts:208-214 | within a date, the slots follow the order of the fetched windows |
| `PsgAvailability.DaySlotsDated` | src/actions/psg-availability.ts:249-253 | every slot produced for a date carries that date |
| `PsgAvailability.CollectDaySlots` | src/actions/psg-availability.ts:208-266 | the loop over one date's windows returns the concatenation of their slots, in window order |
| `PsgAvailability.RangeSlotsIff` | src/actions/psg-availability.ts:203-207 | a slot is in the range's output iff its date lies in [start, end] and that date's slots hold it, so an empty range (start > end) yields nothing |
| `PsgAvailability.RangeSlotsSplit` | src/actions/psg-availability.ts:203-207 | the output of a range is the output of its earlier days followed by that of its later days |
| `PsgAvailability.RangeSlotsDateOrdered` | src/actions/psg-availability.ts:203-267 | the output is ordered by date ascending |
| `PsgAvailability.AvailableTimeSlotsIff` | src/actions/psg-availability.ts:173-274 | a slot is returned iff its date is in range and it is a whole candidate of an active window recurring on that weekday that the conflict check confirms |
| `PsgAvailability.AvailableSlotInWindow` | src/actions/psg-availability.ts:230-260 | every returned slot lasts D, carries `duration_minutes` = D, was confirmed, and lies inside an active window of its member on its weekday, a multiple of D after the window's start |
| `PsgAvailability.GetAvailableTimeSlots` | src/actions/psg-availability.ts:173-274 | fails with "Failed to fetch availabilities" on a store error; otherwise walks the dates one per step and returns exactly the specified slots; every slot's date lies in the range and its `duration_minutes` is the requested duration, 60 when none is given |
| `PsgAvailability.NineToFiveExample` | src/actions/psg-availability.ts:229-264 | a 09:00-17:00 window gives eight hourly slots 09-10 through 16-17; one slot for D = 480; none for D = 481 |
| `PsgAvailability.ConfirmedMembersIff` | src/actions/psg-availability.ts:307-321 | the result holds a profile iff one of the windows belongs to it and the conflict check confirms its member; the result has no more entries than there are windows |
| `PsgAvailability.ConfirmedMembersAppend` | src/actions/psg-availability.ts:307-321 | the result follows the window order: the result for a concatenation of windows is the result for the first part followed by that for the second |
| `PsgAvailability.ConfirmedMembersSingle` | src/actions/psg-availability.ts:307-321 | a single window gives its member's profile if the conflict check confirms it and nothing otherwise, so with `ConfirmedMembersAppend` there is one entry per confirmed window and a member with several confirmed matching windows appears once per window |
| `PsgAvailability.AvailableMembersIff` | src/actions/psg-availability.ts:288-321 | a profile is returned iff one of its active windows recurs on the date's weekday, has start <= time <= end (both inclusive) and is confirmed by the conflict check |
| `PsgAvailability.WindowEndIsIncluded` | src/actions/psg-availability.ts:299-300 | a window matches at exactly its end time, with no check that time + duration fits |
| `PsgAvailability.GetAvailablePsgMembers` | src/actions/psg-availability.ts:276-328 | fails with "Failed to fetch available PSG members" on a store error; otherwise returns exactly the specified profiles, checking with the given duration or 60 when none is given (their order is that of the matching windows, by `ConfirmedMembersAppend`) |

## Left out

- Store I/O. This covers every Supabase query builder, the insert, update and delete themselves, `auth.getUser`, `revalidatePath` and console logging. `getPSGAvailability`, `getAllActivePSGAvailability` and `deletePSGAvailability` consist only of store calls and are not modelled. Their ordering by (`day_of_week`, `start_time`) is the database's work.
- The catch-all "An unexpected error occurred" paths. These are JavaScript exceptions, for instance a joined profile that is missing.
- The store failures of create and update ("Failed to create availability", "Failed to update availability"). Create is modelled up to the values it sends to the store. Update is modelled as its effect on one row: the given columns are replaced and all others kept. Which rows the store matches by id, and whether the write succeeds, are not modelled.
- The body of `is_psg_available`, which runs in the database. It is an opaque parameter here.
- JavaScript `Date` semantics. Time zones, daylight-saving shifts and the parsing of "YYYY-MM-DD" and "HH:MM" strings are not modelled. Windows and slots are compared in whole minutes, so seconds are not modelled either. The source takes a slot's `date` from the UTC rendering of its start and its times from the local rendering. The model gives a slot the calendar day it was generated for, which is what the source produces when local time is UTC.
- `GetAvailableTimeSlots` requires a positive duration (after the default of 60 is applied) whenever the store answers; on a store error it returns the failure for every duration. With a duration of 0 or less, the source's cursor loop does not terminate once it enters a window with start < end. The source does return an empty list for such a duration when the range is empty (start > end), or when no active window with start < end recurs on a visited weekday. The model does not cover those inputs. `CollectWindowSlots` requires a positive duration for the same reason.
- The duration is a whole number of minutes. The source's duration is a JavaScript `number` and may be fractional. In that case `setMinutes` truncates the cursor's step, while the conflict check and the slot's `duration_minutes` keep the fraction. The model does not cover fractional durations.
- Concurrency and the order in which oracle calls are issued. The source awaits each call in turn, and the model is the same sequential computation.
- The wording of the six screening questions. The table keeps each question's id, type, skip rule and risk level.
- `CaseAssessment.IsYesSpellings`: only ASCII letters are lower-cased. No other character lower-cases to `y`, `e` or `s`, so the comparison with "yes" is unaffected.
- The model follows the code, which:
  - does no validation of `day_of_week` or of start < end in create and update;
  - does no ownership check of its own in update, toggle and delete;
  - neither merges nor de-duplicates overlapping windows, so they can offer the same slot twice;
  - matches a window in `getAvailablePSGMembers` at its end time even when the appointment would overrun it (`WindowEndIsIncluded`);
  - does not order the windows in the slot query, so within a date the model keeps the order in which the store returned them.
