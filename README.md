# Lab scheduler: allocation engine

A model of the scheduling core of a school's computer-lab booking service.
Teachers file lab requests for a date and a teaching period. Each request
belongs to a subject group, such as "Tin học" (Informatics) or "Hoa học"
(Chemistry), and may name a preferred lab. The engine gives each request one
reservation on a free, active lab of its group.

These parts of the engine are modelled:

- **Group resolution.** The request's own group is used first. If it has
  none, the group of its preferred lab is used, then the group of its
  teacher's preferred lab, and finally "Tin học".
- **Allocation of one request.** The preferred lab is taken when it is
  eligible. Otherwise the first free active lab of the group, in name order,
  is taken. On success a reservation is added and the request becomes
  "scheduled".
- **The batch scheduler.** It runs over pending and approved requests,
  those with a preference first and then by creation time. A request that
  cannot be placed is marked "conflict".
- **The backfill pass.** It gives every scheduled request without a
  reservation one, and counts the reservations created and the conflicts.
- **The conflict advisor.** For a request, it lists who holds the labs of
  its group at its slot. It then searches nearby slots for a free lab:
  - dates in the order 0, -1, +1, -2, +2, … days from the requested date;
  - periods 1 to `maxPeriod` within each date;
  - at most `topK` suggestions, each naming up to three free labs.
- **Two administrator actions.** Manual lab assignment, and status change.
- **Checks on a new request.** The teaching-week date is derived, the
  preferred lab is validated, and the teacher's duplicate request at the
  same slot is refused.
- **The calendar-month range** used for reports.

## How the model is organised

The four tables (labs, teachers, requests, reservations) form one value,
`Model.Tables`, with rows kept in table order. Every operation is first a
function on `Tables`, and its properties are proved as lemmas. The
consistency rules are collected in `Invariants.Inv`:

- unique lab keys and unique request keys (teacher keys are not constrained);
- at most one reservation per (lab, date, period);
- at most one reservation per request;
- every reservation points at an existing lab and an existing request. That request is "scheduled", the reservation is at its date and period, and the lab belongs to the request's resolved group.

Every state-changing operation is proved to keep `Inv`.

`Store.Database` is a class with the four tables as fields. Its methods carry
out the source's loops:

- the walk over the labs;
- the batch and backfill loops;
- the advisor's three nested search loops.

Each method is proved to leave the fields exactly as the functional model
says. Dates inside the engine are day numbers (`int`). The month range uses
calendar triples.

## Model

| member | source | states |
|---|---|---|
| Groups.ResolveGroup | app.py:383-397 | the resolved group is never empty |
| Groups.ResolveGroupChain | app.py:383-397 | the request's own group wins; else the non-empty group of the existing lab its preferred key names (a key of 0 names none); else that of the lab the teacher's key names; else "Tin học" |
| Groups.ResolveGroupWriteBack | app.py:404-406 | writing the resolved group back onto the request (or changing its status) does not change what resolves later |
| Groups.RequestPreferenceWins | app.py:420 | a lab is tried first exactly when the request's or the teacher's key names one (a key of 0 names none); the request's own non-zero key, valid or not, wins over the teacher's; the key tried is never 0 |
| Groups.ZeroKeyIsNoPreference | app.py:387-423 | a stored preferred-lab key of 0 gives the same first lab and the same group as no key at all |
| Groups.PreferredLabSetsGroup | app.py:383-426 | for a request without its own group, the lab the allocator tries first sets the resolved group whenever that lab exists and has a group |
| Names.SortByName | app.py:408 | the labs come out as a permutation of the input, sorted by name |
| Allocation.ActiveLabsInGroup | app.py:408 | exactly the active labs of the group, in name order |
| Allocation.ChooseLabSound | app.py:408-435 | a chosen lab is an existing, active lab of the group that no reservation holds at the request's date and period |
| Allocation.ChooseLabFailsIffAllTaken | app.py:408-435 | allocation finds no lab exactly when every active lab of the group is occupied at the slot (both directions) |
| Allocation.PreferenceHonoured | app.py:420-426 | an existing preferred lab that is active, in the group and free is always the one chosen |
| Allocation.FallbackFirstByName | app.py:428-432 | without an eligible preference, the chosen lab's name sorts first among all eligible labs |
| Allocation.AssignEffect | app.py:400-439 | with no existing reservation: the resolved group is written back; on success, exactly one reservation is appended for this request at its slot, on a free active lab of the group, and the request becomes scheduled; on failure, no reservation is added; no other request changes |
| Allocation.AssignIdempotent | app.py:401-402 | allocating a request that now holds a reservation succeeds again and changes nothing |
| Allocation.AssignKeepsInvariant | app.py:400-439 | allocation keeps every consistency rule of the tables |
| Store.FirstFreeLab | app.py:428-432 | the walk over the name-ordered active labs returns the first one not occupied |
| Store.Database.AssignReservationForRequest | app.py:400-439 | the fields become the allocation result, the returned flag is its success, and the consistency rules survive |
| Batch.Tier | app.py:445 | the first sort key is 0 exactly when the request's key or its teacher's key names a lab (a key of 0 names none), else 1 |
| Batch.PriorityOrder | app.py:443-446 | the order holds exactly the pending and approved requests, tier 0 before tier 1, then by creation time |
| Batch.PriorityOrderIsStable | app.py:444-446 | requests with equal priority and equal creation time stay in table order (the sort is stable) |
| Batch.StepEffect | app.py:448-453 | one turn of the batch loop keeps the invariant and settles its request: it either holds a reservation or is marked "conflict" |
| Batch.AutoScheduleOutcome | app.py:442-456 | afterwards each formerly pending or approved request is either "conflict" or scheduled with a reservation; every other request is unchanged; old reservations are kept |
| Batch.AutoScheduleKeepsInvariant | app.py:442-456 | the batch scheduler keeps every consistency rule |
| Store.Database.RunAutoSchedule | app.py:442-456 | the loop leaves the fields equal to the batch scheduler's result and keeps the consistency rules |
| Batch.BackfillOutcome | app.py:459-473 | `created + conflicted` is the number of scheduled requests that held no reservation; exactly `created` reservations are added; afterwards every scheduled request holds one; the rules hold |
| Store.Database.EnsureReservationsForScheduledRequests | app.py:459-473 | the loop returns the backfill counters and leaves the fields as the backfill pass says |
| Advisor.OccupiedDetailsOf | app.py:476-492 | a row is listed exactly when some reservation at that slot is on a lab of the group, with an existing request and teacher, and the row carries that lab's name, the teacher's name and the class |
| Advisor.OccupiedRowsAreTakenLabs | app.py:476-492 | every occupied row names a lab of the group that allocation counts as taken at that slot |
| Advisor.FreeLabs | app.py:525-532 | the free labs are exactly the active labs of the group not occupied at the slot, in name order |
| Advisor.SuggestionsSound | app.py:515-545 | every suggestion is a slot other than the requested one, within the day window and periods 1..maxPeriod, with at least one free lab, listing the first (at most three) free lab names |
| Advisor.SuggestionsComplete | app.py:515-545 | when fewer than `topK` suggestions come back, every slot in range with a free lab is suggested |
| Advisor.SuggestionsAreTheFirst | app.py:515-545 | when `topK` suggestions come back, every slot in range with a free lab that comes no later in visiting order than the last suggestion is suggested: the search skipped no nearer free slot |
| Advisor.SuggestionsBounded | app.py:540-545 | at most `topK` suggestions, and at most one when `topK` is not positive |
| Advisor.SuggestionsInVisitOrder | app.py:517-521 | suggestions come nearer dates first, the earlier of two equally near dates first, and periods ascending within a date |
| Advisor.NonPositiveTopKStillSuggests | app.py:517-541 | with `topK <= 0` and a window of at least 0 days, the answer is the suggestion for the first period of the requested date other than the requested one (period 1, or 2 when period 1 is the requested one) when that slot has a free lab, and empty otherwise |
| Advisor.FirstSuggestedIsFallback | app.py:428-432 | a suggestion's first lab is the lab allocation would fall back to at that slot |
| Store.Database.SearchFreeSlots | app.py:515-545 | the nested loops return exactly the advisor's suggestions |
| Store.Database.ScanDate | app.py:519-541 | scanning one date's periods appends that date's suggestions, or stops with the final answer once `topK` is reached |
| Store.Database.ExplainConflictAndSuggest | app.py:497-560 | the answer is the advisor's explanation: "not found" for an unknown request, else its slot, resolved group, occupied rows, the fixed reason and the suggestions |
| Text.Strip | app.py:810 | the result is the input with white space cut off both ends, and it starts and ends with a non-space |
| Admin.ManualAssign | app.py:838-874 | each outcome exactly under its condition, checked in the source's order: the request is not found; no lab given; a lab value that is not a number; the lab is missing or inactive; the lab's group differs from the resolved group (the refusal names both groups); the slot is taken (the request's own reservation counts); otherwise assigned. Any refusal leaves the tables unchanged |
| Admin.ManualAssignEffect | app.py:866-870 | on success the request is scheduled and its only reservation is on the chosen lab at its slot; nothing else changes |
| Admin.ManualAssignKeepsInvariant | app.py:838-874 | manual assignment keeps every consistency rule |
| Admin.ManualReassignSameLabRefused | app.py:861-864 | choosing the lab the request already holds is refused as taken |
| Store.Database.ManualAssignLab | app.py:838-874 | the fields and the outcome are those of the manual assignment, and the rules survive |
| Admin.UpdateStatus | app.py:808-831 | "not found" exactly for an unknown request; "invalid" exactly for text that is not one of the four statuses after stripping, and both leave the tables unchanged; for "scheduled", "conflict" exactly when the allocation fails; "updated" in every other case |
| Admin.UpdateToScheduledIsStep | app.py:816-826 | setting "scheduled" does the same as one turn of the batch scheduler |
| Admin.UpdateStatusEffect | app.py:828-831 | any other status is stored as given and the request is left without a reservation; no other request or reservation changes |
| Admin.UpdateStatusKeepsInvariant | app.py:808-831 | a status change keeps every consistency rule |
| Store.Database.UpdateRequestStatus | app.py:808-831 | the fields and outcome are those of the status update, and the rules survive |
| Calendar.MonthRange | app.py:172-175 | a range exists exactly for months 1..12 of years 1..9999 other than December 9999; it starts on the 1st, and its end is the 1st of the next month |
| Calendar.MonthRangeHoldsTheMonth | app.py:172-175 | a valid date lies in [start, end) if and only if it is in that year and month |
| Calendar.MonthRangesAdjacent | app.py:172-175 | one month's range ends where the next month's starts |
| Calendar.WeekDate | app.py:954-976 | a date exists exactly for an open week and a weekday in 0..6 that lands on or before the week's last day; it is the week's start plus the weekday |
| Calendar.OnlyShortWeeksReject | app.py:972-976 | once the weekday is in 0..6, only a week shorter than the weekday rejects the derived date |
| Calendar.WeekDateMonotone | app.py:969-976 | a week that accepts a weekday accepts every earlier one, and earlier weekdays give strictly earlier dates |
| Calendar.WeekdaysCoverTheWeek | app.py:178-179 | every day of an open week within its first seven days is the date of exactly one weekday, its distance from the week's start |
| Submission.FindSameSlotRequest | app.py:1000-1009 | finds the first pending, approved or scheduled request of the teacher at that date and period, and finds none exactly when there is none |
| Submission.GroupFor | app.py:927-998 | refused exactly when a non-zero preferred key names no existing active lab; with a valid one, that lab's group; with none, the stripped group field, or "Tin học" when it is blank |
| Submission.Submit | app.py:927-1021 | a valid form appends one pending request with the teacher, class, slot, the group `GroupFor` gives and the preferred key as given (0 included); an invalid preference and a duplicate live request at that slot are each refused exactly when they occur, in that order; nothing else changes |
| Submission.SubmittedGroupStands | app.py:927-1021 | a request submitted without naming a lab is stored with a non-blank group, and that group is what it resolves to |
| Submission.SubmitLeavesOneLiveRequest | app.py:1000-1021 | afterwards the new request is the teacher's only live request at that slot |
| Submission.SubmitKeepsInvariant | app.py:1011-1021 | a submission keeps every consistency rule |
| Store.Database.NewRequest | app.py:989-1021 | the fields and the error are those of the submission, and the rules survive |

## Left out

- Web layer: HTTP routing, forms, log-in, roles, flash messages and templates are not modelled. The engine's operations take their already-parsed inputs as parameters.
- Parsing: `int()` parsing of form fields is not modelled. A lab field that is blank or not a number becomes the `LabChoice` values `Blank` and `Malformed`.
- Dates: a submitted date's text parsing is not modelled, and neither is the check that the class name and period are present (the class name is taken as already stripped). Dates are given as day numbers.
- Data setup and reports: schema migration, seeding of default labs and users, password generation, week administration, the statistics and the Word report are outside the engine.
- Database sessions: flushes, commits and transaction isolation are not modelled. Each operation is one atomic step on the tables, and concurrent requests are not considered.
- Timestamps: `created_at` is a natural number supplied by the caller. The key of a new request is a parameter, required to be unused (`Submission.Submit`, `Store.Database.NewRequest`), standing for the database's auto-increment.
- Date formatting: dates in the advisor's answer stay day numbers. The ISO and dd/mm/yyyy strings are not produced. Date arithmetic that leaves the calendar's range (before year 1 or after year 9999, as a search around a date near either end would) is not modelled: day numbers are unbounded.
- Lab name ties: labs with equal names come out in table order. SQL leaves their order unspecified.
- Lab capacity and the request's student count are not modelled. The engine never reads them.
- Backfill log line: the log line printed by the backfill pass is not modelled. The counters are returned instead.
- Period range: a request's period is not range-checked, because the source does not check it either.
- Store.Database.ExplainConflictAndSuggest: a missing request is answered with `RequestMissing` rather than the message text.
