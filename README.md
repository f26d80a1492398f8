# PlannerSwift list ordering, modelled in Dafny

PlannerSwift is an iOS day planner with checklists. Every row of every list
(a planner event, a checklist entry) carries a fractional `sortIndex`, and
the lists show their rows in ascending key order. This project models the
rules that produce and maintain those keys, and the small state machines
and label rules around them:

- **Gap keys.** `generateSortIndex` gives a new or moved row a key from its
  neighbours: half the first key, the last key plus 8, or the midpoint of
  two neighbours. No other row is renumbered. There are two revisions
  (`SortIndex`, `SortIndexLegacy`) that differ only on the empty list:
  8 in `utils/lists/generateSortIndex.swift`, 0 in
  `utils/generateSortIndex.swift`. Every handler modelled here uses
  `SortIndex`, the 8 rule. That covers `PlannerDay`,
  `PlannerViewRevision`, `PlannerLegacy`, `ChecklistScreen`,
  `FolderScreen` and the reconciler.
- **Chronological reconciler.** `generateValidPlannerEventSortIndex`
  (`Reconcile`) scans a key-sorted copy of the day in reverse. It returns
  either the event's current key or a gap key that puts timed events in
  time order. Times come from `getPlannerEventTime` (`EventTime`) and are
  compared as strings (`StringExt.IsEarlierOrEqual`).
- **Handlers.** The create, move and title-change handlers of the three
  revisions of the planner day view are modelled:
  - `PlannerDay` for the current revision, with the rules stated once over
    a `Revision`;
  - `PlannerViewRevision` and `PlannerLegacy` for the two earlier ones.

  The checklist screen (`ChecklistScreen`), the folder screen
  (`FolderScreen`) and the checklist form (`ChecklistForm`) are modelled
  too. Each view is a class whose fields are the records it changes; each
  handler is a method proved against a function of the old state.
- **Sortable lists.** The create-index and drag-index arithmetic of the two
  sortable list revisions (`SortableList`, `SortableListLegacy`) and one
  row's check and focus rules (`ItemRow`).
- **Toggle queues.** The selection, completion and deletion queues of the
  two `ListController` revisions (`ListManager`, `ListControllerLegacy`),
  and the flush that the countdown triggers.
- **Calendar store.** The day expansion of all-day calendar events and the
  load gate (`CalendarEventStore`).
- **Pickers, labels and icons.**
  - the planner picker's cover ids, year grouping and week (`PlannerSelect`);
  - the 12-hour time display, the countdown label and the two header lines
    (`DateExt`);
  - the plan-count label (`PlannerCardVertical`);
  - the calendar icon (`CalendarIcon`);
  - the calendar symbol name and the time-in-title recogniser (`StringExt`).

Supporting modules:

- `Items` holds the persisted records as values.
- `CivilDate` holds proleptic Gregorian dates and `yyyy-MM-dd` datestamps.
- `Text` holds decimal rendering and parsing, ASCII case mapping and
  trimming.
- `Wrappers` holds `Option`.

Keys are `real`. Identities (`ObjectIdentifier`, `PersistentIdentifier`)
are strings. Swift's `sorted` is not stable, so `Items.SortByKey` is one
key-sorted permutation, and everything stated about sorted lists holds for
any of them. Where a Swift operation runs after a timer, the model runs its
synchronous step directly.

## Model

| member | source | states |
|---|---|---|
| SortIndex.GenerateSortIndex | Planner/utils/lists/generateSortIndex.swift:8-23 | Defined for any index on an empty list and for non-negative indices otherwise (a negative one traps on `items[index - 1]`); positive keys give a positive key |
| SortIndex.EmptyListKey | Planner/utils/lists/generateSortIndex.swift:12-13 | An empty list yields 8 whatever the index |
| SortIndex.TopHalvesFirstKey | Planner/utils/lists/generateSortIndex.swift:14-15 | Index 0 yields half the first key, strictly between 0 and a positive first key |
| SortIndex.EndIsAboveAll | Planner/utils/lists/generateSortIndex.swift:16-17 | An index at or past the end yields last + 8, above every key of an ascending list |
| SortIndex.InteriorIsMidpoint | Planner/utils/lists/generateSortIndex.swift:18-21 | An interior index yields the midpoint of its neighbours, strictly between them when they differ |
| SortIndex.PlacesAtIndex | Planner/utils/lists/generateSortIndex.swift:8-23 | On an ascending list with distinct neighbours around the target, the key sorts at position min(index, count) |
| SortIndex.AppendedKeysAreMultiplesOfEight | Planner/utils/lists/generateSortIndex.swift:13-17 | Appending repeatedly to an empty list yields 8, 16, 24, ... |
| SortIndex.PositiveKeysNeverTie | Planner/utils/lists/generateSortIndex.swift:14-15 | On positive keys a top insertion is positive and differs from the first key |
| SortIndexLegacy.GenerateSortIndex | Planner/utils/generateSortIndex.swift:8-25 | Agrees with the current revision on every non-empty list |
| SortIndexLegacy.DiffersOnlyOnEmpty | Planner/utils/generateSortIndex.swift:11-22 | The two revisions agree exactly when the list is non-empty; the empty list yields 0 |
| SortIndexLegacy.AppendedKeysStartAtZero | Planner/utils/generateSortIndex.swift:12-16 | Appending repeatedly to an empty list yields 0, 8, 16, ... |
| SortIndexLegacy.TopInsertAfterEmptyDefaultTies | Planner/utils/generateSortIndex.swift:12-14 | After the first append (key 0), a top insertion also gets 0 and ties with it |
| EventTime.GetPlannerEventTime | Planner/utils/planners/getPlannerEventTime.swift:9-17 | A time exists exactly when the event and its time configuration do; the end record of a multi-day event uses the end, every other event its start |
| EventTime.TimeIgnoresOtherFields | Planner/utils/planners/getPlannerEventTime.swift:9-17 | Title, check mark, key and day never change an event's time |
| EventTime.StartRecordUsesStart | Planner/utils/planners/getPlannerEventTime.swift:13-17 | The start record of a multi-day event is ordered by its start |
| Reconcile.GenerateValidPlannerEventSortIndex | Planner/utils/planners/generateValidPlannerEventSortIndex.swift:8-51 | The loop with its two flags returns the reconciled key against a key-sorted copy; the input is not changed |
| Reconcile.EarliestKey | Planner/utils/planners/generateValidPlannerEventSortIndex.swift:50 | Half the smallest key, or 4 for an empty day |
| Reconcile.ReconcileMatchesRef | Planner/utils/planners/generateValidPlannerEventSortIndex.swift:24-50 | The reverse scan equals a case-by-case description of the result |
| Reconcile.HigherEarlierPlacement | Planner/utils/planners/generateValidPlannerEventSortIndex.swift:29-38 | The highest-keyed timed event above that is not later decides the placement: just after it |
| Reconcile.AfterTakesGapKey | Planner/utils/planners/generateValidPlannerEventSortIndex.swift:35-38 | Placed after row h, the event takes the gap key for row h + 1, strictly between the keys of rows h and h + 1 |
| Reconcile.MoveDownPlacement | Planner/utils/planners/generateValidPlannerEventSortIndex.swift:33-46 | With the nearest timed event below later, the placement is after the nearest event below that is not later, or the top |
| Reconcile.NoTimeKeepsKey | Planner/utils/planners/generateValidPlannerEventSortIndex.swift:15-17 | An event without a time keeps its key |
| Reconcile.UntimedRecordIsIgnored | Planner/utils/planners/generateValidPlannerEventSortIndex.swift:25-27 | Replacing an untimed record with any other untimed record of the same key changes nothing |
| Reconcile.HigherEarlierPlacesAfterIt | Planner/utils/planners/generateValidPlannerEventSortIndex.swift:29-38 | When a higher-keyed timed event is not later, the event takes the gap key just after the highest such event, strictly between it and the next key |
| Reconcile.KeepWhenConsistent | Planner/utils/planners/generateValidPlannerEventSortIndex.swift:39-41 | With nothing above not later and the nearest timed event below not later, the key is kept |
| Reconcile.MoveDownWhenLowerIsLater | Planner/utils/planners/generateValidPlannerEventSortIndex.swift:33-46 | When the nearest timed event below is later, the event goes just after the nearest one below that is not later, or to the top |
| Reconcile.NoEarlierMovesToTop | Planner/utils/planners/generateValidPlannerEventSortIndex.swift:49-50 | With no other timed event not later, the result is half the smallest key |
| Reconcile.LoneTimedEventGoesToTop | Planner/utils/planners/generateValidPlannerEventSortIndex.swift:49-50 | The only timed event of a day goes to the top |
| Reconcile.RepeatedCallsKeepHalving | Planner/utils/planners/generateValidPlannerEventSortIndex.swift:49-50 | An event already first with nothing earlier is halved on every call and never settles |
| Reconcile.CallMovesBetweenMeals | Planner/utils/planners/generateValidPlannerEventSortIndex.swift:24-46 | Keys 8/09:00, 16/13:00, 24/11:00: the third moves to 12 and then keeps 12 |
| StringExt.IsEarlierOrEqualIsLexicographic | Planner/Extensions/String.swift:59-61 | String `<=` is exactly lexicographic order |
| StringExt.IsEarlierOrEqualReflexive | Planner/Extensions/String.swift:59-61 | The order is reflexive |
| StringExt.IsEarlierOrEqualTotal | Planner/Extensions/String.swift:59-61 | The order is total |
| StringExt.IsEarlierOrEqualTransitive | Planner/Extensions/String.swift:59-61 | The order is transitive |
| StringExt.IsEarlierOrEqualAntisymmetric | Planner/Extensions/String.swift:59-61 | The order is antisymmetric |
| StringExt.ToCalendarSymbolName | Planner/Extensions/String.swift:14-23 | The symbol is "note" exactly when the last two characters do not parse as a day 1-31; otherwise it is those characters followed by ".calendar" |
| StringExt.CalendarSymbolOfDatestamp | Planner/Extensions/String.swift:14-23 | Every datestamp with a day 1-31 names that day's symbol |
| StringExt.CalendarSymbolOfDayZero | Planner/Extensions/String.swift:17-20 | A day field "00" gives "note" |
| StringExt.RemoveAbsent | Planner/Extensions/String.swift:94 | Removing text that does not occur changes nothing |
| StringExt.RemoveFirstOccurrence | Planner/Extensions/String.swift:94 | Removal keeps the text before the first occurrence and continues after it |
| StringExt.MatchAt | Planner/Extensions/String.swift:68 | A match is white space, hour 1-12, optional two-digit minutes below 60, optional space, a period, then a word boundary |
| StringExt.FirstMatch | Planner/Extensions/String.swift:75 | The match with the smallest start, none earlier |
| StringExt.To24Hour | Planner/Extensions/String.swift:88-93 | The 24-hour hour is below 12 exactly for AM and agrees with the 12-hour one modulo 12 |
| StringExt.SeparateTimeValue | Planner/Extensions/String.swift:64-96 | None exactly when the pattern matches nowhere; otherwise an "HH:mm" time and a strictly shorter text |
| StringExt.SeparateUsesFirstMatch | Planner/Extensions/String.swift:75-94 | The first match decides: its hour, its minutes or "00", its upper-cased period; the text before it is kept |
| StringExt.SeparateWholeTail | Planner/Extensions/String.swift:78-94 | A time ending the title leaves the words before it |
| StringExt.LowerCasePeriodIsUpperCased | Planner/Extensions/String.swift:85-86 | "pm" reads as "PM" and "am" as "AM" |
| StringExt.NapMatch | Planner/Extensions/String.swift:68-87 | "Nap 1:15 pm" matches at its space with hour 1, minutes 15, 13 o'clock |
| StringExt.GymMatch | Planner/Extensions/String.swift:68-84 | "Gym 9am" matches with hour 9 and no minutes, giving "09" |
| StringExt.SeparateExampleWordBoundary | Planner/Extensions/String.swift:68 | "Call 9 amy" holds no time |
| StringExt.SortStrings | Planner/tabs/Planner/PlannerSelect.swift:99 | `sorted()` is ascending and a permutation |
| StringExt.SortedFromSet | Planner/tabs/Planner/PlannerSelect.swift:115 | The members of a set, strictly ascending, each once |
| DateExt.Hour12 | Planner/Extensions/Date.swift:81 | The 12-hour hour is in 1-12 and agrees with the hour modulo 12 |
| DateExt.TimeValues | Planner/Extensions/Date.swift:69-89 | The indicator is "AM" exactly before noon, else "PM" |
| DateExt.TimeValueShape | Planner/Extensions/Date.swift:82-83 | The time is the unpadded 12-hour hour, a colon and two minute digits |
| DateExt.TimeValuesRoundTrip | Planner/Extensions/Date.swift:69-89 | Reading the shown time back through the 12-to-24-hour conversion gives the hour and minute |
| DateExt.MorningExample | Planner/Extensions/Date.swift:81-88 | 09:05 shows as "9:05" "AM" |
| DateExt.EveningExample | Planner/Extensions/Date.swift:81-88 | 23:30 shows as "11:30" "PM" |
| DateExt.DaysUntilLabels | Planner/Extensions/Date.swift:101-112 | For day numbers today and target, the label names the distance and the direction |
| DateExt.DaysUntil | Planner/Extensions/Date.swift:97-102 | The label is empty exactly when there is no day difference, and "Today" exactly when the difference is 0 |
| DateExt.DaysUntilDistinguishesDistances | Planner/Extensions/Date.swift:104-112 | Different distances in one direction get different labels |
| DateExt.Header | Planner/Extensions/Date.swift:15-37 | The weekday exactly within 0-6 days ahead; the year only outside the current year |
| DateExt.SubHeader | Planner/Extensions/Date.swift:41-62 | The weekday exactly outside 0-6 days ahead; the year only outside the current year |
| DateExt.HeadersComplementary | Planner/Extensions/Date.swift:15-62 | Exactly one of the two lines is the weekday, the other the date |
| CivilDate.Datestamp | Planner/Extensions/Date.swift:64-67 | `yyyy-MM-dd`: ten characters, digits and two dashes |
| CivilDate.DatestampOrder | Planner/tabs/Planner/PlannerDay.swift:88 | Datestamps compare as strings as their days compare in time |
| CivilDate.DatestampInjective | Planner/Extensions/Date.swift:64-67 | Different days have different datestamps |
| CivilDate.DatestampStrictOrder | Planner/tabs/Planner/PlannerDay.swift:88 | A strictly earlier day has a strictly smaller datestamp |
| CivilDate.DatestampRunAscending | Planner/globalState/CalendarEventStore.swift:126-129 | Datestamps of consecutive days run strictly ascending |
| CivilDate.ParseDatestampRoundTrip | Planner/tabs/Planner/PlannerSelect.swift:81 | Reading a datestamp gives back its day |
| CivilDate.ParseDatestampExact | Planner/tabs/Planner/PlannerSelect.swift:81 | A string that reads as a day is that day's datestamp |
| CivilDate.NextDay | Planner/globalState/CalendarEventStore.swift:128 | The next day is a valid, later date |
| CivilDate.NextDayNumber | Planner/globalState/CalendarEventStore.swift:128 | Consecutive days have consecutive day numbers |
| CivilDate.DayNumberOrder | Planner/globalState/CalendarEventStore.swift:126 | Day numbers order dates chronologically, and equal numbers mean equal dates |
| CivilDate.AddDays | Planner/tabs/Planner/PlannerSelect.swift:107-110 | Adding n days moves the day number by n |
| CivilDate.AddYears | Planner/tabs/Planner/PlannerSelect.swift:68 | Same month and day k years on, 29 February clamped to the 28th |
| Text.IntToStringRoundTrip | Planner/Extensions/Date.swift:107 | Parsing a rendered integer gives it back |
| Text.IntToStringInjective | Planner/Extensions/Date.swift:107 | Distinct integers render differently |
| Text.TrimmedEmptyIffBlank | Planner/views/SortableList/microViews/Item.swift:210-214 | Trimming leaves nothing exactly when the text is all white space |
| Text.TrimmedIsCore | Planner/views/SortableList/microViews/Item.swift:210-212 | A trimmed text is a slice of the original with no white space at either end |
| Text.TrimmedIdempotent | Planner/views/SortableList/microViews/Item.swift:210-212 | Trimming twice is trimming once |
| SortableList.FirstIndex | Planner/views/SortableList/SortableList.swift:162-168 | The first index with the base id, present exactly when some row has it |
| SortableList.CreateIndex | Planner/views/SortableList/SortableList.swift:158-184 | Nothing for an unknown base row; otherwise base + offset, refused exactly when a neighbour is untitled |
| SortableList.TriggersInertOnEmptyList | Planner/views/SortableList/SortableList.swift:49-54 | Both create triggers do nothing on an empty list |
| SortableList.TopTriggerCreatesFirst | Planner/views/SortableList/SortableList.swift:49-54 | The top trigger creates at 0 unless the first row is untitled |
| SortableList.BottomTriggerCreatesLast | Planner/views/SortableList/SortableList.swift:201-204 | The bottom trigger creates at count unless the last row is untitled |
| SortableList.MoveTargetInRange | Planner/views/SortableList/SortableList.swift:191-195 | A destination in [0, count] gives a target in [0, count - 1] |
| SortableList.DropBelowSelfIsNoOp | Planner/views/SortableList/SortableList.swift:193-195 | A destination of source + 1 gives the source itself |
| SortableList.MoveTargetRealisesDrag | Planner/views/SortableList/SortableList.swift:190-197 | Taking the row out and reinserting it at the target is exactly the drag the user made |
| SortableList.HandleMoveUncheckedItem | Planner/views/SortableList/SortableList.swift:186-199 | One (source, target) request per dragged row, in order |
| SortableListLegacy.MissingOffsetIsZero | Planner/views/SortableListView/SortableListView.swift:142 | A missing offset creates at the base row's own index |
| SortableListLegacy.BottomTriggerCreatesLast | Planner/views/SortableListView/SortableListView.swift:182-185 | The bottom trigger creates after the last unchecked row unless it is untitled; nothing on an empty list |
| SortableListLegacy.HandleMoveUncheckedItem | Planner/views/SortableListView/SortableListView.swift:158-168 | One (source, target) request per dragged row, in order |
| SortableListLegacy.HandleMoveCheckedItem | Planner/views/SortableListView/SortableListView.swift:170-180 | The same adjustment for the checked section |
| ItemRow.FocusController.constructor | Planner/views/SortableList/SortableList.swift:11-13 | The shared focus starts empty |
| ItemRow.Row.constructor | Planner/views/SortableList/microViews/Item.swift:11-34 | A row starts unfocused, not deleted, with no reported title changes |
| ItemRow.IsChecked | Planner/views/SortableList/microViews/Item.swift:36-45 | Staging: membership in the selection; otherwise a pending uncheck, then a pending check, then the stored flag |
| ItemRow.UncheckWinsOverCheck | Planner/views/SortableList/microViews/Item.swift:41-42 | A pending uncheck wins over a pending check |
| ItemRow.Commit | Planner/views/SortableList/microViews/Item.swift:210-219 | Deletion exactly for a blank title; otherwise the trimmed, non-empty title |
| ItemRow.CommitIsStable | Planner/views/SortableList/microViews/Item.swift:210-219 | A committed title commits to itself |
| ItemRow.ReturnRequestsRowBelow | Planner/views/SortableList/microViews/Item.swift:182-183 | Return on a titled row requests the index just below it, unless that row is untitled |
| ItemRow.Row.SetFocused | Planner/views/SortableList/microViews/Item.swift:203-221 | Setting the same value changes nothing; gaining focus claims the shared focus and keeps the rest; losing it deletes a blank row or stores and reports the trimmed title, and keeps the rest |
| ItemRow.Row.Appear | Planner/views/SortableList/microViews/Item.swift:55-59 | A new untitled, unfocused row takes the focus and keeps its title, deletion state and reported titles; any other row is unchanged |
| ItemRow.Row.FocusedIdChanged | Planner/views/SortableList/microViews/Item.swift:61-67 | Another row taking the focus blurs a focused row, which is deleted when blank or else stores and reports its trimmed title, the rest kept; otherwise nothing changes |
| ItemRow.Row.CheckedChanged | Planner/views/SortableList/microViews/Item.swift:69-73 | A focused row becoming checked is blurred and deleted when blank, or else stores and reports its trimmed title, the rest kept; otherwise nothing changes |
| ItemRow.Row.TapTitle | Planner/views/SortableList/microViews/Item.swift:168-172 | A tap focuses an unchecked row, claiming the shared focus if it lacked it, and keeps its title, deletion state and reported titles; a checked row is unchanged |
| ItemRow.Row.Return | Planner/views/SortableList/microViews/Item.swift:181-187 | A titled row requests offset 1 and changes nothing. An untitled one clears the shared focus; if it was focused while some row held the shared focus, it is deleted and keeps the rest, otherwise it is unchanged |
| ListManager.Toggle | Planner/globalState/ListManager.swift:49-57 | Flips the id's membership; removes its records or appends the item; other ids stay |
| ListManager.ToggleKeepsQueueConsistent | Planner/globalState/ListManager.swift:49-81 | The id set and the array keep agreeing, with no repeated id |
| ListManager.ToggleTwiceRestores | Planner/globalState/ListManager.swift:50-56 | Toggling an unqueued item twice restores the array and the set |
| ListManager.ToggleTwiceRequeuesAtEnd | Planner/globalState/ListManager.swift:50-56 | Toggling a queued item twice moves it to the end of the array |
| ListManager.MarkComplete | Planner/globalState/ListManager.swift:105-113 | Every queued completion is complete; every other entry stays |
| ListManager.DeleteAll | Planner/globalState/ListManager.swift:98-102 | The loop deletes every queued record, in queue order, after the earlier deletions |
| ListManager.CompleteAll | Planner/globalState/ListManager.swift:109-113 | The loop marks every queued completion complete, as `MarkComplete` describes |
| ListManager.ListController.constructor | Planner/globalState/ListManager.swift:15-30 | All three queues and id sets start empty, with no fade trigger and no countdown |
| ListManager.ListController.StartCountdown | Planner/globalState/ListManager.swift:85-92 | Arms the countdown with a fresh fade trigger; the queues stay |
| ListManager.ListController.ToggleSelect | Planner/globalState/ListManager.swift:49-57 | Toggles the selection; no countdown, no fade |
| ListManager.ListController.ToggleComplete | Planner/globalState/ListManager.swift:59-69 | Toggles the completing queue and arms the countdown |
| ListManager.ListController.ToggleDelete | Planner/globalState/ListManager.swift:71-83 | Toggles the deleting queue, sets `isComplete` to whether it was queued, arms the countdown |
| ListManager.ListController.ToggleItem | Planner/globalState/ListManager.swift:35-47 | Each toggle type gives exactly the new state of its own toggle: which queue flips, the other queues kept, isComplete kept or set, the countdown armed or not |
| ListManager.ListController.Flush | Planner/globalState/ListManager.swift:93-113 | Empties both queues and id sets, deletes the queued deletions, completes the queued completions |
| ListControllerLegacy.ToggleIn | Planner/ListController.swift:27-31 | Removes every record with the id, keeping the others in order, when the id is queued; otherwise appends the item last. Ids stay unique |
| ListControllerLegacy.CompleteStepKeepsSeparate | Planner/ListController.swift:21-34 | Completing flips membership in the completion queue, drops the item from the deletion queue, keeps the queues separate |
| ListControllerLegacy.DeleteStepKeepsSeparate | Planner/ListController.swift:36-49 | Deleting is the mirror image of completing |
| ListControllerLegacy.CompleteTwiceDropsDeletion | Planner/ListController.swift:21-31 | Completing a queued deletion moves it; completing again does not restore the deletion |
| ListControllerLegacy.ListController.constructor | Planner/ListController.swift:12-16 | Both queues start empty, with no countdown |
| ListControllerLegacy.ListController.ToggleComplete | Planner/ListController.swift:21-34 | The queues become the completion step of the old queues; the countdown is armed |
| ListControllerLegacy.ListController.ToggleDelete | Planner/ListController.swift:36-49 | The queues become the deletion step of the old queues; the countdown is armed |
| ListControllerLegacy.ListController.PerformTask | Planner/ListController.swift:62-79 | Empties both queues, deletes the queued deletions, completes the queued completions |
| CalendarEventStore.ExpandedDatestamps | Planner/globalState/CalendarEventStore.swift:118-132 | The loop lists the datestamps of the start day through the day of end - 1 s |
| CalendarEventStore.ExpandedAt | Planner/globalState/CalendarEventStore.swift:123-129 | The i-th datestamp is that of the i-th day after the start |
| CalendarEventStore.ExpandedAscending | Planner/globalState/CalendarEventStore.swift:123-129 | The expansion is strictly ascending, so no datestamp repeats |
| CalendarEventStore.ExpandedCovers | Planner/globalState/CalendarEventStore.swift:123-129 | A day is listed exactly when it lies between the start day and the day of end - 1 s |
| CalendarEventStore.MidnightEndExcludesEndDay | Planner/globalState/CalendarEventStore.swift:124 | An event ending at midnight does not cover the day that midnight begins |
| CalendarEventStore.ExpandedEmpty | Planner/globalState/CalendarEventStore.swift:126 | The expansion is empty exactly when the day of end - 1 s is before the start day |
| CalendarEventStore.ExpandedDistinct | Planner/globalState/CalendarEventStore.swift:126-129 | No datestamp is listed twice for one event |
| CalendarEventStore.AllDayOnly | Planner/globalState/CalendarEventStore.swift:100-102 | Exactly the fetched all-day events are kept (order and multiplicity: `AllDayOnlyAppend`, `AllDayOnlySingle`) |
| CalendarEventStore.AllDayOnlyAppend | Planner/globalState/CalendarEventStore.swift:100-102 | Filtering a concatenation filters each part and concatenates the results, so the kept events keep their fetch order |
| CalendarEventStore.AllDayOnlySingle | Planner/globalState/CalendarEventStore.swift:100-102 | A single event is kept exactly when it is all-day; with `AllDayOnlyAppend` this fixes the result as the order-keeping filter |
| CalendarEventStore.GroupedIsCovering | Planner/globalState/CalendarEventStore.swift:104-110 | Each datestamp maps to the all-day events covering it, once each, in fetch order |
| CalendarEventStore.GroupByDatestamp | Planner/globalState/CalendarEventStore.swift:104-110 | The nested loops build exactly the grouping whose contents `GroupedIsCovering` describes |
| CalendarEventStore.FileUnder | Planner/globalState/CalendarEventStore.swift:106-108 | The inner loop appends the event to the list of each of its datestamps, creating missing lists |
| CalendarEventStore.CalendarsById | Planner/globalState/CalendarEventStore.swift:77-83 | Every calendar is found under its identifier, and only calendars are |
| CalendarEventStore.Store.constructor | Planner/globalState/CalendarEventStore.swift:14-30 | The store starts unloaded with both maps empty and no access request |
| CalendarEventStore.Store.LoadAllDayEvents | Planner/globalState/CalendarEventStore.swift:87-113 | The map is replaced by the grouping of the fetched all-day events |
| CalendarEventStore.Store.Load | Planner/globalState/CalendarEventStore.swift:68-73 | Marks the store loaded and replaces both maps |
| CalendarEventStore.Store.RequestAccessAndLoadIfNeeded | Planner/globalState/CalendarEventStore.swift:38-49 | Nothing once loaded; authorized loads, not determined asks for access, anything else does nothing |
| CalendarEventStore.Store.AccessAnswered | Planner/globalState/CalendarEventStore.swift:57-64 | Loads only when access was granted |
| CalendarEventStore.Store.Refresh | Planner/globalState/CalendarEventStore.swift:51-53 | Always loads |
| PlannerSelect.CoverId | Planner/tabs/Planner/PlannerSelect.swift:18-25 | "CALENDAR" for the calendar, otherwise the datestamp followed by a suffix |
| PlannerSelect.CoverDatestamp | Planner/tabs/Planner/PlannerSelect.swift:27-34 | Every cover, the calendar's included, carries the datestamp its card opens |
| PlannerSelect.CoverIdsIdentifyCards | Planner/tabs/Planner/PlannerSelect.swift:18-25 | Card covers share an id only when equal, and never share the calendar's |
| PlannerSelect.KeptDate | Planner/tabs/Planner/PlannerSelect.swift:78-87 | A datestamp is kept exactly when it and today parse and its day is strictly between today and three years on |
| PlannerSelect.EventsByYearLists | Planner/tabs/Planner/PlannerSelect.swift:65-101 | A datestamp is listed under a year exactly when it is a key of either map, is kept, and falls in that year |
| PlannerSelect.EventsByYearChronological | Planner/tabs/Planner/PlannerSelect.swift:93-100 | Each year's list is strictly ascending, in the days' order |
| PlannerSelect.WindowSpansThreeYears | Planner/tabs/Planner/PlannerSelect.swift:68 | The day two years on is listed: the window is three years despite the name `oneYearOut` |
| PlannerSelect.SortedYears | Planner/tabs/Planner/PlannerSelect.swift:114-116 | The years of the grouping, strictly ascending |
| PlannerSelect.EventDatestamps | Planner/tabs/Planner/PlannerSelect.swift:103-112 | Seven datestamps |
| PlannerSelect.WeekIsConsecutive | Planner/tabs/Planner/PlannerSelect.swift:103-112 | The i-th datestamp is that of today + i days, each before the next |
| PlannerDay.PlannerTypeIsChronological | Planner/tabs/Planner/PlannerDay.swift:87-89 | A planner is past or present exactly when its day is not after today |
| PlannerDay.TodayPresentTomorrowFuture | Planner/tabs/Planner/PlannerDay.swift:87-89 | Today is past or present, tomorrow is in the future |
| PlannerDay.CheckedSectionByDay | Planner/tabs/Planner/PlannerDay.swift:87-97 | A day after today lists its checked events exactly while deleted plans are shown; today and earlier days exactly while completed plans are shown |
| PlannerDay.ToggleVisibility | Planner/tabs/Planner/PlannerDay.swift:162-168 | The menu button flips whether this day shows its checked events and leaves the other type of day as it was |
| PlannerDay.ToggleVisibilityTwice | Planner/tabs/Planner/PlannerDay.swift:162-168 | Pressing the button twice restores both stored settings |
| PlannerDay.PartitionsEvents | Planner/tabs/Planner/PlannerDay.swift:99-113 | The two lists split the events by check mark, each ascending by key, together holding every event |
| PlannerDay.UncheckedEvents | Planner/tabs/Planner/PlannerDay.swift:99-105 | Empty without a planner |
| PlannerDay.CheckedEvents | Planner/tabs/Planner/PlannerDay.swift:107-113 | Empty without a planner |
| PlannerDay.NewEventJoinsDay | Planner/tabs/Planner/PlannerDay.swift:279-285 | A created unchecked event joins the unchecked list; the checked list stays |
| PlannerDay.MoveUncheckedEvent | Planner/tabs/Planner/PlannerDay.swift:287-315 | The two-step move returns the moved records |
| PlannerDay.MoveWritesOneKey | Planner/tabs/Planner/PlannerDay.swift:287-315 | A move writes the settled key of the moved event and changes nothing else |
| PlannerDay.UntimedMoveLandsAtTarget | Planner/tabs/Planner/PlannerDay.swift:291-299 | An untimed event keeps its gap key, which sorts it at the target among the others |
| PlannerDay.GapKeyLandsAtTarget | Planner/tabs/Planner/PlannerDay.swift:291-298 | On positive, distinct keys, the gap key sorts the moved event at the target among the others, or after them all |
| PlannerDay.Retimed | Planner/tabs/Planner/PlannerDay.swift:318-346 | Present exactly when there is a datestamp, no time yet, a time in the title and a built configuration |
| PlannerDay.RetimedEventHasTime | Planner/tabs/Planner/PlannerDay.swift:345-346 | A retimed event keeps id, check mark and key, takes the stripped title and has the built time |
| PlannerDay.EventTitleChange | Planner/tabs/Planner/PlannerDay.swift:317-363 | The handler's steps return the title-changed records |
| PlannerDay.UnchangedWhenGuarded | Planner/tabs/Planner/PlannerDay.swift:318-343 | When a guard returns early, nothing changes |
| PlannerDay.ChangedWhenRetimed | Planner/tabs/Planner/PlannerDay.swift:345-362 | Otherwise the retimed event is stored, then its reconciled key |
| PlannerDay.TitleChangeWritesOneEvent | Planner/tabs/Planner/PlannerDay.swift:317-363 | Only the edited event changes, and it ends up timed |
| PlannerDay.NewEvent | Planner/tabs/Planner/PlannerDay.swift:282 | A new event is untitled, unchecked and untimed |
| PlannerDay.PlannerDayView.constructor | Planner/tabs/Planner/PlannerDay.swift:116-125 | The view holds its datestamp and planner, whose events have distinct ids |
| PlannerDay.PlannerDayView.HandleCreateEvent | Planner/tabs/Planner/PlannerDay.swift:279-285 | Nothing without a planner; otherwise a new event with the gap key at the index |
| PlannerDay.PlannerDayView.Add | Planner/tabs/Planner/PlannerDay.swift:189-197 | Nothing without a planner or when the last unchecked event is untitled; otherwise a new event with the gap key after all unchecked events |
| PlannerDay.PlannerDayView.HandleMoveUncheckedEvent | Planner/tabs/Planner/PlannerDay.swift:287-315 | The planner's events become the moved records |
| PlannerDay.PlannerDayView.HandleEventTitleChange | Planner/tabs/Planner/PlannerDay.swift:317-363 | The planner's events become the title-changed records |
| PlannerDay.OnDay | Planner/tabs/Planner/PlannerView.swift:88-99 | Exactly the events whose datestamp is the view's |
| PlannerDay.DayQueriesPartition | Planner/tabs/Planner/PlannerView.swift:88-99 | The two queries split the events of the view's day by check mark and hold nothing else |
| PlannerViewRevision.PlannerView.constructor | Planner/tabs/Planner/PlannerView.swift:85-100 | The view holds its datestamp and the stored events, with distinct ids |
| PlannerViewRevision.PlannerView.HandleCreateEvent | Planner/tabs/Planner/PlannerView.swift:235-240 | Appends a new event on the view's day with the gap key at the index |
| PlannerViewRevision.PlannerView.Add | Planner/tabs/Planner/PlannerView.swift:184-192 | Nothing when the last unchecked event is untitled; otherwise a create at the end |
| PlannerViewRevision.PlannerView.HandleMoveUncheckedEvent | Planner/tabs/Planner/PlannerView.swift:242-270 | The stored events become the moved records |
| PlannerViewRevision.PlannerView.HandleEventTitleChange | Planner/tabs/Planner/PlannerView.swift:272-316 | The stored events become the title-changed records |
| PlannerLegacy.PlannerView.constructor | Planner/tabs/Planner/Planner.swift:91-106 | The view holds its datestamp and the stored events, with distinct ids |
| PlannerLegacy.PlannerView.HandleCreateEvent | Planner/tabs/Planner/Planner.swift:215-220 | Appends a new event on the view's day with the gap key at the index |
| PlannerLegacy.PlannerView.Add | Planner/tabs/Planner/Planner.swift:162-170 | Nothing when the last unchecked event is untitled; otherwise a create at the end |
| PlannerLegacy.PlannerView.HandleMoveUncheckedEvent | Planner/tabs/Planner/Planner.swift:222-250 | The stored events become the moved records |
| PlannerLegacy.PlannerView.HandleEventTitleChange | Planner/tabs/Planner/Planner.swift:252-296 | The stored events become the title-changed records |
| Items.NewPlannerEvent | Planner/dataModels/PlannerEvent.swift:58-61 | Untitled, unchecked, untimed, on the given day with the given key |
| Items.NewChecklistItem | Planner/dataModels/ChecklistItem.swift:77-86 | Unchecked, with the given kind, title, colour, key and parent |
| Items.SortByKey | Planner/tabs/Planner/PlannerDay.swift:103 | Ascending by key and a permutation |
| Items.WithChecked | Planner/tabs/Planner/PlannerDay.swift:101-102 | Exactly the records with that check mark |
| Items.WithoutId | Planner/tabs/Planner/PlannerDay.swift:292-294 | Exactly the records with another id are kept (order and multiplicity: `WithoutIdAppend`, `WithoutIdSingle`) |
| Items.WithoutIdAppend | Planner/tabs/Planner/PlannerDay.swift:292-294 | Filtering a concatenation filters each part and concatenates the results, so the kept records keep their order |
| Items.WithoutIdSingle | Planner/tabs/Planner/PlannerDay.swift:292-294 | A single record is kept exactly when its id differs; with `WithoutIdAppend` this fixes the result as the order-keeping filter |
| Items.WithCheckedPartition | Planner/tabs/Planner/PlannerDay.swift:99-113 | The unchecked and checked records together are the list |
| ChecklistScreen.SortedUnchecked | Planner/tabs/Checklists/Checklist.swift:27-31 | Ascending by key; exactly the unchecked items |
| ChecklistScreen.SortedChecked | Planner/tabs/Checklists/Checklist.swift:21-25 | Ascending by key; exactly the checked items |
| ChecklistScreen.PartitionsItems | Planner/tabs/Checklists/Checklist.swift:21-31 | The two lists hold every item exactly once between them |
| ChecklistScreen.CreatedItemJoinsUnchecked | Planner/tabs/Checklists/Checklist.swift:80-88 | A created item joins the unchecked list; the checked list stays |
| ChecklistScreen.AddGoesLast | Planner/tabs/Checklists/Checklist.swift:71-72 | "Add" creates at the unchecked count: key 8 on an empty list, above every unchecked key otherwise |
| ChecklistScreen.MoveWritesOneKey | Planner/tabs/Checklists/Checklist.swift:90-103 | A move writes the moved item's gap key and nothing else |
| ChecklistScreen.MoveKeepsChecked | Planner/tabs/Checklists/Checklist.swift:90-103 | A move leaves the checked list as it was |
| ChecklistScreen.MoveLandsAtTarget | Planner/tabs/Checklists/Checklist.swift:93-100 | On positive distinct keys the moved item sorts at its target among the others |
| ChecklistScreen.ChecklistView.constructor | Planner/tabs/Checklists/Checklist.swift:12-19 | The view holds the checklist and its entries, each with the checklist as parent |
| ChecklistScreen.ChecklistView.HandleCreateEvent | Planner/tabs/Checklists/Checklist.swift:80-88 | Appends an entry with the gap key at the index and the checklist as parent |
| ChecklistScreen.ChecklistView.Add | Planner/tabs/Checklists/Checklist.swift:71-72 | Creates at the unchecked count |
| ChecklistScreen.ChecklistView.HandleMoveItem | Planner/tabs/Checklists/Checklist.swift:90-103 | Nothing when from == to; otherwise the moved item takes its gap key |
| FolderScreen.SortedItems | Planner/tabs/Checklists/FolderView.swift:35-37 | The children ascending by key, a permutation |
| FolderScreen.TargetIsSourceExactly | Planner/tabs/Checklists/FolderView.swift:140-145 | A step is skipped exactly when the destination is the source or just below it |
| FolderScreen.MovedItems | Planner/tabs/Checklists/FolderView.swift:138-150 | The steps keep every record in place with its id |
| FolderScreen.MoveOnlyRewritesKeys | Planner/tabs/Checklists/FolderView.swift:138-150 | A drag changes only keys |
| FolderScreen.MoveStepWritesOneKey | Planner/tabs/Checklists/FolderView.swift:145-149 | A skipped step changes nothing; another writes the moved row's key alone |
| FolderScreen.MoveStepLandsAtTarget | Planner/tabs/Checklists/FolderView.swift:147-149 | On positive distinct keys a dragged row sorts at its target among the others |
| FolderScreen.FolderView.constructor | Planner/tabs/Checklists/FolderView.swift:24-37 | The view holds the folder's children, with distinct ids |
| FolderScreen.FolderView.HandleMoveItem | Planner/tabs/Checklists/FolderView.swift:138-153 | The loop leaves the children as the steps over all sources make them |
| FolderScreen.FolderView.MoveSource | Planner/tabs/Checklists/FolderView.swift:139-150 | One pass of the loop is one step |
| ChecklistForm.InitialDraft | Planner/tabs/Checklists/forms/ChecklistItemForm.swift:20-40 | The edited entry's fields, or a red, untitled checklist |
| ChecklistForm.ChildrenOf | Planner/dataModels/ChecklistItem.swift:71-85 | Exactly the entries whose parent is the given one |
| ChecklistForm.AppendKey | Planner/tabs/Checklists/forms/ChecklistItemForm.swift:105-106 | 8 without a parent or children; otherwise 8 above the highest sibling key |
| ChecklistForm.AppendKeyIsAboveSiblings | Planner/tabs/Checklists/forms/ChecklistItemForm.swift:105-106 | The new key is strictly above every sibling key |
| ChecklistForm.AppendedSortsLast | Planner/tabs/Checklists/forms/ChecklistItemForm.swift:105-115 | The created entry sorts last among its siblings |
| ChecklistForm.Edited | Planner/tabs/Checklists/forms/ChecklistItemForm.swift:97-102 | Title, colour and kind from the draft; id, check mark, key and parent kept |
| ChecklistForm.ReopenShowsSubmittedDraft | Planner/tabs/Checklists/forms/ChecklistItemForm.swift:20-32 | Reopening the form on the edited entry shows the submitted draft |
| ChecklistForm.UntouchedEditChangesNothing | Planner/tabs/Checklists/forms/ChecklistItemForm.swift:97-102 | Submitting an untouched draft changes nothing |
| ChecklistForm.ChecklistItemFormView.constructor | Planner/tabs/Checklists/forms/ChecklistItemForm.swift:20-40 | The draft starts from the edited entry, or red, untitled and a checklist |
| ChecklistForm.ChecklistItemFormView.SetTitle | Planner/tabs/Checklists/forms/ChecklistItemForm.swift:46 | Only the draft's title changes |
| ChecklistForm.ChecklistItemFormView.PickColor | Planner/tabs/Checklists/forms/ChecklistItemForm.swift:77-79 | Only the draft's colour changes |
| ChecklistForm.ChecklistItemFormView.PickType | Planner/tabs/Checklists/forms/ChecklistItemForm.swift:51-57 | The kind picker exists only when creating or for an entry without children |
| ChecklistForm.ChecklistItemFormView.Submit | Planner/tabs/Checklists/forms/ChecklistItemForm.swift:96-123 | Enabled only with a title; edits the entry in place (an entry with children keeps its kind) or appends one with the append key |
| PlannerCardVertical.PlanCountIsUncheckedList | Planner/tabs/Planner/microViews/PlannerCardVertical.swift:33 | The count is the number of unchecked events, 0 without a planner |
| PlannerCardVertical.PlanCountLabel | Planner/tabs/Planner/microViews/PlannerCardVertical.swift:32-43 | "No more plans" / "No plans" exactly for a zero count with / without single-day events; the plural "s" exactly when the count is not 1 |
| PlannerCardVertical.LabelStatesCount | Planner/tabs/Planner/microViews/PlannerCardVertical.swift:32-43 | Reading the label back gives the count |
| CalendarIcon.IconName | Planner/Extensions/EKCalendar.swift:11-23 | Birthday icon exactly when the lower-cased title contains "birthday"; holiday icon exactly when it contains "holiday" and not "birthday"; the calendar icon otherwise |
| CalendarIcon.IconIgnoresCase | Planner/Extensions/EKCalendar.swift:12 | Titles differing only in case get the same icon |

## Left out

- Floating point: keys are `real`, so the ties that appear when a `Double` is halved too often are not modelled.
- Swift's sort is not stable. `Items.SortByKey` is one key-sorted order, and the properties are stated so that they hold for any of them.
- Unicode: lower-casing, upper-casing, white space and `\w` are ASCII only.
- Persistence: `modelContext.insert`, `save` and `delete`, `@Query`, cascade deletes and `ensurePlanner` are not modelled. A store is a sequence of records, and a deletion is an id appended to `deleted`.
- Timers:
  - the 1 s title debounce is not modelled;
  - the 3 s countdown: only the flush it triggers is modelled, as `Flush` and `PerformTask`;
  - the 1 s delay before the second step of a planner move: the step runs straight after the first;
  - the midnight timer of the todaystamp is not modelled.
- EventKit: fetching, the permission prompt and the edit/view controllers are inputs. Fetched events are `(start, end, isAllDay)` values, and the authorization status and the answer to the access request are parameters.
- `loadAllDayEvents`' fetch window (one year either side of now) is not modelled: the fetched events are an input.
- SwiftDate and Foundation formatting are inputs:
  - `toPlannerEventTimeConfig` is the `ConfigBuilder` parameter;
  - `toTimeValues` and `toIso` are not modelled;
  - the time-zone conversions are not modelled;
  - the `"EEEE"` / `"MMMM d"` formats are named, not rendered.
- `daysUntil` and the headers take the day difference as an input, and `DateExt.DaysUntilLabels` states the label for a difference given as a non-negative distance. SwiftDate's sign convention for `difference(in:from:)` is not modelled.
- Dates are proleptic Gregorian with four-digit years, and datestamps parse strictly as `yyyy-MM-dd`. Daylight-saving days and the locale are not modelled.
- Integer width: `Int` overflow is not modelled, because no modelled value comes near it.
- `PlannerCardVertical.PlanCountLabel`: the single-day event count is an input (only whether it is zero matters). The `singleDayEventsByDatestamp` map it comes from is not part of this model.
- `PlannerDay.NewEvent` gives the new event an empty datestamp. The current revision calls an initialiser that `PlannerEvent.swift` does not declare, so the day is taken from the planner link, which is what this revision reads.
- Recurring events: the `recurringId` branch of the title handlers is empty in the source (a to-do), and nothing is modelled for it.
- Which `generateSortIndex` each view was built with: both files declare the same global function, so the source does not pair them. Every view is paired with the 8 rule (`SortIndex`). A view built against the 0 rule (`SortIndexLegacy`) would give the first event of an empty day key 0, not 8; `SortIndexLegacy.DiffersOnlyOnEmpty` shows that this is the only difference.
- `slideTo`, scrolling, animations, fades, sheets and the rest of the view code are not modelled.
- `FolderScreen.FolderView.HandleMoveItem`: the model follows the code as written. Each step re-sorts the children as they stand after the steps before it, while the source indices are those of the original order. The single save at the end is persistence.
- `FolderScreen.MovePossible`: a negative destination is only accepted while at most one child exists. The list view never passes one; on a longer list such a destination would trap in `generateSortIndex`.
- `ChecklistForm.ChecklistItemFormView.Submit`: `dismiss()` is not modelled.
- Children of a checklist entry are derived from the `parent` links in append order, rather than stored as a separate array.
- `ItemRow.Row`: the fade-out animation on `fadeOutTrigger` and `showChecked` is not modelled.

## Findings

| source | as written | input that shows it | evidently intended | confidence | as-written member | corrected member |
|---|---|---|---|---|---|---|
| Planner/utils/generateSortIndex.swift:11-14 | An empty list yields key 0, and a top insertion halves the first key, so a list started with this revision gets a top row that ties with its first row | Append to an empty list (key 0), then insert at index 0: key 0 again | The empty-list key is positive (8, as in Planner/utils/lists/generateSortIndex.swift:12-13), so a top insertion always sorts strictly first | high; not executed | SortIndexLegacy.TopInsertAfterEmptyDefaultTies | SortIndex.PositiveKeysNeverTie |
