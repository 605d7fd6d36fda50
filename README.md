# Clash scheduler and shopping ledger, modelled in Dafny

This project models the logic of two small browser apps that keep their
state in local storage.

**The game task scheduler** (`jsapp.js`, `jsutils.js`, `jsscheduler.js`)
keeps, per account, a list of worker tasks.
- A worker row's free-text `D-H-M` duration is parsed forgivingly. The
  special tasks (lab assistant, worker apprentice) shorten it by a
  level-scaled number of hours per started day. The completion time is shown
  as `MM/DD HH:MM`.
- Saving a row updates or appends the task with the row's id. The delete
  button filters it out.
- Worker rows are generated from the stored worker count, reusing stored
  task ids.
- `loadData` normalises the stored state or builds the initial one.
- `renderScheduler` lists, across all accounts, the tasks that complete
  within the next 24 hours, earliest first.

**The shopping ledger** (`app.js`) is one `app` object.
- It holds collections (ledgers) of categories (shops). Each category names
  its fields and holds items, one string value per field.
- Its handlers navigate: enter a collection, open a category, open an item
  form, search, go back.
- They edit the open collection's `data` in place: move, add and delete
  fields; merge, append and delete items; add, rename, recolour and delete
  categories and collections; import and export a snapshot.
- The open collection's `data` is the same array as that collection's
  `content.data`. The model keeps this sharing as part of the invariant
  `App.Valid()`.

Modules follow the source files:
- `Text`, `Sequences` and `Wrappers` give the JavaScript primitives used:
  `trim`, `split`, `parseInt`, `String(n)`, `padStart`, `includes`, and
  `Array.prototype.filter`/`map`/`sort`. `sort` is a stable insertion sort.
- `SchedulerData`, `Durations` and `SchedulerApp` model `jsapp.js`.
  `SchedulerApp.Scheduler` is a class over `appData.accounts`.
- `SchedulerUtils` models `jsutils.js`.
- `SchedulerView` models `jsscheduler.js`.
- `LedgerData`, `LedgerQueries`, `LedgerEdits` and `LedgerApp` model
  `app.js`. `LedgerApp.App` is a class with the `app` object's fields.

How the environment becomes parameters:
- The clock is a parameter `now`, an integer number of milliseconds.
- The local calendar reading of an instant is an abstract function `local`.
- `Date.now()` ids and random colours are parameters.
- The answer to a `confirm` dialog is a boolean `confirmed`.
- `localeCompare` is an abstract collation `atMost` (`x.localeCompare(y) <= 0`).
  Ordering lemmas assume it is a total preorder.
- The loaded storage value is an optional input.

## Model

| member | source | states |
|---|---|---|
| Text.TrimSpec | jsapp.js:319-322 | `trim` leaves no space at either end, and what it returns is the infix of the input with only spaces before and after it |
| Text.TrimIdempotent | app.js:949-951 | trimming a trimmed name changes nothing |
| Text.Split | jsapp.js:322 | `split('-')` gives at least one piece, no piece holds the separator, and joining the pieces with it gives the input back |
| Text.SplitJoin | jsapp.js:322 | pieces without the separator, joined by it, split back into the same pieces |
| Text.ParseInt | jsapp.js:323-325 | `parseInt(s, 10)` is NaN exactly when no digit follows the leading spaces and optional sign |
| Text.ParseIntIntToString | jsapp.js:210 | `parseInt(String(n), 10) == n` for every integer `n` |
| Text.NatToString | jsapp.js:204 | `String(n)` of a non-negative integer is digits, with no leading zero, whose decimal value is `n` |
| Text.Pad2 | jsutils.js:83-86 | `padStart(2, '0')` of a number below 100 is two digits whose value is that number |
| Sequences.Filter | jsapp.js:427 | a filter keeps only elements that pass, and no more elements than there were |
| Sequences.FilterMembers | jsapp.js:427 | an element is in the filtered list exactly when it is in the list and passes |
| Sequences.FilterMultiset | jsapp.js:427 | a filter keeps every passing element as often as it occurred and drops every other |
| Sequences.Sort | jsscheduler.js:48 | `sort` returns a permutation of its input |
| Sequences.SortSorted | jsscheduler.js:48 | for a comparator that is a total preorder, the result is sorted |
| Sequences.SortStable | jsscheduler.js:48 | the sort is stable: elements that compare equal keep their relative order |
| Sequences.MapIndex | jsscheduler.js:56-78 | `map` gives one element per input element, in order |
| Sequences.FlatMapMembers | jsscheduler.js:22-45 | an element is pushed by the nested walk exactly when some visited element pushes it |
| Durations.ParseDurationNonNegative | jsapp.js:321-327 | whatever is typed, days, hours, minutes and the total minutes are never negative |
| Durations.ParseFormatDuration | jsapp.js:206-212 | a stored non-negative duration written as `d-h-m` (or `''` when all zero) reads back as the same duration |
| Durations.ParseEmpty | jsapp.js:322-325 | an empty duration box reads as 0-0-0 |
| Durations.ParseWithoutSeparator | jsapp.js:322-325 | text without `-` is read as days only, with hours and minutes 0 |
| Durations.NonNumericPieceIsZero | jsapp.js:323-325 | a piece with no leading number reads as 0 and leaves the other pieces' values alone |
| SchedulerApp.CeilDays | jsapp.js:265-266 | `Math.ceil(m / 1440)` is the number of started days: at least 1, and `m` lies in its last day |
| SchedulerApp.PositiveLevel | jsapp.js:268-275 | a level counts exactly when it parses to a number above 0, and then it counts as that number |
| SchedulerApp.Reduction | jsapp.js:270 | a positive level on a started day takes off at least an hour |
| SchedulerApp.ApplySpecialReductions | jsapp.js:259-280 | non-positive minutes come back unchanged; otherwise it throws exactly when the account has no special tasks, and the result lies between 0 and the input |
| SchedulerApp.OtherSectionsUnreduced | jsapp.js:268-279 | outside the laboratory and the home village nothing is taken off |
| SchedulerApp.LaboratoryReduction | jsapp.js:265-271 | in the laboratory the lab-assistant level in hours per started day is taken off, down to 0; a non-numeric level takes nothing off |
| SchedulerApp.HomeVillageReduction | jsapp.js:273-277 | in the home village only the apprentice's target worker is shortened, by the apprentice level in hours per started day |
| SchedulerApp.WholeDaysReduction | jsapp.js:265-271 | a laboratory task of `k` whole days with a lab level below 24 loses exactly `k * level` hours |
| SchedulerApp.ReductionMonotoneInLevel | jsapp.js:268-279 | raising the lab-assistant level never lengthens a task |
| SchedulerApp.Evaluate | jsapp.js:321-331 | reading a row throws exactly when the total is positive and there are no special tasks; otherwise it gives the parsed duration and the completion after the reduced minutes |
| SchedulerApp.CompletionAfter | jsapp.js:331 | there is no completion exactly when the reduced duration is not positive |
| SchedulerApp.Shown | jsapp.js:333 | the cell shows `N/A` for no completion and the completion text otherwise |
| SchedulerApp.ShownCompletionAfter | jsapp.js:331-333 | the cell shows `N/A` exactly when the reduced minutes are not positive; otherwise a stamp that reads back as the local time that many minutes after now when that instant lies within the range of a `Date`, and `NaN/NaN NaN:NaN` when it does not |
| SchedulerApp.Display | jsapp.js:331-333 | the cell text exists exactly when reading the row did not throw, and it is what `Shown` gives |
| SchedulerApp.FindById | jsapp.js:336 | `find` by id stops at the first task with that id, or reports none |
| SchedulerApp.UpsertSpec | jsapp.js:335-345 | saving changes only the task `find` returns, and only its name, duration and completion; with none found, one task with the row's id, section and worker is appended |
| SchedulerApp.UpsertFindsSameIndex | jsapp.js:336-340 | after saving, `find` returns the same task next time |
| SchedulerApp.UpsertIdempotent | jsapp.js:335-345 | saving the same row twice is saving it once |
| SchedulerApp.UpsertCount | jsapp.js:335-345 | after saving there is at least one task with the id: exactly one if there were none or one, otherwise the count is unchanged |
| SchedulerApp.DeleteTasks | jsapp.js:427 | no task with the deleted id remains |
| SchedulerApp.DeleteKeepsOthers | jsapp.js:427 | every task with another id is kept exactly as often as it was there |
| SchedulerApp.DeleteUndoesCreate | jsapp.js:337-339 | deleting a task that saving a row had just created gives the list back |
| SchedulerApp.FindWorker | jsapp.js:199-203 | `find` by worker within the section stops at the first task of that section and worker, or reports none |
| SchedulerApp.RowReusesStoredTask | jsapp.js:199-212 | a worker with a stored task gets that task's id (so saving does not grow the list), its name, and a duration box that reads back as the stored duration |
| SchedulerApp.RowOfNewWorker | jsapp.js:203-204 | a worker without a task gets a fresh id from account, section, worker and clock, empty boxes, and an `N/A` cell that never throws |
| SchedulerApp.NoTimeShowsNA | jsapp.js:329-333 | a duration totalling no time never throws and shows `N/A` |
| SchedulerApp.WorkerRowWorker | jsapp.js:201-202 | row `n` is for worker `"n"`, so distinct rows have distinct workers |
| SchedulerApp.GenerateAfterFailure | jsapp.js:201-236 | once a cell has thrown, asking for more workers generates nothing more |
| SchedulerApp.GenerateRows | jsapp.js:201-236 | the rows are those of workers 1, 2, … in order; all of them unless a cell threw, and then the last row is the one whose cell threw |
| SchedulerApp.GenerateCells | jsapp.js:201-236 | every filled cell holds its row's computed text |
| SchedulerApp.FillRows | jsapp.js:201-236 | the loop over workers 1..count builds exactly the specified rows and cells |
| SchedulerApp.Scheduler.constructor | jsapp.js:20 | the scheduler starts with the loaded accounts |
| SchedulerApp.Scheduler.HandleTaskInputChange | jsapp.js:318-346 | returns the cell text, and changes only this account's tasks, by the upsert when saving was asked and reading did not throw |
| SchedulerApp.Scheduler.GenerateWorkerRows | jsapp.js:197-237 | the rows and cells of workers 1..count (none for count ≤ 0), filled without saving |
| SchedulerApp.Scheduler.DeleteTask | jsapp.js:420-427 | only the named account's tasks change, by the delete filter; an unknown account changes nothing |
| SchedulerApp.Scheduler.OnWorkerCountInput | jsapp.js:384-396 | stores `parseInt(value)`, or 0 for NaN, under the section (creating `workerCounts`) and generates that many rows; an event without an account changes nothing |
| SchedulerApp.Scheduler.OnLevelInput | jsapp.js:397-400 | stores the text under the section (creating `levels`), changing nothing else |
| SchedulerApp.Scheduler.OnSpecialTaskInput | jsapp.js:401-409 | stores the level of the named special task; it throws (and changes nothing) exactly for an account without special tasks |
| SchedulerApp.Scheduler.OnSpecialTaskSelect | jsapp.js:410-417 | stores the apprentice's target worker; it throws (and changes nothing) exactly for an account without special tasks |
| SchedulerUtils.LastAvatar | jsutils.js:28-35 | a name configured twice takes the avatar of its last entry |
| SchedulerUtils.LoadData | jsutils.js:9-37 | stored data keeps its accounts; configured ones gain empty `levels`/`workerCounts` only where missing, the others are untouched; with nothing stored, one fresh account per configured name |
| SchedulerUtils.FreshAccountsOfDistinctConfig | jsutils.js:27-35 | with distinct names, every configured account starts with its own avatar |
| SchedulerUtils.FormatStampReads | jsutils.js:82-87 | the `MM/DD HH:MM` text is 11 characters and reads back as month, day, hours and minutes |
| SchedulerUtils.FormatStampInjective | jsutils.js:82-87 | two readings give the same text exactly when they are the same |
| SchedulerUtils.CalculateCompletionTime | jsutils.js:57-60 | the result is `null` exactly for NaN or a non-positive duration |
| SchedulerUtils.CalculateCompletionTimeReads | jsutils.js:64-87 | the text reads back as a stamp exactly when now and the completion instant lie within the range of a `Date`, and is `NaN/NaN NaN:NaN` otherwise; a stamp is the local time the duration in minutes, hours or days after now, or now itself for any other unit |
| SchedulerView.TitleMapLookup | jsscheduler.js:12-15 | the title map has exactly the configured ids, each with the title of its last section |
| SchedulerView.SectionTitle | jsscheduler.js:39 | a missing or empty title shows `未知區域`, otherwise the title |
| SchedulerView.UpcomingSound | jsscheduler.js:21-45 | every record pushed is for a scheduled task of its account, completing within 24 hours after now, with the account's avatar and the section's title |
| SchedulerView.UpcomingComplete | jsscheduler.js:21-45 | every such record of a walked account is pushed |
| SchedulerView.UpcomingExactly | jsscheduler.js:18-45 | over all accounts, the records pushed are exactly the scheduled tasks completing in the window |
| SchedulerView.EarlierOrSameTotal | jsscheduler.js:48 | ordering by completion instant is a total preorder |
| SchedulerView.UpcomingSorted | jsscheduler.js:48 | after the sort the records are the same, earliest first, and records due at the same instant keep the walk order |
| SchedulerView.ViewMessage | jsscheduler.js:51-54 | the no-tasks message is shown exactly when nothing is listed |
| SchedulerView.ViewEntries | jsscheduler.js:56-78 | otherwise one line per record, in order, carrying its task id and account, with a time that reads back as the completion's local fields |
| SchedulerView.CollectTasks | jsscheduler.js:24-44 | the inner loop pushes exactly the records of the account's tasks, in task order |
| SchedulerView.CollectAccounts | jsscheduler.js:22-45 | the outer loop pushes the records of every account in key order |
| SchedulerView.ListEntries | jsscheduler.js:56-78 | the render loop gives one line per sorted record, in order |
| SchedulerView.RenderScheduler | jsscheduler.js:8-78 | the page is the message, or the lines of the collected records sorted by completion |
| LedgerData.Prop | app.js:343 | a key the item has reads its value; a key it lacks reads empty, unless it names a member every object inherits from `Object.prototype`, which reads as that member's non-empty text |
| LedgerQueries.FirstWith | app.js:312-314 | `find` stops at the first field containing a keyword, or reports none |
| LedgerQueries.FindSpec | app.js:312-314 | the field found is the first containing a keyword, and one is found exactly when some field contains one |
| LedgerQueries.IdentifyFieldsSpec | app.js:309-316 | price and date are the first fields naming them; the title is the first field naming a title, else the first field; there is a title exactly when there are fields |
| LedgerQueries.DefaultFieldsKeys | app.js:309-316 | a new category's fields are detected as title `品名`, price `價格`, date `購買日期` |
| LedgerQueries.ItemHitsExactly | app.js:341-354 | the walk over a category's items pushes exactly its items that pass the title test, each with the category's keys |
| LedgerQueries.WalkExactly | app.js:337-355 | the walk over the categories pushes exactly the items that pass the title test, each with its category, item index and the keys detected for its category |
| LedgerQueries.CategoryHitsExactly | app.js:337-355 | the walk of a search pushes exactly the items whose lower-cased title contains the keyword, each with its category and item index |
| LedgerQueries.WalkOrdered | app.js:340-355 | the walk pushes results category by category, item by item, with no repetition |
| LedgerQueries.SearchFinds | app.js:319-360 | a blank keyword returns home; otherwise the results are exactly the items whose lower-cased title contains the lower-cased trimmed keyword |
| LedgerQueries.SearchNewestFirst | app.js:363-367 | the results are sorted by date, latest first |
| LedgerQueries.SearchStable | app.js:363-367 | results with equal dates keep the walk order |
| LedgerQueries.WithIndex | app.js:457 | each item is tagged with its original index |
| LedgerQueries.GroupName | app.js:462 | an item's group is its title, or `未命名` for an empty one, never empty |
| LedgerQueries.BucketsSpec | app.js:460-465 | the buckets have distinct names, are non-empty, hold exactly the items of their name in order, and cover every item |
| LedgerQueries.GroupBucketsSpec | app.js:460-467 | the groups listed in `Object.keys` order are still a grouping: distinct names, exact members, every item covered |
| LedgerQueries.GroupingKeyOrder | app.js:467 | the groups come in `Object.keys` order: names that are array indices first, ascending by value, then the other names in the order their groups were created |
| LedgerQueries.NumericTitlesFirst | app.js:460-467 | items titled `b`, `7`, `3` give the groups `3`, `7`, `b` |
| LedgerQueries.CategoryViewOutcome | app.js:460-491 | an item titled after a name every object inherits (`constructor`, `toString`, `__proto__`, …) makes the list throw; otherwise the groups partition the items |
| LedgerQueries.InheritedTitleRead | app.js:462 | a title field an item lacks that names an inherited member reads it: field `constructor` groups an empty item under the text of `Object`, and field `toString` makes a search for `native` find it |
| LedgerQueries.KeyedFieldsNotInherited | app.js:309-316 | the price and date keys contain a Chinese keyword, so they are never inherited names; only title reads can reach an inherited member |
| LedgerQueries.GroupingPartition | app.js:460-491 | group names are distinct and every item is in the group of its name once and in no other |
| LedgerQueries.GroupingGroups | app.js:467-491 | each group holds exactly the items of its name, latest first; its count is their number; its latest item and date are the first's |
| LedgerEdits.RemoveAtSpec | app.js:840 | `splice(i, 1)` removes exactly the element at `i`, shifting the later ones down |
| LedgerEdits.InsertRemove | app.js:757-758 | putting the removed element back where it was restores the array |
| LedgerEdits.RemoveInsert | app.js:757-758 | removing what was just inserted restores the array |
| LedgerEdits.MoveSpec | app.js:754-760 | a move is a permutation that puts the moved field at `to` and keeps the others in their relative order |
| LedgerEdits.MoveBack | app.js:754-760 | dragging the field back undoes the move |
| LedgerEdits.MoveSame | app.js:755 | a move onto itself changes nothing |
| LedgerEdits.AddFieldSpec | app.js:770-776 | a blank or existing name is refused; any other is appended, trimmed, after the existing fields |
| LedgerEdits.AddFieldKeepsDistinct | app.js:770-776 | adding through the editor keeps the field names distinct |
| LedgerEdits.DropFieldSpec | app.js:782-791 | only that field, and that key in each item, go; every other key keeps its value |
| LedgerEdits.SavedItemsMerge | app.js:815-816 | an edited item takes the form's values and keeps keys the form lacks; no other item changes |
| LedgerEdits.SavedItemsAppend | app.js:817-818 | a new item goes at the end, and deleting that index gives the items back |
| LedgerEdits.CheckedNameSpec | app.js:949-951 | a name that trims to nothing is refused; otherwise the stored name is trimmed, non-empty, and passes the check unchanged |
| LedgerEdits.ImportedSpec | app.js:1007-1018 | an object with a `data` array or a bare array gives its categories, anything else none; only a non-zero stored timestamp is kept, else now |
| LedgerEdits.ExportImport | app.js:985-1018 | importing an exported snapshot restores the categories and a non-zero save time |
| LedgerApp.BackDescends | app.js:139-176 | every back step leaves a level, and at the top level back does nothing |
| LedgerApp.BackReachesTop | app.js:139-176 | at most four presses reach the top level, and further presses stay there |
| LedgerApp.BackFromItemForm | app.js:153-162 | back from a new item's form returns to the collection home; back from an edited item returns to its category list |
| LedgerApp.SortFieldForSpec | app.js:436-438 | the sort field is one of the fields (present exactly when there are fields), a chosen field is kept, and settling again changes nothing |
| LedgerApp.BackStateSpec | app.js:139-176 | going back in state terms is the navigation step `Back`, keeps the invariant, and leaves the collections, data, sort direction and mirrored name, colour and time alone |
| LedgerApp.BackAfterSearchSubmit | app.js:130-149 | after the search event the box keeps its query, so the next back step only clears the box and the collection stays open |
| LedgerApp.SavedConsistent | app.js:70-82 | saving restores the sharing of `data`, writes exactly `data` into the open collection, stamps it when asked, and leaves other collections alone |
| LedgerApp.InitialConsistent | app.js:19-63 | the start state satisfies the invariant; with nothing stored it holds one empty default collection |
| LedgerApp.App.constructor | app.js:19-63 | the app starts at the top level with the stored collections, or the default one |
| LedgerApp.App.Save | app.js:70-82 | the new state is the saved state, and the invariant holds |
| LedgerApp.App.EnterCollection | app.js:229-246 | opens the collection, shares its data, mirrors its name, colour and time, and shows its home page |
| LedgerApp.App.RenderHome | app.js:266-268 | clears the category, item and sort field and nothing else |
| LedgerApp.App.RenderCategoryList | app.js:418-491 | opens the category, settles the sort field, and returns the category's view: its groups, or `None` when the grouping throws, in which case the state changes made before it stay |
| LedgerApp.App.ChangeSortField | app.js:397-400 | a field of the category becomes the sort field; any other falls back as the list settles it; the list shown again is the category's view |
| LedgerApp.App.ToggleSortDirection | app.js:402-405 | flips the sort direction and shows the category's view again |
| LedgerApp.App.RenderEditForm | app.js:596-600 | marks the item as edited and shows its values, or an empty form for a new item |
| LedgerApp.App.OpenSearchResult | app.js:376 | opens the result's category and item |
| LedgerApp.App.PerformSearch | app.js:319-395 | returns the search view over the open collection; only a blank keyword changes state, returning home |
| LedgerApp.App.SearchInput | app.js:121-128 | the box keeps the typed text; inside a collection the trimmed text is searched, and a blank one also returns to the collection's home page; at the top level nothing but the box changes |
| LedgerApp.App.SearchSubmit | app.js:130-134 | inside a collection the search event returns to the home page and keeps the box's text; at the top level nothing changes |
| LedgerApp.App.GoBack | app.js:139-176 | the new state is the back state: a search is cleared to an empty box (and a collection's home page shown, clearing category, item and sort field), else an item form is left for its list with the sort field settled, else a category list is left for the home page, else the collection is closed; the navigation follows `Back`; the view of the list shown again is returned |
| LedgerApp.App.SwapFields | app.js:754-763 | dropping a field on itself changes nothing; otherwise the fields are moved and saved |
| LedgerApp.App.AddFieldFromEditor | app.js:770-780 | the outcome is the field-add rule's; a refused name changes nothing, an accepted one is appended and saved |
| LedgerApp.App.DeleteFieldFromEditor | app.js:782-795 | unconfirmed changes nothing; confirmed drops the field and its key from every item, and saves |
| LedgerApp.App.SaveItem | app.js:809-822 | merges into the edited item or appends a new one, saves, and shows the saved category's view |
| LedgerApp.App.SaveAsNew | app.js:824-836 | appends the form as a new item whatever is edited, saves, and shows the saved category's view |
| LedgerApp.App.DeleteItem | app.js:838-844 | unconfirmed changes nothing; confirmed removes the item at the index, saves, and shows the saved category's view |
| LedgerApp.App.UpdateCurrentCollectionName | app.js:949-955 | a blank name changes nothing; otherwise the open collection and its mirrored name take the trimmed name |
| LedgerApp.App.UpdateCurrentCollectionColor | app.js:957-962 | the open collection and its mirrored colour take the colour |
| LedgerApp.App.UpdateCollectionName | app.js:964-969 | a blank name changes nothing; otherwise that collection takes the trimmed name |
| LedgerApp.App.UpdateCollectionColor | app.js:971-975 | that collection takes the colour |
| LedgerApp.App.DeleteCollection | app.js:977-983 | confirmed removes exactly that collection; otherwise nothing changes |
| LedgerApp.App.ConfirmAddCollection | app.js:1106-1127 | a blank name adds nothing; otherwise one empty collection with the trimmed name is appended |
| LedgerApp.App.ExportCurrentCollection | app.js:985-997 | the snapshot is the open data with the save time, or now when there is none |
| LedgerApp.App.ImportCurrentCollection | app.js:999-1029 | no file or an unconfirmed import changes nothing; otherwise the imported content replaces the open collection's, and the home page is shown |
| LedgerApp.App.ConfirmAddCategory | app.js:1167-1190 | a blank name adds nothing; otherwise a category with the trimmed name and the default fields is appended and saved |
| LedgerApp.App.QuickAddCategory | app.js:1031-1047 | the same as adding a category from the modal |
| LedgerApp.App.UpdateCategoryName | app.js:1049-1054 | a blank name changes nothing; otherwise that category takes the trimmed name and is saved |
| LedgerApp.App.UpdateCategoryColor | app.js:1056-1060 | that category takes the colour and is saved |
| LedgerApp.App.DeleteCategory | app.js:1062-1069 | confirmed removes exactly that category and saves; otherwise nothing changes |

## Left out

- The Python scripts (`Python/ExcelToJson.py`, `convert_ui.py`, `Python/jsontoexcel.py`, `trimexcel.py`) only wrap spreadsheet and file-dialog libraries, so they are not modelled.
- Rendering is left out: HTML strings, element lookups, class toggles, slider scrolling, page navigation, modals, the image lightbox, drag-and-drop and touch handlers, and `updateTimeUI`. Handlers end where they would render. Where a handler calls `renderHome` or `renderCategoryList`, their state changes are modelled.
- `localStorage`, `saveData`, `saveCollections`, `FileReader` and the export download are left out. The loaded value is an input, saving is the state change alone, and JSON validity becomes an `Option`.
- SchedulerUtils.CalculateCompletionTime: time is integer milliseconds and the local calendar reading is an abstract function of the instant. `setMinutes` and `setHours` do wall-clock arithmetic, so across a daylight-saving change the source's result moves by the shift; the model adds fixed milliseconds and does not capture that.
- SchedulerUtils.CalculateCompletionTime: durations are integers. `parseInt` gives a double, so fractional hours and days and durations beyond 2^53 (which lose precision) are not modelled. The range of a `Date` (section 21.4.1.31 of ECMAScript, TimeClip) is modelled: outside it the text is `NaN/NaN NaN:NaN`.
- SchedulerUtils.CalculateCompletionTimeReads: states the local reading of the instant the model computes, which is the source's only where no daylight-saving change lies between now and the completion.
- SchedulerView.RenderScheduler: the completion instant is the parameter `rawTime`. The three-argument `calculateCompletionTime` that `jsscheduler.js:31` calls is not part of this model. `entryTimestamp` and `totalDeductedMinutes` are only read, and no deduction ledger exists in these files.
- The first `handleTaskInputChange` (`jsapp.js:282-315`) is shadowed by the later declaration, and the empty `input` listener (`jsapp.js:169-171`) does nothing, so neither is modelled.
- `recalculateDependentTasks` (`jsapp.js:349-371`) and `restoreInputsFromData` (`jsapp.js:241-257`) are left out because their inputs are the rows present in the page. They re-run `HandleTaskInputChange` and `GenerateWorkerRows` for those rows.
- `updateWorkerApprenticeSelect` and `renderAccountPages` only build the page, so they are not modelled.
- LedgerApp.App.RenderCategoryList: the groups come back in `Object.keys` order (section 10.1.11.1 of ECMAScript). A title naming a property every object inherits makes `groups[name].push` throw; the model returns `None` for the view and keeps the state changes made before. The sort of the groups (`app.js:494-523`) is left out because it uses prices as floating point and `localeCompare(..., 'zh-Hant')`. The min/max prices of a group (`app.js:467-474`) are left out for the same reason.
- LedgerData.Prop: the text of an inherited built-in function is the one common engines print (`function Object() { [native code] }`); the standard leaves it to the engine. A title field named `_originalIndex` reads the index the grouping adds to each item, which is not modelled.
- `localeCompare` is abstract: ordering lemmas hold for any collation that is a total preorder.
- Text.ToLower: it lowercases ASCII letters only; the rest of Unicode case mapping is not modelled.
- The migration of the legacy `shopData` entry in `init` (`app.js:22-43`) is left out; the model starts from stored collections or the default one.
- LedgerApp.App.DeleteFieldFromEditor: the warning for an important field only changes the wording of the dialog, so both wordings become one `confirmed` answer.
- Item values are strings, as a form gives them. The form's values are a map, so the order of keys in an item is not modelled.
- Handlers reached only from rendered lists or the settings panel require what the page guarantees:
  - indices within range;
  - a collection open for collection-level handlers;
  - no collection open for top-level ones.
- `renderTopLevel`'s category and item counts per collection are display only, so they are not modelled.
- `alert` is a no-op. The `'已新增一筆購買紀錄！'` notice of `saveAsNew` is not modelled.
