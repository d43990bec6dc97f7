# Staff booking app: the booking rules of the web client

This project models, in Dafny, the rules that the staff booking web client of a
dental clinic applies on its own side. It does not model the backend
procedures the client calls. What it covers:

- **Time grid.** The 15-minute slots from 10:00 to 18:45. The two time formats: `HH:mm` on
  screen and `HH:mm:ss` in storage.
- **Multi-day timetable.** Bookings are indexed by `day|HH:mm` cell. Each cell is listed under the
  dentist filter. Each cell shows its booked-versus-capacity figures. The day columns can be added,
  removed and changed.
- **Listing queries.** The manage list and the summary list are a condition on rows, an order by
  date then time and, for the manage list, a page. They are modelled over an in-memory table.
- **Create form and edit sheet.** Their form state, the checks run before sending, the request
  payloads and their normalisation, and the reset of the sheet from the selected booking.
  Also the "other services" list: entries are trimmed, non-blank, and unique when compared
  case-insensitively.
- **Presentation rules.**
  - Row and card labels.
  - The grouping of the printable summary.
  - The manage page's page clamping and filter reset.
  - The patient picker's offset paging.
  - The services picker's toggle, search and name lookup.

Code that changes state step by step is modelled as classes with `modifies` clauses:
- the create form (`BookPage.BookForm`);
- the edit sheet (`EditSheet.Sheet`);
- the manage page's filter bar (`ManagePage.ManageFilters`);
- the patient picker (`PatientCombobox.Picker`).

Loops are modelled as methods with invariants, proved against a specification function:
- `Time.TimeSlots`;
- `Timetable.BookingsByDayTime`;
- `Summary.Collect`.

The query builders of the two lists add one condition after another. They are modelled as
straight-line methods (`Queries.ManageListQuery`, `Queries.SummaryListQuery`) that narrow the
rows step by step, proved equal to the single combined condition.

Everything else is functions and lemmas.

Two label conventions exist in the client, and both are modelled:
- The list rows pick names with `||` and decide on the HN.
- The timetable cards and the edit sheet pick names with `??` and decide on the patient id.

`Labels.NameChoiceDiffers` shows that the two disagree exactly when the first name is empty and
the second is non-empty. `Labels.WalkinLabelsDiffer` shows a booking whose row and card labels differ
for that reason.
The Cancel button of the edit sheet is enabled only when `EditSheet.CancelEnabled` holds: no cancel
is in flight and the booking is not already cancelled. Update and Delete have no status guard.

## Model

| member | source | states |
|---|---|---|
| Time.FormatParses | src/lib/time.ts:9 | the zero-padded `HH:mm` of a minute count within a day is a valid clock string that reads back as that count |
| Time.ClockOrder | src/lib/time.ts:7-9 | on valid `HH:mm` strings, string order is time order |
| Time.TimeSlots | src/lib/time.ts:5-11 | the loop returns the whole grid: 36 slots, slot `i` formatted from 10:00 plus `15*i` minutes |
| Time.SlotGridShape | src/lib/time.ts:5-11 | every slot is a valid `HH:mm` clock string reading back as `i` steps after 10:00, between 10:00 and 18:45 |
| Time.SlotGridEnds | src/lib/time.ts:7-9 | the first slot is 10:00 and the last is 18:45 |
| Time.SlotGridIncreasing | src/lib/time.ts:7-9 | slots are strictly increasing as strings |
| Time.TimeToDb | src/lib/time.ts:13 | the storage time is the display time followed by `:00`, three characters longer |
| Time.DbTimeToHHmm | src/lib/time.ts:14 | the display time is the first `min(5, length)` characters, a prefix of the storage time |
| Time.DisplayRoundTrip | src/lib/time.ts:13-14 | display to storage and back returns the input exactly when it has 5 characters |
| Time.StorageRoundTrip | src/lib/time.ts:13-14 | storage to display and back returns the input exactly when it is 8 characters ending in `:00` |
| Time.SlotRoundTrip | src/lib/time.ts:5-14 | every slot converts to a storage time and back unchanged |
| Timetable.CellKeyInjective | src/components/MultiDayTimetable.tsx:45 | two cell keys are equal exactly when day and time are, for days without `\|` |
| Timetable.BookingsByDayTime | src/components/MultiDayTimetable.tsx:42-51 | the loop's map sends every key to exactly the bookings of that cell in input order, and holds only keys of non-empty cells |
| Timetable.BucketPlacement | src/components/MultiDayTimetable.tsx:42-51 | a booking is in the bucket of its own key and in no other |
| Timetable.BucketOrder | src/components/MultiDayTimetable.tsx:42-51 | a bucket keeps the input order |
| Timetable.BucketsPermutation | src/components/MultiDayTimetable.tsx:42-51 | the buckets of all occurring keys, concatenated, are a permutation of the input |
| Timetable.CellBookings | src/components/MultiDayTimetable.tsx:53-61 | the cell list is a subsequence of the bucket that keeps exactly the shown bookings (all, the dentist's or unassigned, or only the dentist's), each as often as in the bucket |
| Timetable.CellBookingsUnfiltered | src/components/MultiDayTimetable.tsx:53-55 | with no dentist filter a cell lists its whole bucket |
| Timetable.Counts | src/components/MultiDayTimetable.tsx:37-95 | the mode is aggregate without a filter, both with unassigned shown, dentist otherwise; the aggregate cap is dentists times per-dentist capacity plus the unassigned capacity, with no dependence on bookings |
| Timetable.CountsOnlyLive | src/components/MultiDayTimetable.tsx:63-67 | two cells with the same live bookings show the same figures |
| Timetable.DeadBookingIgnored | src/components/MultiDayTimetable.tsx:63-67 | adding a cancelled or deleted booking changes no figure |
| Timetable.DentistBookedIs | src/components/MultiDayTimetable.tsx:75-77 | the dentist figure is the number of live bookings of that dentist in the cell |
| Timetable.UnassignedKeepsDentistBooked | src/components/MultiDayTimetable.tsx:75-80 | adding an unassigned booking never changes the dentist figure |
| Timetable.DentistAndUnassignedDisjoint | src/components/MultiDayTimetable.tsx:75-80 | no booking counts for both the dentist and the unassigned figure |
| Timetable.CountsMatchList | src/components/MultiDayTimetable.tsx:53-80 | the booked figures add up to the live bookings among those the cell lists |
| Timetable.AddDay | src/components/MultiDayTimetable.tsx:97-100 | one more column, the old ones unchanged, the new one a copy of the last |
| Timetable.RemoveDay | src/components/MultiDayTimetable.tsx:102-105 | index 0 and indexes out of range change nothing; any other index is dropped, the rest kept in order; the first column stays |
| Timetable.UpdateDay | src/components/MultiDayTimetable.tsx:107-111 | only the given column changes, to the given value |
| Queries.RowOrderTotal | src/lib/api.ts:184-185 | ordering by date then time is a total preorder, so rows can be sorted by it |
| Queries.Page | src/lib/api.ts:203-205 | the range from `from` holds at most `size` rows, row `i` being row `from + i` of the whole result |
| Queries.PageSorted | src/lib/api.ts:203-205 | a page of an ordered result is ordered |
| Queries.SearchTerm | src/lib/api.ts:191-192 | the search applies exactly when the trimmed query has at least two characters, with the trimmed lower-cased term |
| Queries.ManageMatches | src/lib/api.ts:182-201 | the matching rows are exactly the table rows meeting every condition, sorted by date then time, each as often as in the table |
| Queries.ManageList | src/lib/api.ts:157-208 | a page has at most `pageSize` rows, row `i` of page `p` is row `p*pageSize + i` of the ordered result, every row matches, and the total counts all matching rows |
| Queries.ManageTotalIgnoresPage | src/lib/api.ts:203-207 | the total is the same on every page |
| Queries.ManageListPage | src/lib/api.ts:203-205 | changing the page changes only the slice taken of the same ordered rows |
| Queries.ManageRowOnPage | src/lib/api.ts:203-205 | the matching row at position `i` is row `i % pageSize` of page `i / pageSize` |
| Queries.ManageFilterChain | src/lib/api.ts:170-201 | the step-by-step narrowing selects exactly the rows of the single combined condition |
| Queries.ManageListQuery | src/lib/api.ts:157-208 | the stepwise query returns the rows and total of the specification |
| Queries.SummaryList | src/lib/api.ts:217-252 | the summary rows are exactly the matching table rows, sorted by date then time |
| Queries.SummaryUnassignedDefault | src/lib/api.ts:244-247 | with no dentist, unassigned rows are dropped when the flag is false and kept when it is absent |
| Queries.SummaryListQuery | src/lib/api.ts:221-248 | the stepwise query returns the rows of the specification |
| BookPage.DateFrom | src/pages/BookPage.tsx:72 | none exactly for no columns; otherwise a column that no column precedes |
| BookPage.DateTo | src/pages/BookPage.tsx:73 | none exactly for no columns; otherwise a column that precedes no column |
| BookPage.DateRangeCoversDays | src/pages/BookPage.tsx:72-77 | every column lies between `dateFrom` and `dateTo` |
| BookPage.BookForm.constructor | src/pages/BookPage.tsx:82-95 | a fresh form: today as date and only column, existing tab, time 10:00, everything else empty |
| BookPage.BookForm.Validate | src/pages/BookPage.tsx:97-109 | each message is returned exactly when its check is the first to fail, in order patient, services, date/time; none when all pass |
| BookPage.BookForm.Payload | src/pages/BookPage.tsx:117-131 | the patient id only on the existing tab, trimmed walk-in fields only on the walk-in tab, empty dentist as none, storage time, normalised other services and note |
| BookPage.BookForm.Submit | src/pages/BookPage.tsx:111-131 | the request is built exactly when validation passes, else fails with its message |
| BookPage.BookForm.SubmittedPayload | src/pages/BookPage.tsx:117-121 | a validated request names exactly one of a patient and a walk-in |
| BookPage.BookForm.SetPrimaryDate | src/pages/BookPage.tsx:49-57 | the first column becomes the new date, the others are kept, nothing else changes |
| BookPage.BookForm.AddDayColumn | src/components/MultiDayTimetable.tsx:97-100 | the columns become `addDay` of the old ones and the form stays valid |
| BookPage.BookForm.RemoveDayColumn | src/components/MultiDayTimetable.tsx:102-105 | the columns become `removeDay` of the old ones and the first column stays |
| BookPage.BookForm.UpdateDayColumn | src/components/MultiDayTimetable.tsx:107-111 | only the given column changes |
| BookPage.BookForm.AddOtherService | src/pages/BookPage.tsx:321-331 | list and input become the result of adding; the list stays clean and unique ignoring case |
| BookPage.BookForm.RemoveOtherService | src/pages/BookPage.tsx:346 | the list becomes the result of removing, and stays clean and unique |
| BookPage.BookForm.ResetAfterCreate | src/pages/BookPage.tsx:136-145 | services, other services, input and note are cleared, and the patient or the walk-in fields according to the tab |
| BookPage.BookForm.Create | src/pages/BookPage.tsx:111-149 | a request is sent exactly when validation passes; otherwise the message is shown and nothing changes; after a successful request services, other services, input and note are cleared, and the patient (existing tab) or the walk-in names and phone (walk-in tab), the other group kept |
| OtherServices.Lowers | src/pages/BookPage.tsx:325-327 | every entry lower-cased, in order |
| OtherServices.Add | src/pages/BookPage.tsx:303-316 | a blank input changes nothing; otherwise the input is cleared and the trimmed text is appended exactly when no entry equals it up to case |
| OtherServices.AddPresent | src/pages/BookPage.tsx:321-331 | after a non-blank input the list holds an entry equal to it up to case |
| OtherServices.AddKeepsInvariant | src/pages/BookPage.tsx:321-331 | adding keeps the list clean and unique ignoring case |
| OtherServices.Remove | src/pages/BookPage.tsx:346 | every exact copy is dropped, the other entries kept in order |
| OtherServices.RemoveKeepsUnique | src/pages/BookPage.tsx:346 | removing keeps a list unique ignoring case |
| OtherServices.RemoveKeepsInvariant | src/pages/BookPage.tsx:346 | removing keeps the list clean and unique ignoring case |
| OtherServices.AddThenRemove | src/pages/BookPage.tsx:321-346 | removing what was just added gives the list back |
| OtherServices.Normalize | src/pages/BookPage.tsx:126-128 | the trimmed non-blank entries in input order: clean, a subsequence of the trimmed input, one entry per non-blank input entry, an entry present exactly when it is the trim of a non-blank input entry, empty exactly when every entry is blank |
| OtherServices.NormalizeSingleton | src/pages/BookPage.tsx:126-128 | one entry normalises to nothing when blank, else to its trim |
| OtherServices.NormalizeAppend | src/pages/BookPage.tsx:126-128 | normalising works entry by entry: the normal form of a concatenation is the concatenation of the normal forms |
| OtherServices.NormalizeClean | src/components/BookingEditSheet.tsx:74 | a clean list is already normal |
| OtherServices.Payload | src/pages/BookPage.tsx:126-129 | none exactly when every entry is blank, otherwise the non-empty normalised list |
| EditSheet.Initial | src/components/BookingEditSheet.tsx:38-48 | none without a booking; otherwise the booking's date, its dentist, services, other services and note or empty when missing, and its time cut to `HH:mm`, a prefix of the stored time |
| EditSheet.PayloadOf | src/components/BookingEditSheet.tsx:74-83 | empty dentist as none, the form's time followed by `:00` (for an `HH:mm` form time a storage time that reads back as it), normalised other services, trimmed or absent note |
| EditSheet.UnchangedSave | src/components/BookingEditSheet.tsx:38-83 | saving an untouched form sends back date, services and dentist, and the stored time exactly when it is `HH:mm:00` |
| EditSheet.UnchangedSaveTexts | src/components/BookingEditSheet.tsx:38-83 | saving an untouched form sends back clean other services and a trimmed note unchanged |
| EditSheet.Sheet.Fields | src/components/BookingEditSheet.tsx:74-83 | the form values the update payload is built from, field by field |
| EditSheet.Sheet.constructor | src/components/BookingEditSheet.tsx:36-56 | a closed sheet without booking, error or field values |
| EditSheet.Sheet.Reset | src/components/BookingEditSheet.tsx:58-68 | the error is cleared; with a booking every field is loaded from it and the input cleared; without one nothing else changes |
| EditSheet.Sheet.Show | src/components/BookingEditSheet.tsx:58-68 | opening on a booking loads its initial form |
| EditSheet.Sheet.UpdateRequest | src/components/BookingEditSheet.tsx:70-83 | "No booking selected" exactly without a booking, else the update payload |
| EditSheet.Sheet.TargetId | src/components/BookingEditSheet.tsx:93-112 | "No booking selected" exactly without a booking, else its id |
| EditSheet.Sheet.Finish | src/components/BookingEditSheet.tsx:85-119 | without a booking the error is shown; otherwise the backend's message is shown, or the sheet closes on success |
| EditSheet.Sheet.Update | src/components/BookingEditSheet.tsx:70-91 | the update is sent exactly when a booking is selected |
| EditSheet.Sheet.Cancel | src/components/BookingEditSheet.tsx:93-105 | the booking id is sent exactly when a booking is selected |
| EditSheet.Sheet.PressCancel | src/components/BookingEditSheet.tsx:278-284 | the Cancel button sends the booking id exactly when a booking is shown and `CancelEnabled` holds (no cancel in flight, booking not already cancelled); a cancelled booking is never sent; a press on a disabled button changes nothing |
| EditSheet.Sheet.Delete | src/components/BookingEditSheet.tsx:107-119 | the booking id is sent exactly when a booking is selected |
| EditSheet.Sheet.AddOtherService | src/components/BookingEditSheet.tsx:209-237 | list and input become the result of adding; a clean unique list stays so |
| EditSheet.Sheet.RemoveOtherService | src/components/BookingEditSheet.tsx:251-253 | the list becomes the result of removing; a clean unique list stays so |
| Labels.FirstTruthy | src/pages/SummaryPage.tsx:23 | the first non-empty value, or empty |
| Labels.FirstNonNull | src/components/BookingEditSheet.tsx:124-128 | the first present value, or empty |
| Labels.NameChoiceDiffers | src/pages/SummaryPage.tsx:21-27 | the two choices differ exactly when the first value is empty and the second non-empty |
| Text.TrimJoinWords | src/pages/SummaryPage.tsx:22-24 | trimming `a + " " + b` gives `JoinWords(a, b)`: the trim of the other part when one part is blank, otherwise `a` without leading and `b` without trailing white space, joined by the space |
| Labels.RowPatientLabel | src/pages/SummaryPage.tsx:21-27 | with an HN, `JoinWords` of the HN and the name chosen with `\|\|`, a trimmed text; otherwise "No HN - " followed by the trimmed walk-in name chosen with `\|\|` |
| Labels.BookingPatientLabel | src/components/BookingEditSheet.tsx:123-133 | with a patient id, `JoinWords` of the card HN and the trimmed name chosen with `??`, a trimmed text; otherwise "No HN - " followed by the trimmed walk-in name chosen with `??` |
| Labels.WalkinLabelsDiffer | src/components/BookingEditSheet.tsx:129-133 | for a walk-in with an empty Thai and a non-blank English name, the card label is "No HN - " alone while the row label is "No HN - " followed by the English name |
| Labels.RowDentistLabel | src/pages/SummaryPage.tsx:28-30 | the dentist's name, and "Unassigned" exactly for no dentist or one named so |
| Labels.Names | src/pages/SummaryPage.tsx:31-35 | name `i` is the non-empty name of the `i`-th named service, in service order, one per named service |
| Labels.NamesSingleton | src/pages/SummaryPage.tsx:31-35 | one service gives its name when that is non-empty, else nothing |
| Labels.NamesAppend | src/pages/SummaryPage.tsx:31-35 | the names of a concatenation are the concatenation of the names |
| Labels.ServiceNames | src/pages/ManagePage.tsx:46-50 | none without services; otherwise name `i` is the name of the `i`-th named service, in order |
| Labels.PickerLabel | src/components/PatientCombobox.tsx:38-42 | the placeholder without a patient; with one, `JoinWords` of the HN and the name chosen with `\|\|`, a trimmed text |
| Summary.Collect | src/pages/SummaryPage.tsx:74-80 | the loop builds the map and first-seen key order that the element-by-element specification gives |
| Summary.CollectOfCollected | src/pages/SummaryPage.tsx:74-80 | that map sends each key to its elements in order, holds exactly the keys met, none empty, each met once |
| Summary.KeysCovered | src/pages/SummaryPage.tsx:81-82 | every sorted key is in the map with its elements, and every element's key is among them |
| Summary.GroupsOf | src/pages/SummaryPage.tsx:82 | one group per key, paired with its elements |
| Summary.GroupsOfContents | src/pages/SummaryPage.tsx:81-82 | each group holds exactly its key's elements, is non-empty, and every element's key has a group |
| Summary.GroupsOfAscending | src/pages/SummaryPage.tsx:81 | group keys are strictly ascending |
| Summary.Grouped | src/pages/SummaryPage.tsx:73-83 | each group is exactly the elements of its key in list order, non-empty, keys strictly ascending, every element's key has a group |
| Summary.GroupedRows | src/pages/SummaryPage.tsx:73-83 | the same for rows grouped by date or by dentist label |
| Summary.GroupsPartition | src/pages/SummaryPage.tsx:73-80 | the groups together are a permutation of the rows, so sizes add up to the row count |
| Summary.GroupPlacement | src/pages/SummaryPage.tsx:76-79 | a row is in the group of its own key and in no other |
| Summary.GroupOrder | src/pages/SummaryPage.tsx:77-79 | rows keep their list order inside a group |
| ManagePage.MaxPage | src/pages/ManagePage.tsx:106 | 0 for no rows; otherwise the page on which the last row falls: earlier pages are full and it is not past the total |
| ManagePage.RowPageWithinMax | src/pages/ManagePage.tsx:106 | every row's page is at most `maxPage` |
| ManagePage.MaxPageHoldsRows | src/pages/ManagePage.tsx:104-106 | the last page is non-empty when some row matches |
| ManagePage.PastMaxPageEmpty | src/pages/ManagePage.tsx:104-106 | every page after `maxPage` is empty |
| ManagePage.Request | src/pages/ManagePage.tsx:90-100 | page and size 20 passed on, an empty dentist choice as no dentist |
| ManagePage.RequestMatch | src/pages/ManagePage.tsx:90-100 | a row is listed exactly when it is in range, not deleted unless asked, of the chosen dentist and status, and matches a search of two characters |
| ManagePage.StatusBadge | src/pages/ManagePage.tsx:259-265 | Deleted exactly for deleted rows, otherwise the status |
| ManagePage.FindIndex | src/pages/ManagePage.tsx:117 | the first position with that id, or none exactly when no booking has it |
| ManagePage.FindById | src/pages/ManagePage.tsx:117 | a listed booking with that id, or none exactly when there is none |
| ManagePage.FindByUniqueId | src/pages/ManagePage.tsx:116-120 | with unique ids, the booking itself is found |
| ManagePage.ManageFilters.constructor | src/pages/ManagePage.tsx:53-60 | both dates today, no filters, page 0 |
| ManagePage.ManageFilters.Fetch | src/pages/ManagePage.tsx:90-101 | the list query runs (`Enabled`) exactly when both dates are filled in, with the request of the current filters and page |
| ManagePage.ManageFilters.Query | src/pages/ManagePage.tsx:90-100 | the `Request` of the current filters and page, whose rows `RequestMatch` characterises |
| ManagePage.ManageFilters.SetDateFrom | src/pages/ManagePage.tsx:132-135 | sets the date and returns to page 0, nothing else changes |
| ManagePage.ManageFilters.SetDateTo | src/pages/ManagePage.tsx:142-145 | sets the date and returns to page 0, nothing else changes |
| ManagePage.ManageFilters.SetSearch | src/pages/ManagePage.tsx:152-155 | sets the search and returns to page 0, nothing else changes |
| ManagePage.ManageFilters.SetDentist | src/pages/ManagePage.tsx:163-166 | sets the dentist and returns to page 0, nothing else changes |
| ManagePage.ManageFilters.SetStatus | src/pages/ManagePage.tsx:185-188 | sets the status and returns to page 0, nothing else changes |
| ManagePage.ManageFilters.SetIncludeDeleted | src/pages/ManagePage.tsx:206-209 | sets the flag and returns to page 0, nothing else changes |
| ManagePage.ManageFilters.Prev | src/pages/ManagePage.tsx:302-303 | one page back, never below 0; the button is disabled on page 0 (`PrevDisabled`) |
| ManagePage.ManageFilters.NextDisabled | src/pages/ManagePage.tsx:310 | Next is disabled from `maxPage` on; while it is enabled the next page is at most `maxPage` and starts before the total, so it holds rows |
| ManagePage.ManageFilters.Next | src/pages/ManagePage.tsx:310-311 | one page on, never past `maxPage`; a page beyond it is pulled back to it |
| ManagePage.ManageFilters.OpenEdit | src/pages/ManagePage.tsx:116-120 | selects the booking found by id, or none, and opens the sheet |
| ServicesSelect.Toggle | src/components/ServicesMultiSelect.tsx:24-26 | the id is present afterwards exactly when it was absent, other ids unaffected; removal keeps order, addition appends |
| ServicesSelect.ToggleKeepsNoDup | src/components/ServicesMultiSelect.tsx:24-26 | a selection without repeats stays without repeats |
| ServicesSelect.ToggleTwice | src/components/ServicesMultiSelect.tsx:24-26 | toggling twice restores the selection: exactly when the id was absent, as a multiset when it was present, the id then moving to the end |
| ServicesSelect.Filtered | src/components/ServicesMultiSelect.tsx:14-17 | all services for a blank query; otherwise, in order, exactly those whose lower-cased Thai name contains the trimmed lower-cased query, each as often as in the list |
| ServicesSelect.LastName | src/components/ServicesMultiSelect.tsx:20 | none exactly when no service has the id, else the name of the last service with it |
| ServicesSelect.NameMap | src/components/ServicesMultiSelect.tsx:20 | the map holds exactly the ids of the services, each with the name of its last service |
| ServicesSelect.Looked | src/components/ServicesMultiSelect.tsx:21 | one looked-up name per selected id, empty for an unknown id |
| ServicesSelect.SelectedNames | src/components/ServicesMultiSelect.tsx:19-22 | a name is listed exactly when it is non-empty and some selected id names it; no more names than ids |
| ServicesSelect.SelectedNamesAppend | src/components/ServicesMultiSelect.tsx:19-22 | choosing one more id adds one badge at the end, its service's name, exactly when the id resolves to a non-empty name; unresolved ids add nothing |
| ServicesSelect.SelectedNamesInOrder | src/components/ServicesMultiSelect.tsx:19-22 | when every selected id has a named service, one name per id in selection order |
| PatientCombobox.Search | src/components/PatientCombobox.tsx:28-34 | no search (`Enabled` false) below two trimmed characters; otherwise the trimmed text, limit 20 and the offset |
| PatientCombobox.PageLabel | src/components/PatientCombobox.tsx:88 | the label is at least 1 and the offset starts page `label - 1` |
| PatientCombobox.NextLabel | src/components/PatientCombobox.tsx:88-89 | Next moves the label one page on and keeps a page-start offset |
| PatientCombobox.PrevLabel | src/components/PatientCombobox.tsx:87-88 | an enabled Prev moves the label one page back |
| PatientCombobox.Picker.constructor | src/components/PatientCombobox.tsx:21-24 | empty query, offset 0, no patient |
| PatientCombobox.Picker.SetDebounced | src/components/PatientCombobox.tsx:26 | the offset returns to 0 exactly when the debounced query changed |
| PatientCombobox.Picker.PrevDisabled | src/components/PatientCombobox.tsx:87 | Prev is disabled at offset 0; while it is enabled the offset is at least a whole page, so Prev moves back exactly twenty |
| PatientCombobox.Picker.Prev | src/components/PatientCombobox.tsx:87 | twenty back, never below 0, staying a multiple of 20 |
| PatientCombobox.Picker.Next | src/components/PatientCombobox.tsx:89 | twenty on, staying a multiple of 20; the button is disabled when the page held fewer than 20 patients (`NextDisabled`) |
| PatientCombobox.Picker.Choose | src/components/PatientCombobox.tsx:73 | the chosen patient becomes the value |
| PatientCombobox.Picker.Label | src/components/PatientCombobox.tsx:38-42 | the placeholder without a patient; with one, `JoinWords` of the HN and the name chosen with `\|\|` |

## Left out

- The backend procedures (create, update, cancel, soft delete, schedule, patient search, settings) and the Supabase client are not modelled. A request's outcome enters the model as a `failure: Option<string>` parameter.
- Rendering, query caching, the asynchronous flow of mutations, and the 400 ms debounce timer are not modelled. The debounced value is a parameter of `PatientCombobox.Picker.SetDebounced`.
- The database is modelled as an in-memory table of rows. `ILIKE` is modelled as a substring test on lower-cased text. The `%` and `_` wildcards and commas inside a search term (which change the filter string) are not modelled.
- The row order among rows with equal date and time is left to the sort. The database gives no order for them either.
- A failed range request (a page past the end) is modelled as an empty page.
- A page size of 0 is excluded by `requires` where it matters. The page uses 20.
- Case folding is ASCII only (`Text.Lower`). Strings are sequences of characters; `trim` removes the ECMAScript white-space and line-terminator set (`Text.IsSpace`), but UTF-16 code units (surrogate pairs) are not modelled.
- Dates are opaque ISO strings compared as strings. `toISODate`, time zones and the date-fns parsing in `timeSlots` are not modelled; the loop works on minutes since midnight.
- Timetable.AddDay: requires a non-empty list of columns. The page always has at least one, since the first column is the form's date.
- Timetable.UpdateDay: requires the index to be in range. JavaScript would extend the array, but the UI only passes indexes of existing columns.
- BookPage.BookForm.UpdateDayColumn: also requires the index to be above 0, because the first column's box is disabled.
- Setters that only copy a value into a field (tab, names, phone, dentist, time, services, note) are not modelled. Neither are the group-mode and flag switches of the summary page.
- The built-in fuzzy filtering of the command menu that hosts the services picker is not modelled, only `filtered`.
- The "N selected" button text of the services picker and the page labels of the manage page are display only and are not modelled.
