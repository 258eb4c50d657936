# Job application tracker — client-side core

This project models the logic of a job-application tracking web client
whose storage and authentication live in a hosted backend. What is left on
the client, and modelled here, is:

- the **record store** (`JobStore.Store`): the cached list of the user's
  applications plus `loading`, `filter` and `sortBy`, and the operations
  that patch the cache after a backend reply — fetch replaces the list,
  add prepends the returned row, update replaces the entries with the
  target identifier, delete drops them, and a failed call leaves the list
  as it was;
- the **derived views**: the status filter (`App.FilteredJobs`), the
  per-status tallies and filter buttons (`JobFilters`), the dashboard totals
  and success rate (`Dashboard`), and the badge colour and the notes and
  "Updated" conditions of a card (`JobCard`);
- the **job form** (`JobForm`): its starting values, its required-field
  rules, and what a submission does to the store;
- the **screen state** (`App.AppState`): opening and closing the form,
  the login/sign-up switch, and the confirmation before a delete.

The backend is a parameter: each store method takes the reply it receives
(`Reply<T>`: `Ok(value)` or `Err`) and returns the `Request` it sends, so
the claim that the list is fetched in ascending order exactly when `sortBy`
is `Asc` is a contract on the request. The clock is a parameter too (`now`,
`nowIso`). The window's confirmation prompt is a `confirmed` flag.

Files: `lists.dfy` (order-preserving `Filter`, the model of JavaScript's
`Array.prototype.filter`, with membership, position and counting lemmas),
`rows.dfy` (the row type, the five-state status, the tallies),
`job_store.dfy`, `job_filters.dfy`, `dashboard.dfy`, `job_card.dfy`,
`job_form.dfy`, `app.dfy`, one module each.

The predicates `JobFilters.ShowsCount`, `JobFilters.IsActive`,
`JobCard.ShowsNotes`, `JobCard.ShowsUpdated` and `App.ShowsEmptyState` are
the rendering conditions themselves and carry no contract of their own; the
table lists each with its condition, and the lemmas that relate one of them
to the rest of the model (`App.CountShownIffListNonEmpty`,
`JobFilters.AtMostOneActive`, `JobForm.NotesTextMatchesCard`,
`App.EmptyStateUnderAll`) are listed in the table too. `JobCard.ShowsUpdated` is
the only one that no lemma mentions.

A created record is cached exactly once only if its identifier was not
cached before: add prepends the returned row without looking for an entry
with the same identifier. `JobStore.PrependCounts` states both: one more
entry with that identifier in general, exactly one when there was none.

## Model

| member | source | states |
|---|---|---|
| Rows.ParseStatus | src/lib/supabase.ts:17 | a stored status name denotes one of the five states exactly when it is one of their names; any other text denotes none |
| Rows.CountsPartition | src/components/JobFilters.tsx:12-19 | the five per-status tallies add up to the length of the list |
| Rows.CountStatus | src/components/JobFilters.tsx:14-18 | a per-status tally never exceeds the length of the list |
| Lists.FilterMembers | src/App.tsx:28-31 | `filter` keeps an element exactly when it is in the list and passes the test |
| Lists.PositionsSelect | src/App.tsx:28-31 | the k-th kept element is the element at the k-th passing position of the input |
| Lists.PositionsMembers | src/App.tsx:28-31 | a position is among the kept ones exactly when its element passes the test |
| Lists.PositionsIncrease | src/App.tsx:28-31 | the kept positions are strictly increasing, so `filter` keeps the input's order |
| JobStore.CountId | src/store/jobStore.ts:85 | no entry has the identifier exactly when the count of entries with it is zero |
| JobStore.ReplaceById | src/store/jobStore.ts:85 | the updated list has the same length; each entry with the target identifier is the returned row, every other entry is unchanged in its place |
| JobStore.ReplaceByIdMatches | src/store/jobStore.ts:73-93 | when the returned row keeps its identifier, the number of entries with it is unchanged and each of them is the returned row |
| JobStore.ReplaceByIdIdempotent | src/store/jobStore.ts:85 | applying the same successful update twice gives the same list as once |
| JobStore.ReplaceAbsentId | src/store/jobStore.ts:85 | an update of an identifier that is not cached leaves the list unchanged |
| JobStore.RemoveById | src/store/jobStore.ts:105 | after delete an entry remains exactly when it was there and has another identifier; the list shrinks by the number of entries with the target identifier |
| JobStore.RemoveByIdPositions | src/store/jobStore.ts:105 | the remaining entries are exactly the old entries at the positions with another identifier, in their original order |
| JobStore.RemoveByIdIdempotent | src/store/jobStore.ts:105 | deleting twice equals deleting once; deleting an absent identifier changes nothing |
| JobStore.PrependCounts | src/store/jobStore.ts:63 | after add there is one more entry with the returned row's identifier, and exactly one if there was none |
| JobStore.Store.constructor | src/store/jobStore.ts:24-28 | the initial store has no jobs, is not loading, filters by "all" and sorts descending |
| JobStore.Store.SetJobs | src/store/jobStore.ts:29 | sets the list and nothing else |
| JobStore.Store.SetFilter | src/store/jobStore.ts:30 | sets the filter and nothing else |
| JobStore.Store.SetSortBy | src/store/jobStore.ts:31 | sets the sort order and nothing else |
| JobStore.Store.FetchJobs | src/store/jobStore.ts:33-50 | requests the user's rows ascending iff `sortBy` is `Asc`; on success the list becomes the returned rows (none when the data is null), on error it is kept; `loading` is false afterwards; filter and sort order untouched |
| JobStore.Store.AddJob | src/store/jobStore.ts:52-71 | sends the insert; on success the returned row is put in front of the old list, on error the list is kept; nothing else changes |
| JobStore.Store.UpdateJob | src/store/jobStore.ts:73-93 | sends the changes stamped with the clock reading; on success the list is the old one with every entry of that identifier replaced, on error it is kept; nothing else changes |
| JobStore.Store.DeleteJob | src/store/jobStore.ts:95-113 | sends the delete; on success every entry with the identifier is dropped, on error the list is kept; nothing else changes |
| JobFilters.StatusCountsOf | src/components/JobFilters.tsx:12-19 | `all` is the list length, each tally counts its state, each is at most `all`, and the five sum to `all` |
| JobFilters.FilterOptions | src/components/JobFilters.tsx:21-28 | six buttons: "all" with the list length, then the five states in order, each with its own name as value and caption and its own tally; the five tallies sum to the first |
| JobFilters.IsActive | src/components/JobFilters.tsx:44 | the condition itself: a button is highlighted when the filter equals its value |
| JobFilters.ShowsCount | src/components/JobFilters.tsx:50 | the condition itself: a button shows its tally when the tally is positive |
| JobFilters.AtMostOneActive | src/components/JobFilters.tsx:44 | two highlighted buttons are the same button |
| JobFilters.SelectFilterOption | src/components/JobFilters.tsx:42-47 | pressing a button sets the filter to its value, after which that button and no other is highlighted; the list and sort order are untouched |
| JobFilters.ParseSortOrder | src/components/JobFilters.tsx:64 | a sort value denotes an order exactly when it is that order's name |
| JobFilters.SortOptionsCoverOrders | src/components/JobFilters.tsx:62-69 | every entry of the sort selector denotes an order and each order has an entry |
| JobFilters.SelectSortOption | src/components/JobFilters.tsx:64 | choosing a selector entry sets `sortBy` to the order it names, which is `asc` or `desc`; the list and filter are untouched |
| Dashboard.StatsOf | src/components/Dashboard.tsx:8-14 | total is the list length, each figure counts its state; applied, interviews, offers and accepted together are the total minus the rejected, hence at most the total |
| Dashboard.NatToString | src/components/Dashboard.tsx:59 | a number is rendered as a non-empty string of digits with no leading zero (only 0 itself starts with '0') |
| Dashboard.NatToStringRoundTrip | src/components/Dashboard.tsx:59 | a number's rendered decimal text reads back as that number |
| Dashboard.NumeralUnique | src/components/Dashboard.tsx:59 | every digit string without a leading zero is the rendering of its value, so each number has exactly one such text |
| Dashboard.RateTenths | src/components/Dashboard.tsx:16 | the rate in tenths of a percent is within half a tenth of (offers + accepted) / total × 1000, and 0 for an empty list |
| Dashboard.RateTenthsAtMost | src/components/Dashboard.tsx:16 | a share of at most the whole is at most 100.0 percent |
| Dashboard.TenthsText | src/components/Dashboard.tsx:16 | the rate text is a whole-number numeral without leading zeros, a point and one digit, and reads back as the tenths it was made from |
| Dashboard.ReadsAsTenthsUnique | src/components/Dashboard.tsx:16 | at most one text is a numeral, a point and one digit reading as a given number of tenths |
| Dashboard.SuccessRate | src/components/Dashboard.tsx:16 | "0" for an empty list, otherwise the one-decimal text, without leading zeros, that reads as the rounded rate |
| Dashboard.SuccessRateInRange | src/components/Dashboard.tsx:16 | for any list the rate is between 0.0 and 100.0 |
| Dashboard.SuccessRateExample | src/components/Dashboard.tsx:16 | one offer among four applications gives "25.0" |
| Dashboard.StatCards | src/components/Dashboard.tsx:18-47 | four cards in the order total, pending, interviews, success rate, showing the total, the applied count and the interview count as numerals without leading zeros, and the rate followed by "%" |
| JobCard.StatusColor | src/components/JobCard.tsx:27-28 | any text that is not a state name gets the gray badge |
| JobCard.StatusColorsDistinct | src/components/JobCard.tsx:15-30 | Applied is blue, Interview yellow, Offer green, Rejected red, Accepted purple; none is gray and two states never share a colour |
| JobCard.ShowsNotes | src/components/JobCard.tsx:77 | the condition itself: the notes section appears when the notes are present and not empty |
| JobCard.ShowsUpdated | src/components/JobCard.tsx:90 | the condition itself: the "Updated" line appears when the two timestamps differ |
| JobForm.DatePart | src/components/JobForm.tsx:36 | the result is the prefix of the date before its first 'T' (all of it when it has none) and contains no 'T' |
| JobForm.DatePartIdempotent | src/components/JobForm.tsx:36 | cutting an already cut date changes nothing |
| JobForm.NotesText | src/components/JobForm.tsx:37 | the notes default is empty exactly when the stored notes are null or empty, and otherwise is those notes |
| JobForm.NotesTextMatchesCard | src/components/JobCard.tsx:77 | the edit form starts with notes exactly when the card shows a notes section |
| JobForm.DefaultValues | src/components/JobForm.tsx:31-43 | editing starts from the job's company, title, status, its notes (empty when null) and its date before the first 'T'; creating starts from status Applied and the clock's date before the first 'T', the other fields empty |
| JobForm.MissingFields | src/components/JobForm.tsx:93-164 | a field is reported missing exactly when it is required (every field but the notes) and blank |
| JobForm.RequiredMessage | src/components/JobForm.tsx:93-164 | company, title, status and date each have a non-empty required message; the notes, registered without a rule, have none |
| JobForm.RequiredMessagesDistinct | src/components/JobForm.tsx:93-148 | no two fields share a required message |
| JobForm.Messages | src/components/JobForm.tsx:93-164 | the messages shown after a failed submission are one non-empty message per blank required field, in form order, and there are none exactly when every required field is filled in |
| JobForm.Validate | src/components/JobForm.tsx:93-164 | the form submits exactly when company, title, status and date are all filled in, and then submits exactly what was entered; otherwise it reports the non-empty list of exactly the required fields left blank |
| JobForm.SubmitCall | src/components/JobForm.tsx:45-57 | without a user no call is made; editing calls update with the job's identifier and the data; creating calls add with the data and the user's identifier |
| JobForm.OnSubmit | src/components/JobForm.tsx:45-57 | without a user nothing changes and the form is not closed; otherwise exactly the chosen store call is made, with its effect on the list, and the form is closed |
| App.FilteredJobs | src/App.tsx:28-31 | no longer than the cache; a row is listed exactly when it is cached and the filter is "all" or its status name |
| App.FilterAllIsIdentity | src/App.tsx:28-29 | under "all" the list is the cache itself, order included |
| App.FilterByStatus | src/App.tsx:30 | under a status name the list is the rows with that status, as many as the status tally |
| App.FilterUnknownIsEmpty | src/App.tsx:30 | a filter that is neither "all" nor a status name lists nothing |
| App.FilteredPositions | src/App.tsx:28-31 | the listed rows are the cached rows at the matching positions, in cache order |
| App.OptionCountIsListLength | src/components/JobFilters.tsx:21-28 | the tally on each filter button equals the number of rows that button lists |
| App.Lower | src/App.tsx:92 | lower-casing keeps the length and folds each ASCII capital |
| App.EmptyHeading | src/App.tsx:92 | "No applications yet" under "all", otherwise "No ", the lower-cased filter and " applications" |
| App.EmptyHeadingForStatus | src/App.tsx:92 | under a status filter the heading names that status in lower case |
| App.LowerOfStatusName | src/App.tsx:92 | lower-casing a stored status name gives its lower-case spelling |
| App.EmptyDescription | src/App.tsx:95-97 | the invitation to add a first application under "all", otherwise "You don't have any applications with ", the lower-cased filter and " status." |
| App.EmptyDescriptionForStatus | src/App.tsx:95-97 | under a status filter the description names that status in lower case |
| App.ShowsEmptyState | src/App.tsx:84 | the condition itself: the empty state appears when the filtered list is empty |
| App.EmptyStateUnderAll | src/App.tsx:84 | under "all" the empty state shows exactly when the cache is empty |
| App.CountShownIffListNonEmpty | src/components/JobFilters.tsx:50 | a filter button shows its tally exactly when pressing it would list at least one application instead of the empty state |
| App.Toggled | src/App.tsx:60 | the mode switch always changes the mode |
| App.ToggleTwice | src/App.tsx:60 | switching twice returns to the starting mode |
| App.AppState.constructor | src/App.tsx:18-20 | login mode, form closed, nothing being edited |
| App.AppState.HandleEditJob | src/App.tsx:33-36 | the job becomes the one being edited and the form opens |
| App.AppState.HandleCloseForm | src/App.tsx:44-47 | the form closes and nothing is being edited |
| App.AppState.OpenJobForm | src/App.tsx:82 | the form opens; nothing else changes |
| App.AppState.ToggleAuthMode | src/App.tsx:60 | the auth mode becomes the other mode |
| App.AppState.HandleDeleteJob | src/App.tsx:38-42 | the store's delete is called, with its effect on the list, exactly when the user confirms |
| App.AppState.SubmitJobForm | src/App.tsx:122-124 | submitting the form opened on the edited job updates that job, or adds when none was edited, then closes the form; without a user nothing happens |

All of `App.AppState`'s methods keep the invariant that a job is being
edited only while the form is open.

## Left out

- The backend client and its configuration, the network calls, row-level
  security and the server-side ordering by applied date: replies are
  parameters and requests are returned values, so the model does not
  state that fetched rows are sorted or belong to the user.
- Authentication (the session hook and its asynchronous subscriptions):
  the current user is an `Option<User>` parameter.
- The loading spinner and sign-in screens of `App`, and the refetch when
  `user` or `sortBy` changes (src/App.tsx:22-26): asynchronous orchestration.
- Toasts and console logging: notifications with no effect on state.
- Rendering, layout, CSS classes other than the badge colours, and the
  form library's internals; the date formatting on cards.
- The clock: the current time is a parameter.
- JobStore.Store.UpdateJob: the changes are the five form fields; the
  partial-update record with optional fields is not modelled because its
  only caller passes all five.
- Dashboard.RateTenths: `toFixed(1)` on a binary float is modelled as
  integer rounding to the nearest tenth with halves up, so agreement at exact
  halfway cases is not claimed.
- App.Lower: only ASCII letters are folded; JavaScript's full Unicode
  lower-casing is not modelled.
- JobForm.Validate: the form library's own behaviour (touched state,
  asynchronous submission, the `isSubmitting` flag) is not modelled; only
  the required rules are.
- The status select (src/components/JobForm.tsx:59-65) offers exactly the
  five states, so the entered status is an `Option<Status>`; free text
  cannot be entered there.
- The intermediate `loading == true` state during a fetch is set and
  cleared within `FetchJobs`; concurrent observers of it are not modelled.
- Each store method is one atomic step: it reads the reply and patches the
  state in the same step. The source awaits the backend and then patches
  whatever the state is at reply time (src/store/jobStore.ts:62-64, 84-86,
  104-106). Overlapping calls are therefore not modelled: a fetch reply
  that arrives after an add overwrites the list without the added row, and
  of two overlapping fetches the first to finish clears `loading`
  (src/store/jobStore.ts:48, with the refetch at src/App.tsx:22-26).
- JobStore.Store.AddJob: the insert record is narrowed to the owner and the
  five form fields with non-null notes; the optional `id`, `created_at` and
  `updated_at` and null notes that the insert type admits
  (src/lib/supabase.ts:23-33) are not modelled, because the only caller, the
  form, sets none of them.
