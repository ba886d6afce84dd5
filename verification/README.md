# azure-vpn: directory reconciliation and VPN access, modelled in Dafny

azure-vpn keeps a cached copy of the Azure AD user directory (`users_azure`) and records which users may use which RADIUS servers (`user_radius_access`). This project models the core of it as pure functions over immutable values:

- **On-demand sync** (`SyncRoute`, `POST /api/sync-users`). It diffs the fetched directory list against the cached principal names. Inside the callback passed to `transaction` it deletes the grants of removed users, replaces the roster and appends a `sync_events` row. It answers with the four counts, or with a 500 when the fetch fails.
- **Scheduled sync** (`ScheduledSync`). A plain replace of the roster that touches neither grants nor events. It is started and stopped through one module-level interval handle. Timer calls are recorded as a list, so "exactly one interval armed" can be stated.
- **User listing** (`UsersRoute`, `GET /api/users`). The roster is left-joined with the grants and grouped per user with `GROUP_CONCAT(DISTINCT server id)`. Rows are ordered by display name. The comma-joined text is read back with `split(",").map(Number)`, and the access flag is derived from it.
- **Dashboard list logic** (`Dashboard`). Case-insensitive search, ten users per page, `Math.ceil` page count, previous/next buttons, the page reset on typing, the VPN-access card and the toast after a manual sync.
- **Access dialog** (`UserAccessManagement`, module `AccessDialog`). The allowed-server list loaded for a user, the switch state per server, and the full list sent when a switch is flipped.
- **RADIUS server page** (`RadiusForm`). Required-field validation, the add-guard with its form reset, and the per-server field edits.

Shared modules:

- `Seqs`: filter, subsequence, distinct.
- `Decimal`: JavaScript `Number` on decimal text, decimal printing, split and join on one separator.
- `Directory`: the three tables and the fetch outcome.
- `Options`: an optional value.

The directory fetch is an input (`Fetch`), and so are the HTTP session check and the database's reachability. The scheduled sync's timers are modelled as a record of calls.

Three facts about the code shape the model:

- The code does not collapse duplicate principal names from the directory. The model keeps every fetched row, and the idempotence lemma holds without assuming distinct names.
- The code has no guard against a manual sync overlapping a scheduled one.
- The scheduled sync is a roster replace, not a full reconciliation: it cascades no grant deletions and logs no event.

## Model

| member | source | states |
|---|---|---|
| SyncRoute.ComputeDiff | app/api/sync-users/route.ts:15-22 | added and updated are exactly the fetched users whose name is, or is not, cached; together they are a permutation of the fetched list; removed holds each cached name that was not fetched, as often as it is cached; all three keep source order |
| SyncRoute.ApplySync | app/api/sync-users/route.ts:24-49 | the roster becomes the fetched list, a grant survives iff it was there and its name is not removed, and exactly one event with the four counts is appended |
| SyncRoute.Transaction | app/api/sync-users/route.ts:24-49 | running the statements one by one yields the single-step transition: grants of every removed name are gone, the roster is the fetched list, one event is appended |
| SyncRoute.Post | app/api/sync-users/route.ts:8-73 | a failed fetch leaves the store untouched and answers 500 with the fixed error and the fetch's message; a successful one makes the roster the fetched list, answers with counts where added + updated = total, logs the same four numbers, and keeps a grant iff its name was fetched or was never cached |
| SyncRoute.CascadeExact | app/api/sync-users/route.ts:24-29 | after a run no grant names a removed user, every other grant keeps its multiplicity, and the surviving grants keep table order |
| SyncRoute.Idempotent | app/api/sync-users/route.ts:15-48 | a second run with the same list adds and deletes nothing, counts every user as updated, and leaves roster and grants as they were |
| SyncRoute.EmptyDirectory | app/api/sync-users/route.ts:15-48 | an empty directory list deletes every cached user and all their grants and leaves an empty roster |
| SyncRoute.ResponseBody | app/api/sync-users/route.ts:56-71 | a completed run answers with exactly the message and the four count fields, carrying its total and deleted counts; a failed run answers with exactly an error and the failure's details |
| SyncRoute.PostAnswer | app/api/sync-users/route.ts:56-71 | the status is 200 iff the fetch succeeded; then the body has the five fields and `totalUsers` is the number fetched; otherwise the status is 500 and the body is the fixed error with the fetch's message |
| SyncRoute.NoUsersCount | app/api/sync-users/route.ts:56-71 | no answer, success or failure, has a `usersCount` field |
| SyncRoute.ResponseMatchesEvent | app/api/sync-users/route.ts:45-63 | the answer and the logged sync event carry the same added, updated, deleted and total counts |
| Directory.NameSet | app/api/sync-users/route.ts:17-18 | the set holds exactly the names of the list |
| Directory.GrantsOutside | app/api/sync-users/route.ts:26-29 | a grant remains iff it was there and its name is not among the deleted names |
| Directory.GrantsOutsideStep | app/api/sync-users/route.ts:26-29 | one more per-name DELETE equals deleting for the enlarged name set |
| Directory.GrantsOutsideKeepsCount | app/api/sync-users/route.ts:26-29 | a grant whose name is not deleted keeps its number of duplicate rows |
| ScheduledSync.SyncUsers | lib/scheduledSync.ts:4-29 | grants and sync events are never touched; a fetched list becomes the roster; a failed fetch leaves the store as it was |
| ScheduledSync.Start | lib/scheduledSync.ts:33-44 | the handle holds a fresh interval; earlier calls are kept; the last two calls are one immediate sync then an interval of 300000 ms |
| ScheduledSync.StartArmsOne | lib/scheduledSync.ts:33-44 | from any consistent state, after start exactly one interval is armed, it is the one the handle holds, and exactly one more sync was dispatched |
| ScheduledSync.InitialValid | lib/scheduledSync.ts:31 | the null handle at load time is consistent with no armed interval |
| ScheduledSync.Stop | lib/scheduledSync.ts:46-52 | the handle becomes null; with no handle nothing happens; otherwise exactly that interval is cleared |
| ScheduledSync.StopDisarms | lib/scheduledSync.ts:46-52 | after stop no interval is armed and the state is consistent |
| ScheduledSync.StopIdempotent | lib/scheduledSync.ts:46-52 | stopping twice is stopping once |
| ScheduledSync.ScheduledVersusOnDemand | lib/scheduledSync.ts:10-23 | on the same store and list, scheduled and on-demand runs leave the same roster, but only the on-demand run drops grants and logs an event |
| ScheduledSync.ScheduledSyncHidesRemoval | lib/scheduledSync.ts:10-23 | after a scheduled run removed a user, an on-demand run with the same list deletes nothing and every grant of the removed user survives |
| UsersRoute.Get | app/api/users/route.ts:9-56 | no session gives 401; an unreachable store gives 500; otherwise one formatted user per query row |
| UsersRoute.UnauthorizedIgnoresStore | app/api/users/route.ts:12-15 | without a session the answer does not depend on the store |
| UsersRoute.NameLeqTotal | app/api/users/route.ts:36-37 | any two display names are ordered one way or the other |
| UsersRoute.NameLeqTransitive | app/api/users/route.ts:36-37 | the display-name order is transitive |
| UsersRoute.SortByName | app/api/users/route.ts:36-37 | the rows come out ordered by display name and are a permutation of the input |
| UsersRoute.GroupConcat | app/api/users/route.ts:29-45 | the text is NULL iff there are no ids; otherwise it is non-empty and splitting it on commas and reading each piece gives the ids back |
| UsersRoute.Query | app/api/users/route.ts:19-38 | one row per distinct roster user, each from the roster and none twice, ordered by display name, with NULL servers iff no grant names the user |
| UsersRoute.ServerIdsOf | app/api/users/route.ts:29-33 | an id is collected for a user iff a grant row joins that user to that id |
| UsersRoute.GrantedIds | app/api/users/route.ts:29-33 | the grouped ids are distinct and are exactly the ids granted to the user |
| UsersRoute.Format | app/api/users/route.ts:43-47 | identity fields are copied; there are no servers and no access iff the grouped text is NULL or empty; access iff the server list is non-empty |
| UsersRoute.EveryUserListed | app/api/users/route.ts:24-38 | every roster user is listed, grants or not, and every listed user is on the roster, and no user is listed twice |
| UsersRoute.ListedByName | app/api/users/route.ts:36-37 | the listing is ordered by display name |
| UsersRoute.FormattedRowServers | app/api/users/route.ts:43-47 | reading back the comma-joined ids gives exactly those ids as numbers, and access iff there was at least one |
| UsersRoute.NumsOfGrantedIds | app/api/users/route.ts:29-45 | the numbers read back are exactly the user's granted ids, each once, and non-empty iff some grant exists |
| UsersRoute.ServersAreGrants | app/api/users/route.ts:24-47 | each listed user's servers are exactly the distinct ids granted to their principal name, and the access flag holds iff some grant exists |
| Decimal.Number | app/api/users/route.ts:45 | the result is NaN iff the text is not all digits; the empty text is 0 |
| Decimal.Split | app/api/users/route.ts:45 | splitting gives at least one piece and no piece contains the separator |
| Decimal.SplitJoin | app/api/users/route.ts:45 | splitting the join of separator-free pieces gives the pieces back |
| Decimal.JoinSplit | app/api/users/route.ts:45 | joining the pieces of a split gives the text back |
| Decimal.EncodedIdsRoundTrip | app/api/users/route.ts:29-45 | ids printed in decimal, comma-joined, split and read with Number come back as the same ids |
| Decimal.LeadingZeroIgnored | app/radius-management/page.tsx:193 | a typed number keeps its value when a leading zero is added |
| Decimal.NumberOfDecimal | components/UserAccessManagement.tsx:107 | Number of an id's decimal text is that id |
| Decimal.DecimalInjective | components/UserAccessManagement.tsx:107 | different ids have different decimal texts |
| Dashboard.Lower | components/DashboardClient.tsx:56-60 | lowercasing keeps the length and maps each character on its own |
| Dashboard.FilteredUsers | components/DashboardClient.tsx:56-60 | every kept user matches the search, every matching user is kept, and the kept users are a subsequence of the loaded ones |
| Dashboard.EmptySearchKeepsAll | components/DashboardClient.tsx:56-60 | an empty search term keeps every user in order |
| Dashboard.Slice | components/DashboardClient.tsx:62 | JavaScript's `slice`: negative bounds count from the end, bounds are clamped to the list, an end before the start gives the empty list, and an end of 0 always does |
| Dashboard.Page | components/DashboardClient.tsx:54-62 | a page holds at most ten users, and page p is the p-th block of ten of the filtered list |
| Dashboard.TotalPages | components/DashboardClient.tsx:63 | the page count is the least number of ten-user pages that holds all filtered users |
| Dashboard.FirstPagesArePrefix | components/DashboardClient.tsx:62-63 | pages 1..k laid end to end are the first 10k filtered users |
| Dashboard.PagesCoverFiltered | components/DashboardClient.tsx:62-63 | pages 1..totalPages together are exactly the filtered list, so every user is on exactly one page |
| Dashboard.PressPrevious | components/DashboardClient.tsx:233-237 | from page 2 or more previous goes one page back; from page 2 or less it lands on page 1 |
| Dashboard.PressNext | components/DashboardClient.tsx:244-248 | next as written: one page on while the page is below the page count, otherwise onto the page count itself |
| Dashboard.NextLeavesPageZero | components/DashboardClient.tsx:244-248 | with no matching users next moves page 1 to page 0, and page 0 is empty whatever is loaded later |
| Dashboard.PressNextFixed | components/DashboardClient.tsx:244-248 | corrected next: the page moves by at most one, it moves iff a next page exists, and a page within 1 to max(page count, 1) stays within it |
| Dashboard.PageCount | components/DashboardClient.tsx:56-63 | there are no pages iff no loaded user matches the search |
| Dashboard.Step | components/DashboardClient.tsx:183-248 | typing a search sets it and returns to page 1; the buttons never change the search; previous goes back one page but not below 1; next as written goes on one page while there is one, otherwise onto the page count |
| Dashboard.StepBelowPageOne | components/DashboardClient.tsx:183-248 | from a page of 1 or more, an action leaves the page below 1 iff it is next while no user matches, and then the page is 0 |
| Dashboard.StepFixed | components/DashboardClient.tsx:183-248 | as the written step, except that next is the corrected next |
| Dashboard.StepFixedKeepsPageInRange | components/DashboardClient.tsx:183-248 | with the corrected next every action keeps the page at least 1, and within the page count of the current search when it started there |
| Dashboard.VpnAccessCount | components/DashboardClient.tsx:171 | the card never counts more users than are loaded |
| Dashboard.VpnCardCountsGrantedUsers | components/DashboardClient.tsx:171 | over a successful listing the card counts the distinct roster users holding at least one grant |
| Dashboard.SyncToast | components/DashboardClient.tsx:85-104 | a non-200 answer shows the destructive error toast; a 200 answer shows the non-destructive completion toast, whose text always reads "undefined" users |
| Dashboard.SyncToastFixed | components/DashboardClient.tsx:85-104 | the corrected toast has the same title and error cases as the written one, and a completed sync's toast prints its `totalUsers` in decimal |
| Dashboard.SyncToastShowsUndefined | components/DashboardClient.tsx:85-94 | every successful sync is announced as having synchronised "undefined" users |
| Dashboard.SyncToastFixedShowsTotal | components/DashboardClient.tsx:85-94 | the corrected toast announces the number of users now in the roster, and a failed sync shows the error toast |
| AccessDialog.Toggle | components/UserAccessManagement.tsx:58-59 | switching on appends the id and keeps the list before it; switching off removes every copy of the id, keeps the rest in order with their multiplicities, and leaves every other id's membership alone |
| AccessDialog.FilterKeepsOthers | components/UserAccessManagement.tsx:59 | removing one id keeps every other id's number of occurrences |
| AccessDialog.ToggleRequest | components/UserAccessManagement.tsx:58-71 | the request names the user and carries the whole new list, in which the flipped id is present iff it was switched on |
| AccessDialog.OnAccessLoaded | components/UserAccessManagement.tsx:50-56 | before a record loads the list is kept; after, an id is allowed iff the record carries a list holding it |
| AccessDialog.IsEnabled | components/UserAccessManagement.tsx:107 | a switch is on only for an all-digit server id, and for the decimal text of n it is on iff n is allowed |
| AccessDialog.LoadedSwitches | components/UserAccessManagement.tsx:50-56 | after a record loads, a server's switch is on iff its id is in the loaded list; a record without the list turns every switch off |
| AccessDialog.ToggleFlipsOneSwitch | components/UserAccessManagement.tsx:58-116 | in the list sent, the flipped server is allowed iff it was switched on and every other server is as before; the switches shown once the re-fetched record carries that list differ from the old ones in exactly the flipped switch |
| AccessDialog.CheckThenUncheck | components/UserAccessManagement.tsx:59 | switching on then off equals switching off, and returns the original list when the id was absent |
| RadiusForm.Collect | app/radius-management/page.tsx:66-74 | a field gets its message iff it was checked and is falsy, and it gets its own message |
| RadiusForm.AllChecked | app/radius-management/page.tsx:68-73 | every required field is checked |
| RadiusForm.ValidateForm | app/radius-management/page.tsx:66-77 | the error keys are exactly the falsy required fields, each with its message; the form is valid iff all six required fields are truthy |
| RadiusForm.CollectIgnoresDescription | app/radius-management/page.tsx:66-77 | the collected messages do not depend on the description |
| RadiusForm.DescriptionNeverChecked | app/radius-management/page.tsx:66-77 | forms that differ only in the description validate alike |
| RadiusForm.ZeroPortIsMissing | app/radius-management/page.tsx:70 | a port of 0, which an emptied number input yields, is reported as missing |
| RadiusForm.EmptyTextsReportFive | app/radius-management/page.tsx:34-77 | a form with all required texts empty and a set port, such as the blank form, reports the five text fields and not the port |
| RadiusForm.AddServer | app/radius-management/page.tsx:79-122 | an invalid form posts nothing and keeps the form with its messages; a valid form is posted with the messages cleared; only a successful post resets the form to blank |
| RadiusForm.PostedFormsAreValid | app/radius-management/page.tsx:79-94 | nothing is posted unless every required field is filled |
| RadiusForm.ApplyEdit | app/radius-management/page.tsx:161-227 | an edit sets its own field to the typed text, or to Number of it for the port, and leaves every other field as it was |
| RadiusForm.EditServers | app/radius-management/page.tsx:273-376 | the list keeps its length, order and ids; servers with the edited id get the edit, all others are unchanged |
| RadiusForm.EditTouchesOneField | app/radius-management/page.tsx:273-376 | an edit changes only the targeted field of the targeted server |

## Left out

- Transaction atomicity and rollback: the transaction helper in lib/db is not part of this model. The callback ignores the `connection` it is given and issues every statement through the module-level `query`, and MySQL commits implicitly at `TRUNCATE`, so the statements need not be atomic; the model treats them as one step. The database failing inside the transaction is not modelled either, so `Post` fails only when the fetch fails.
- The database reading the cached roster (line 15 of the sync route) is assumed to succeed.
- Ordering of concurrent writes is not modelled.
- The time stamp of a `sync_events` row is not modelled: the database sets it.
- `fetchAzureUsers` is an input to the model. It returns only the `value` of the first Graph response page (lib/azure.ts:29-31), so a `Fetched` list stands for that first page. Credentials are not modelled.
- Timers are not modelled. The scheduled sync is dispatched, not awaited. Nothing stops a manual sync from overlapping a scheduled one; the model records the timer calls in order and has no notion of time or concurrency.
- Logging (`console.log`, `console.error`) is not modelled.
- UsersRoute.SortByName: compares code points. MySQL's collation (case-insensitive by default) is not modelled, so names differing only in case may come out in another order.
- UsersRoute.GrantedIds: MySQL leaves the order inside `GROUP_CONCAT` open. The model fixes it to first appearance in the grant table. The `group_concat_max_len` truncation of long id lists is not modelled.
- Decimal.Number: only decimal digit strings are read. Leading or trailing blanks, signs, fractions, exponents and hex forms of JavaScript's `Number` are not modelled, and all of them read as NaN here. The GET endpoint only ever splits text it printed itself from naturals.
- Dashboard.Lower: lowercases ASCII letters only; Unicode case mapping is not modelled.
- AccessDialog.Toggle: server ids are naturals. A server whose id text is not a number would send NaN (serialised as `null`), and that case is not modelled.
- The allowed-users endpoint that stores the list sent by `ToggleRequest` is not part of this model. Neither is the request's outcome: the dialog only re-fetches afterwards.
- The RADIUS server endpoints, `RadiusServerManagement.tsx` and `server.js` are not part of this model.
- `handleUpdateServer` (a plain PUT of the edited server) is not modelled.
- Toast texts are modelled only for the sync toast. Other toasts and all rendering are left out.
- Directory.GrantsOutside: compares principal names exactly. Under MySQL's default case-insensitive collation the `DELETE` of route.ts:27 also removes grants whose name differs only in case, while the JavaScript sets of route.ts:17-22 compare exactly; that case is not modelled.
- UsersRoute.ServerIdsOf: joins on exact name equality. Under a case-insensitive collation the `JOIN` and `GROUP BY` of users/route.ts:33-35 may match, or merge, names that differ only in case; that case is not modelled.
- RadiusForm.ApplyEdit: the port is read with the model's `Number`, which gives NaN for texts such as "-1", "1.5" and "1e3". A number input can hold them, JavaScript reads them as truthy numbers and `validateForm` (page.tsx:70) accepts them, whereas the model reports "Database port is required".
- AccessDialog.ToggleFlipsOneSwitch: the allowed-users endpoint storing the list and returning it on the re-fetch is not modelled. Until the re-fetched record arrives the switches shown keep their old positions.
- Unique-key enforcement on the tables is not modelled: rows are sequences, and duplicate rows are kept as the code would send them.

## Findings

| source | as written | input that shows it | evidently intended | confidence | as-written member | corrected member |
|---|---|---|---|---|---|---|
| components/DashboardClient.tsx:244-248 | "Next" sets the page to `min(page + 1, totalPages)` and is disabled only when `page === totalPages` | a search that matches no user: totalPages is 0, the button is enabled on page 1, and pressing it moves to page 0, whose slice `(-10, 0)` is empty even after users appear | move on only while a next page exists, never below page 1 | not executed | Dashboard.StepBelowPageOne | Dashboard.StepFixedKeepsPageInRange |
| components/DashboardClient.tsx:89-94 | the success toast prints `data.usersCount` | any successful sync: the answer carries `usersAdded`, `usersUpdated`, `usersDeleted` and `totalUsers` but no `usersCount`, so the toast reads "Se han sincronizado undefined usuarios con Azure AD." | print the answer's `totalUsers` | not executed | Dashboard.SyncToastShowsUndefined | Dashboard.SyncToastFixedShowsTotal |
