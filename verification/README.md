# 15 Palle customer verification — a Dafny model

This project models the demo backend of the 15 Palle club's customer
verification app, together with the decision logic of its owner dashboard
and sign-in page. The backend is the mock API in `lib/mock-api.ts`, which
keeps customers and the session in browser storage.

The model covers:
- the customer store and its one-time seeding;
- the directory query `customers.list`, which filters by status and
  search, sorts newest first and returns one page;
- `getById` and the three single-record mutations `verify`, `revoke` and
  `updateNotes`;
- the session gate: `loginCustomer`, `loginOwner`, `logout` and `me.get`;
- the owner dashboard: the tab and search filter, the selection
  checkboxes, the status counters, bulk verification, the
  create-customer guard and the CSV export;
- the sign-in page: the form checks, the customer login dispatch and the
  demo owner button.

Storage is a value, `Storage(customers, authUser)`. Its two fields stand
for the "customers" and "authUser" keys and are `None` when a key is
absent. Each API call is a pure function of the storage and its
arguments. It returns the new storage (when it can change) together with
its value; a call that can throw returns a `Result`, and a thrown error
becomes `Err`. Timestamps are integers (milliseconds since the epoch). The
current time is an explicit `now` parameter.

Modules, one per file:
- `Wrappers`: `Option` and `Result`.
- `Seqs`: filter, map and subsequence facts.
- `Text`: `toLowerCase`, `includes`, `join` and `split`.
- `Store`: records, seed data, `initializeStorage`.
- `Directory`: `list` and `getById`.
- `Workflow`: `verify`, `revoke` and `updateNotes`.
- `Auth`: login, logout and `me`.
- `Dashboard`: the owner dashboard page.
- `CsvExport`: the dashboard's CSV file.
- `LoginPage`: the sign-in page.
- `Scenarios`: worked runs over any records shaped like the seed data
  (six records, created oldest first) and, for the status totals and the
  verify-one-customer flow, over the seed data itself.

Behaviours of the code that a reader might not expect:
- There is no `customers.create`. The dashboard calls it anyway, so every
  create form that passes the guard ends in the error branch.
- `getById` returns null for an unknown id. It does not raise a not-found
  error.
- `loginCustomer` seeds storage before it checks the password, so even a
  failed login leaves seeded storage behind.
- `list` passes out-of-range or negative pages straight to JavaScript's
  `slice`. The model uses the same relative-index rules, so `list` has no
  precondition on `page` or `pageSize`.

## Model

| member | source | states |
|---|---|---|
| Store.SeedConsistent | lib/mock-api.ts:23-78 | There are six seed records, and in each one `verified` holds exactly when `verifiedAt` is present |
| Store.SeedVerified | lib/mock-api.ts:23-78 | The verified seed records are exactly the first two |
| Store.SeedPending | lib/mock-api.ts:23-78 | The pending seed records are exactly the last four |
| Store.SeedDistinct | lib/mock-api.ts:23-78 | No two seed records share an id or an email |
| Store.Initialize | lib/mock-api.ts:81-87 | Seeding writes the six seed records only when the customers key is absent, never touches the session, and afterwards the key is always present |
| Store.InitializeIdempotent | lib/mock-api.ts:81-87 | Calling `initializeStorage` a second time changes nothing |
| Store.Load | lib/mock-api.ts:163-165 | The records a call reads are the stored ones, or the seed when nothing was stored |
| Store.LoadConsistent | lib/mock-api.ts:81-87 | Reading through seeding gives records that all keep the verified/verifiedAt invariant, if the stored ones did |
| Store.SaveLoad | lib/mock-api.ts:216 | Writing back the records just read leaves seeded storage unchanged |
| Store.FindById | lib/mock-api.ts:207 | `find` by id gives the first position holding the id, or none exactly when no record has it |
| Directory.Filtered | lib/mock-api.ts:167-178 | A record survives the two filters exactly when it has the requested flag (if one was given) and its lower-cased name or email contains the lower-cased query (if the query is non-empty) |
| Directory.FilteredIsOneFilter | lib/mock-api.ts:167-178 | The two filters together keep exactly the selected records, every copy of each, in storage order, so `total` counts repeated records too |
| Directory.FilteredIsSubsequence | lib/mock-api.ts:167-178 | The filters only delete records and never reorder them |
| Directory.SortNewestFirst | lib/mock-api.ts:181 | The sort is a permutation of its input with `createdAt` non-increasing |
| Directory.SortStable | lib/mock-api.ts:181 | For every timestamp, the records carrying it keep their storage order, so the sort is stable |
| Directory.PageWindow | lib/mock-api.ts:184-186 | From page 1 on, the slice is the window `[(page-1)*pageSize, page*pageSize)` clipped to the list |
| Directory.PageSliceBound | lib/mock-api.ts:184-186 | From page 1 on, a page holds at most `pageSize` records |
| Directory.PageSliceWithin | lib/mock-api.ts:184-186 | A page is one contiguous run of the list it was cut from, for any page and page size; it therefore holds only records of that list and keeps newest-first order |
| Directory.Ordered | lib/mock-api.ts:167-181 | The sorted matches are as many as the matches, all of them selected records from storage, newest first |
| Directory.Query | lib/mock-api.ts:152-194 | `page` and `pageSize` are echoed with defaults 1 and 20; `total` is the number of matches; every returned record is a stored record that matches; `data` is newest first and no longer than `pageSize` from page 1 on |
| Directory.QueryWindow | lib/mock-api.ts:183-192 | `data` is exactly the clipped window of the filtered, sorted records |
| Directory.PageItem | lib/mock-api.ts:183-192 | Item `i` of page `page` is record `(page-1)*pageSize + i` of the filtered, sorted records |
| Directory.PageOf | lib/mock-api.ts:183-192 | Every matching record sits on some page: the `k`-th is item `k % pageSize` of page `k / pageSize + 1` |
| Directory.OrderedIgnoresPaging | lib/mock-api.ts:167-181 | Filtering and sorting do not depend on `page` or `pageSize` |
| Directory.TotalIgnoresPaging | lib/mock-api.ts:190 | `total` does not depend on which page is requested |
| Directory.StatusTotalsSplit | lib/mock-api.ts:168-170 | For any search, the verified total plus the pending total equals the total with no status filter |
| Directory.List | lib/mock-api.ts:152-194 | `list` seeds storage and is the query over the records read: `total` is the number of matches, and `data` holds matching stored records, newest first |
| Directory.GetById | lib/mock-api.ts:196-201 | `getById` returns the first record with the id, or null exactly when no record has it; storage is only seeded |
| Workflow.VerifyRecords | lib/mock-api.ts:203-218 | An unknown id is "Customer not found". Otherwise only the first record with the id changes: it becomes verified with `verifiedAt = now`, and all its other fields stay. Ids, length and order are kept, and so is the invariant |
| Workflow.RevokeRecords | lib/mock-api.ts:220-235 | An unknown id is "Customer not found". Otherwise only the first record with the id changes: it becomes unverified with `verifiedAt` absent, and all its other fields stay. Ids, length and order are kept, and so is the invariant |
| Workflow.UpdateNotesRecords | lib/mock-api.ts:237-250 | An unknown id is "Customer not found". Otherwise only the notes of the first record with the id change. Ids, length and order are kept, and so is the invariant |
| Workflow.Commit | lib/mock-api.ts:209-217 | A failed update leaves only the seeded storage; a successful one stores the updated records and returns the changed record |
| Workflow.Verify | lib/mock-api.ts:203-218 | `verify` throws exactly for an unknown id, with storage merely seeded. Otherwise it returns the record with this id, verified at `now`, and the stored ids are unchanged; the session is untouched either way |
| Workflow.Revoke | lib/mock-api.ts:220-235 | `revoke` throws exactly for an unknown id, with storage merely seeded. Otherwise it returns the record unverified and without `verifiedAt`, and the stored ids are unchanged |
| Workflow.UpdateNotes | lib/mock-api.ts:237-250 | `updateNotes` throws exactly for an unknown id, with storage merely seeded. Otherwise it returns the record carrying the new notes, and the stored ids are unchanged |
| Workflow.MutationsPreserveConsistency | lib/mock-api.ts:203-250 | `verify`, `revoke` and `updateNotes` keep "verified exactly when verifiedAt is present" for every stored record |
| Workflow.RevokeUndoesVerify | lib/mock-api.ts:203-235 | Revoking right after verifying a pending customer restores the records exactly |
| Workflow.VerifyIdempotent | lib/mock-api.ts:203-218 | Verifying twice at the same instant equals verifying once |
| Workflow.UpdateNotesLastWins | lib/mock-api.ts:237-250 | Two note updates equal the second one alone |
| Auth.FindByEmail | lib/mock-api.ts:99 | `find` by email gives the first position with exactly that email, or none when no record has it |
| Auth.LoginCustomer | lib/mock-api.ts:91-114 | Login succeeds exactly when the password has at least 8 characters and some stored email equals the given one. The session then copies id, email and name from the first such record, with role customer. A failure is "Invalid credentials" and leaves only seeded storage |
| Auth.LoginOwner | lib/mock-api.ts:116-131 | Owner login succeeds exactly for `owner@15palle.it` with a password of at least 8 characters, signing in as `owner-001` with role owner. A failure changes nothing |
| Auth.Logout | lib/mock-api.ts:133-137 | Logout removes the session and keeps the customers |
| Auth.Me | lib/mock-api.ts:142-147 | `me.get` returns a user exactly when a session is stored |
| Auth.SessionLifecycle | lib/mock-api.ts:91-147 | After a successful login `me.get` returns the signed-in user; after logout it returns null |
| Auth.FailedLoginKeepsSession | lib/mock-api.ts:94-131 | A rejected login leaves the previous session as it was |
| Auth.SeedCustomerLogin | lib/mock-api.ts:91-114 | On fresh storage, `luca.ferrari@example.com` with any password of at least 8 characters signs in as `cust-003` |
| Dashboard.LoadCustomers | app/owner/dashboard/page.tsx:75-78 | Loading seeds storage and reads at most 100 customers: the newest min(100, n) stored records, newest first, so every record when there are at most 100 |
| Dashboard.FilterCustomers | app/owner/dashboard/page.tsx:80-97 | A loaded record is shown exactly when the tab admits it and, for a non-empty search, its lower-cased name or email contains the lower-cased search |
| Dashboard.FilterCustomersIsOneFilter | app/owner/dashboard/page.tsx:80-97 | The tab and the search box together keep exactly the shown records, every copy of each, in loaded order |
| Dashboard.FilterCustomersIsSubsequence | app/owner/dashboard/page.tsx:80-97 | The shown list keeps the loaded order: it is a subsequence of the loaded records |
| Dashboard.TabAgreesWithList | app/owner/dashboard/page.tsx:84-93 | The "verified" and "unverified" tabs select exactly what `list` selects with the matching `verified` argument |
| Dashboard.CountsPartition | app/owner/dashboard/page.tsx:250-251 | The verified count plus the pending count equals the number of loaded records |
| Dashboard.ToggleSelect | app/owner/dashboard/page.tsx:246-248 | Toggling a selected id removes every occurrence of it and keeps every copy of the other ids, in order; toggling an unselected id appends it at the end |
| Dashboard.ToggleTwice | app/owner/dashboard/page.tsx:246-248 | Toggling an unselected id twice restores the selection |
| Dashboard.ToggleSelectAll | app/owner/dashboard/page.tsx:238-244 | A selection as long as the shown list is cleared; any other becomes the shown ids, in order |
| Dashboard.SelectAllTwice | app/owner/dashboard/page.tsx:238-244 | From a selection whose length differs from the shown list, pressing select-all twice selects every shown id and then clears the selection |
| Dashboard.SelectAllComparesLengthsOnly | app/owner/dashboard/page.tsx:238-244 | Select-all compares lengths only, so a same-length selection of other ids is cleared, not replaced |
| Dashboard.BulkVerify | app/owner/dashboard/page.tsx:141-157 | After a failed bulk verify the selection stays; after a successful one it is empty and the reload leaves storage seeded; the session is untouched |
| Dashboard.VerifyStep | lib/mock-api.ts:203-218 | One `verify` call succeeds exactly for a stored id and then stores the record-level update; otherwise storage is only seeded |
| Dashboard.EachIsVerifyAll | app/owner/dashboard/page.tsx:143 | The chain of `verify` calls over storage matches the same run over the records read |
| Dashboard.AllSucceedsIffKnown | app/owner/dashboard/page.tsx:143 | The run gets through exactly when every selected id belongs to a stored record |
| Dashboard.AllKeepsIds | app/owner/dashboard/page.tsx:143 | The run adds, removes and reorders no record |
| Dashboard.AllStamps | app/owner/dashboard/page.tsx:143 | A run that gets through leaves the first record of every selected id verified at `now` |
| Dashboard.AllFrame | app/owner/dashboard/page.tsx:143 | Records whose id was not selected are untouched, whether or not the run stopped early |
| Dashboard.AllSameButStatus | lib/mock-api.ts:203-218 | A run of `verify` calls changes only `verified` and `verifiedAt`, keeps the record count, and never touches a record that repeats an earlier record's id |
| Dashboard.AllStopsAtFirstFailure | app/owner/dashboard/page.tsx:143 | When the `k`-th id is the first unknown one, the result is that of the first `k` ids and the run reports failure |
| Dashboard.BulkVerifySucceeds | app/owner/dashboard/page.tsx:141-157 | Bulk verify succeeds exactly when every selected id exists, and then every selected customer is verified at `now`; records not selected, and records repeating an earlier record's id, are untouched; every record keeps all fields but `verified` and `verifiedAt`; none is added, removed or reordered |
| Dashboard.BulkVerifyStopsAtFirstFailure | app/owner/dashboard/page.tsx:141-157 | On the first unknown id, the verifications before it stay stored, later ids are not attempted and the selection is kept |
| Dashboard.HandleCreateUser | app/owner/dashboard/page.tsx:208-236 | An empty name or email is a validation error; any other form ends in the error branch because the create call does not exist; storage is never touched |
| CsvExport.Fields | app/owner/dashboard/page.tsx:178-186 | A row has the seven columns in header order: name, email, phone or "", the formatted creation date, "Yes"/"No", the formatted verification date or "", notes or "" |
| CsvExport.Export | app/owner/dashboard/page.tsx:177-192 | Exporting fails exactly for an empty list; otherwise the file starts with the header line and a newline |
| CsvExport.HeaderColumns | app/owner/dashboard/page.tsx:188-190 | The header line splits on commas back into the seven column names |
| CsvExport.ParseRowRoundTrip | app/owner/dashboard/page.tsx:191 | A line of quoted fields reads back to its fields when none contains a double quote |
| CsvExport.RecordRoundTrip | app/owner/dashboard/page.tsx:178-191 | A customer's line reads back to its seven cell values when none contains a double quote |
| CsvExport.RowAmbiguous | app/owner/dashboard/page.tsx:191 | Because quotes are not doubled, two records that differ in name and email can export the same line |
| CsvExport.RowAvoidsNewline | app/owner/dashboard/page.tsx:191 | A record's line has no newline when none of its cells has one |
| CsvExport.ExportLines | app/owner/dashboard/page.tsx:189-192 | When no cell has a newline, the file splits on newlines into the header line and one line per shown customer, in order |
| LoginPage.Validate | app/login/page.tsx:32-42 | The email error is reported exactly when the email lacks `@`; the password error exactly when the email is fine and the password is shorter than 8; otherwise there is no error |
| LoginPage.HandleSubmit | app/login/page.tsx:26-53 | A form error shows without calling the backend or touching storage. Otherwise the customer login is called and the page moves to the profile exactly when it succeeds. Every message shown is one of the three form messages |
| LoginPage.EmailCheckFirst | app/login/page.tsx:32-42 | With both fields invalid, only the email error shows |
| LoginPage.SubmitFailsOnlyOnUnknownEmail | app/login/page.tsx:44-49 | Once the form checks pass, "Invalid email or password" shows exactly when no stored customer has the email |
| LoginPage.HandleOwnerLogin | app/login/page.tsx:55-67 | The owner button navigates to the dashboard exactly when the owner login with the demo credentials succeeds |
| LoginPage.OwnerButtonAlwaysSucceeds | app/login/page.tsx:60 | The demo credentials pass the owner check, so the button always signs in as `owner-001` and opens the dashboard |
| Text.IncludesIffOccurs | lib/mock-api.ts:176 | `includes` holds exactly when the query occurs at some offset |
| Text.ToLowerIdempotent | lib/mock-api.ts:174 | Lower-casing twice equals lower-casing once |
| Text.SplitJoin | app/owner/dashboard/page.tsx:190-192 | Splitting a join on a separator the parts do not contain gives back the parts |
| Text.JoinSplit | app/owner/dashboard/page.tsx:190-192 | Joining the pieces of a split gives back the string |
| Scenarios.SortReverses | lib/mock-api.ts:181 | Records created strictly oldest first are sorted into reverse storage order |
| Scenarios.OldestFirstListed | lib/mock-api.ts:167-181 | Without filters, records created strictly oldest first are listed in reverse storage order |
| Scenarios.SecondPageOfSix | lib/mock-api.ts:183-192 | Page 2 of size 2 over six records created oldest first holds the fourth and then the third, with `total` 6 |
| Scenarios.StatusTotals | lib/mock-api.ts:168-170 | With the first `k` records verified and the rest pending, the verified total is `k` and the pending total is the rest |
| Scenarios.SeedStatusTotals | lib/mock-api.ts:23-78 | Fresh storage lists two verified and four pending customers |
| Scenarios.VerifyThirdOfSix | lib/mock-api.ts:203-218 | Verifying the third of six records, when the first two are verified, gives three verified and three pending |
| Scenarios.VerifyThirdCustomer | lib/mock-api.ts:203-218 | After verifying `cust-003` on fresh storage, `list` reports three verified and three pending |

## Left out

- Browser storage and JSON are a value of two optional fields. The `typeof window` server-side branches are not modelled, and neither is a stored customers string that is present but empty.
- The clock is a parameter, so `verify` takes `now` from its caller. Nothing states that `verifiedAt` is at or after `createdAt`, because the model has no clock that could order them.
- Dashboard.BulkVerify: every call of one bulk run uses the same `now`, although each real call reads the clock separately. Stamps within a run therefore agree, where the real ones may differ by milliseconds.
- Date parsing in the sort comparator is not modelled. `createdAt` is an integer timestamp, so invalid dates (NaN in the comparator) are not modelled.
- CsvExport.Fields: `toLocaleDateString` depends on the locale, so it is a parameter `formatDate`.
- Text.ToLower folds the ASCII letters A-Z only. JavaScript's full Unicode case mapping is not modelled.
- String lengths count characters. JavaScript counts UTF-16 code units, so the password check differs for characters outside the Basic Multilingual Plane.
- Non-integer or NaN `page` and `pageSize` values are not modelled. Integer values, including negative ones, follow `slice`.
- `async`/`Promise` on the auth calls is not modelled. Each call is synchronous, because no two calls overlap.
- `customers.create` is not part of the backend, so it is not modelled. The verification-code login is not modelled either. Role checks inside the store (`RequireRole`) are not part of this model.
- lib/supabase/admin.ts and lib/types.ts are not part of this model: they are a network client wrapper and plain interfaces.
- app/contact/page.tsx and app/customer/profile/page.tsx are not part of this model: they are markup, clipboard, timers and QR rendering.
- Dashboard UI side effects are not modelled: the print window, the Blob download, toasts, router navigation, confirmation dialogs and React state and effects.
- The single-record confirm dialog and the notes drawer of the dashboard only call `verify`, `revoke` and `updateNotes`, which are modelled. Their toasts and reloads are not.
