# Inventory loans and admin user list: a Dafny model

This project models the two pieces of stateful logic in a small inventory loan-tracking web
application.

- **The dashboard's scan handler** (`src/dashboard.jsx`). A scanned code is trimmed and
  classified in this order: empty input, then a product whose barcode matches, then a user badge
  (the code starts with `U` or `u`), then no match. A product scan toggles the product. If it
  is available, a checkout inserts an open loan and marks the product unavailable. If it is not
  available, a return closes the product's loan found in the open-loans snapshot and marks the
  product available. The dashboard also lists the open loans, sorted newest or oldest first.
- **The admin panel's user list** (`src/admin.jsx`). It supports adding a user, with a
  required-field check and a case-insensitive duplicate-email check. It also supports deleting
  by id, toggling the admin flag, clearing the list, and a case-insensitive search over name and
  email.

The hosted store is modelled as two in-memory sequences: `Inventory.Store` holds the `products`
and `loans` tables. Each store call's outcome is an input (`Inventory.Env`), and so are the clock
and the id the store gives a new loan. The dashboard state is `Scanning.Dashboard`. It holds the
store, the open-loans snapshot, the sort toggle, the scan field and the message. A scan is a pure
transition `Scanning.Execute`. Its reloads are not awaited, so completing the open-loans reload
is a separate step, `Scanning.Refresh`.

The central invariant is `Consistency.Consistent`. It says that every product is unavailable
exactly when one open loan references it, and that an available product has no open loan. Scans
preserve it as long as three things hold:

- the product write succeeds;
- the store hands out unused loan ids;
- the snapshot is reloaded after each scan.

Files and modules:

| file | module | contents |
|---|---|---|
| wrappers.dfy | Wrappers | `Option` |
| seqs.dfy | Seqs | order-preserving `Filter`, subsequence, pairwise properties |
| text.dfy | Text | JavaScript `trim` (the full ECMAScript whitespace set), ASCII case mapping, `startsWith`, `includes` |
| inventory.dfy | Inventory | products, loans, the barcode lookup, `createLoan`, `returnLoan` |
| loan_list.dfy | LoanList | the open-loan query and the stable sort by loan date |
| scanning.dfy | Scanning | `handleExecute` classification and transition, input, reload, per-row return, sorted view |
| consistency.dfy | Consistency | the invariant and its preservation, alternation of repeated scans, the write-failure gap |
| admin.dfy | Admin | the admin user-list operations and search |

Behaviours of the code the model keeps:

- A checkout records the loan for the hard-coded nil UUID borrower (`src/dashboard.jsx:145`), not
  for the signed-in user.
- A return scan with no matching loan in the snapshot sets no message and clears the scan field.
- The checkout and return messages are set even when the store write failed, because
  `createLoan` and `returnLoan` swallow their errors.
- The barcode lookup uses `.single()`. That call errors unless exactly one row matches, and any
  error, including an unreachable store, reads as "no product". So a duplicated barcode, or a
  failed lookup, falls through to the badge and no-match branches.
- The badge message carries the suffix "(du kan utvide denne logikken)".

## Model

| member | source | states |
|---|---|---|
| Text.Trim | src/dashboard.jsx:134 | the result is the input with only whitespace removed from both ends. It neither starts nor ends with whitespace, and it is empty exactly when the input is all whitespace |
| Text.ContainsIffOccurs | src/admin.jsx:142-143 | `includes` holds exactly when the needle occurs at some position of the haystack |
| Scanning.BadgeCodeFirstChar | src/dashboard.jsx:162 | `toUpperCase().startsWith("U")` holds exactly when the code's first character is `U` or `u` |
| Inventory.BarcodeHits | src/dashboard.jsx:70-74 | a barcode query yields no rows exactly when no product carries the code. It yields one row exactly when a single row carries it, and then it returns that row |
| Inventory.FindProductByBarcode | src/dashboard.jsx:69-78 | a product is returned exactly when the store is reachable and exactly one row carries the barcode. It is that row |
| Inventory.CreateLoan | src/dashboard.jsx:83-100 | a failed insert leaves the store unchanged. A successful one appends one open loan for the product and, when the product write succeeds, marks that product unavailable |
| Inventory.ReturnLoan | src/dashboard.jsx:105-123 | a failed loan update leaves the store unchanged. A successful one closes the loan rows with that id and, when the product write succeeds, marks the product available |
| LoanList.SortLoans | src/dashboard.jsx:182-186 | the re-sorted list is ordered by the comparator's direction (non-increasing dates for newest, non-decreasing for oldest) and is a permutation of the snapshot |
| LoanList.LoadLoans | src/dashboard.jsx:35-56 | the loaded list holds exactly the table's open loans, each as often as in the table, newest first |
| Scanning.FindLoanFor | src/dashboard.jsx:150 | `find` returns the first snapshot loan for the product, and returns nothing exactly when no snapshot loan references it |
| Scanning.Classify | src/dashboard.jsx:133-170 | the classification order: empty input first, then a unique barcode match (checkout if available, return if a snapshot loan exists, otherwise nothing to return), then the badge prefix, then no match. Badge and no-match are reached only when no product was found |
| Scanning.Execute | src/dashboard.jsx:133-170 | empty input sets only the message. A checkout appends one open loan and flips only that product's rows, and only after the insert succeeded. A return closes the snapshot's loan and marks the product available. A return with no snapshot loan, a badge and a miss write nothing. The snapshot is never changed by the handler |
| Scanning.Input | src/dashboard.jsx:128-131 | typing replaces the scan field and clears the message. Store, snapshot and sort toggle are kept |
| Scanning.Refresh | src/dashboard.jsx:35-56 | a successful reload makes the snapshot exactly the store's open loans, each as often as in the table, newest first. Store, message, scan field and sort toggle are kept. A failed reload leaves the state as it was |
| Scanning.ReturnListed | src/dashboard.jsx:259-262 | the per-row return button closes that loan and marks its product available. A failed loan update writes nothing, and a failed product write leaves the products unchanged, as for a scanned return. Snapshot, message, scan field and sort toggle are kept |
| Scanning.SortedLoans | src/dashboard.jsx:182-186 | the displayed list is sorted in the toggle's direction and is a permutation of the snapshot |
| Scanning.MessageText | src/dashboard.jsx:136-168 | every message the handler sets has non-empty text. Only the cleared message is empty |
| Consistency.CheckoutKeepsConsistent | src/dashboard.jsx:83-99 | a checkout of an available product, with both writes succeeding and an unused loan id, keeps every product's availability in step with its open-loan count |
| Consistency.CloseOpenLoanKeepsConsistent | src/dashboard.jsx:105-123 | closing any open loan row and marking its product available, with both writes succeeding, keeps the invariant |
| Consistency.ReturnKeepsConsistent | src/dashboard.jsx:105-123 | closing an open loan of an unavailable product and marking it available keeps the invariant |
| Consistency.SyncedFindsActiveLoan | src/dashboard.jsx:147-154 | with a consistent store and a freshly loaded snapshot, a return scan always finds its loan. The silent no-op needs a stale snapshot |
| Consistency.ReturnListedKeepsConsistent | src/dashboard.jsx:259-262 | the per-row return of a listed loan keeps the invariant when the snapshot is fresh and the product write succeeds |
| Consistency.ExecuteKeepsConsistent | src/dashboard.jsx:133-170 | one scan preserves the invariant when the snapshot is fresh, the product write succeeds and the loan id is unused |
| Consistency.RunKeepsConsistent | src/dashboard.jsx:97-98 | after any run of scans, each followed by a reload, the invariant holds and no product has more than one open loan |
| Consistency.FindAfterSetAvailable | src/dashboard.jsx:92-95 | writing a product's availability leaves the barcode lookup finding the same row, with only the flag changed |
| Consistency.ScanTwiceAlternates | src/dashboard.jsx:143-154 | scanning the same product code twice with a reload between alternates checkout and return. There are never two checkouts in a row |
| Consistency.ProductWriteFailureBreaksConsistency | src/dashboard.jsx:91-96 | a successful loan insert followed by a failed product write leaves a consistent store inconsistent |
| Admin.EmailTaken | src/admin.jsx:106 | `some` holds exactly when a user's email equals the given one after lower-casing |
| Admin.AddUser | src/admin.jsx:96-124 | an empty trimmed name or email is rejected with "Name and email are required.". A case-insensitively taken email is rejected. Both rejections leave the list unchanged. Otherwise one non-admin user with the trimmed fields, the given id and the given time is prepended, and the old list is the tail |
| Admin.AddUserKeepsDistinctEmails | src/admin.jsx:106-119 | if no two users shared an email ignoring case before an add, none do afterwards |
| Admin.DeleteUser | src/admin.jsx:126-129 | when confirmed, the result holds every record whose id differs, as often as before and in order, and no record with that id. Unconfirmed, the list is unchanged |
| Admin.DeleteUserKeepsDistinctEmails | src/admin.jsx:126-129 | deleting keeps emails distinct |
| Admin.ToggleAdmin | src/admin.jsx:131-133 | length, order, ids, names, emails and creation times are kept. The admin flag changes exactly on the records with that id |
| Admin.ToggleAdminTwice | src/admin.jsx:131-133 | toggling the same id twice gives back the original list |
| Admin.ClearAll | src/admin.jsx:135-138 | when confirmed, the list becomes empty. Otherwise it is unchanged |
| Admin.Search | src/admin.jsx:140-144 | the result holds exactly the users whose lower-cased name or email contains the lower-cased search text, each as often as in the list, as an order-preserving subsequence of the list |
| Admin.SearchEmptyIsEverything | src/admin.jsx:140-144 | an empty search lists every user, in order |
| Admin.SearchIgnoresCase | src/admin.jsx:140-144 | upper- or lower-casing the search text does not change the result |

## Left out

- The store client, `async`/`await`, and error logging. The store is in-memory sequences, and each call's success is an input.
- The reloads after a write are started without being awaited. The model treats the open-loans reload as a separate step (`Scanning.Refresh`). The invariant lemmas assume it runs after every scan.
- `loadProducts` and the product table are display only. The handler looks products up in the store directly. The joined borrower and product names in the loans query are display only too.
- Races between two browser sessions on the same product are a concurrency concern.
- Database-generated loan ids, `new Date().toISOString()`, `makeId` and `Date.now()` are parameters. Loan dates are integers, so unparsable dates (`NaN` in the comparator) are not modelled.
- When several open loans tie on `loan_date`, the store may return them in any order. The model keeps table order.
- Text.Lower: maps only ASCII letters, while JavaScript's `toLowerCase` maps all of Unicode.
- Text.Upper: maps only ASCII letters, while JavaScript's `toUpperCase` maps all of Unicode.
- `localStorage` loading and saving of the user list, and the sample users, are I/O.
- Clearing the name and email fields after a successful add is form state. The timed clearing of the admin message is a timer.
- The Enter-key handler only calls `handleExecute`. Navigation buttons, rendering and styling are out of scope.
- `src/App.jsx`, `src/Users.jsx` and `src/Login.jsx` are authentication and fetch-and-render glue.
