# Envelopes: a verified model of the transaction month view

Envelopes is a desktop budgeting app. A Rust backend built on Tauri and
Diesel stores accounts, payees, categories and transactions in SQLite. A
React front end lists one month of an account's transactions and adds new
ones. This project models the core of that flow in Dafny and proves
properties of the model:

- **`MonthWindow`** (`month_window.dfy`): how the backend turns a year and a
  month into the half-open text range `[start, end)`. It covers Rust's
  zero-padded `{:04}`/`{:02}` formatting (sign-aware, as Rust's is), the
  December roll-over, and SQLite's `TEXT` comparison (binary collation, so
  lexicographic order). The main lemma, `WindowSelectsMonth`, proves that for
  a well-formed `YYYY-MM-DD` date the string comparisons `date >= start` and
  `date < end` hold exactly when the date lies in that calendar month. The
  proof goes through a numeric key: for equal-length digit strings, text order
  agrees with numeric order.
- **`Ledger`** (`ledger.dfy`): the four tables and the backend commands.
  - `list_txns_by_month_full` is an inner join with accounts, left joins with
    payees and categories, the account and window filters, and ordering by
    date and then id.
  - `get_txns_by_month_cmd` has the window filter alone, ordered by date.
  - `get_txns_cmd` returns every row, ordered by date.
  - `create_txn_cmd` is a method on a `Database` class whose `transactions`
    table it extends by one row.
  - The SQL clauses become `Filter`, a first-match join and an insertion
    `Sort`. These are proved to select exactly the right rows, in order.
    `get_txns_cmd` returns a permutation of the table. Under the primary key
    on `id`, the month listing is a permutation of the in-window rows and the
    full month query lists no transaction twice.
  - A pool or Diesel error is an opaque `fault` parameter. Each command
    returns `Err` exactly when that fault is present.
- **`EntryForm`** (`entry_form.dfy`): the `NewTransactionForm` component as a
  class with the component's state. `handleSubmit` is split at its `await`:
  `BeginSubmit` covers the guards, the inline amount error and the issued
  argument object. `CompleteOk` and `CompleteErr` are the two completions.
  The class invariant is that at most one `create_txn_cmd` is outstanding, and
  only while `isSubmitting` is set.
- **`TransactionsView`** (`transactions_view.dfy`): the `TransactionsTable`
  component as a class.
  - It holds the fetch state and the log of issued fetches. A fetch result is
    applied whenever it arrives, because the component has no staleness guard.
  - A pure `Render` gives the priority of the views.
  - It also covers the amount colour, the empty-month placeholder and the
    inner entry form. That form's checks only raise alerts: they do not stop
    the create call.
- `Wrappers` (`wrappers.dfy`): `Option` and `Result`.

JavaScript's `Number`, `parseInt` and `parseFloat` are opaque partial
functions given to the components. `None` stands for `NaN`. Outcomes of
backend calls are parameters of the completion methods.

The model follows the code as written, including these behaviours:

- The table refetches when year or month changes, but not when the account
  changes. Its fetch does not send the account.
- A late result for an earlier month replaces the rows of the current one
  (`LateResultWins`).
- Suppose two fetches are in flight and the earlier one is rejected before
  the later one resolves. The error then stays on screen over the later rows,
  because a resolution does not clear the error and the error view outranks
  the table (`ErrorOutlivesLaterRows`). A fetch issued after the rejection
  clears the error when it starts (`FetchWith`).
- The December window of year 9999 ends at `"10000-01-01"`, which sorts before
  its start, so that window selects nothing (`LastDecemberSelectsNothing`).
- A month is not validated. Month 0 and months 13..98 select no well-formed
  date (`UnvalidatedMonthSelectsNothing`); negative months and months from 99
  up are not covered by that lemma.

## Model

| member | source | states |
|---|---|---|
| MonthWindow.Decimal | src-tauri/src/lib.rs:43 | the decimal digits of a natural number: at least one digit, all digits, and they read back as the number |
| MonthWindow.Pow10 | src-tauri/src/lib.rs:43 | powers of ten are positive (the weights of zero-padded digits) |
| MonthWindow.ZeroPad | src-tauri/src/lib.rs:43 | left-padding with zeros reaches the width (a longer string is kept whole) and keeps the digits' value |
| MonthWindow.Format | src-tauri/src/lib.rs:43 | Rust's `{:0width}`: a non-negative number is written as digits reading back as the number, padded to the width; a negative one as '-' then its magnitude's digits, the sign counting towards the width |
| MonthWindow.FormatFixedWidth | src-tauri/src/lib.rs:43-49 | a non-negative number below 10^width is formatted by `{:0width}` as exactly width digits that read back as the number |
| MonthWindow.ValueAppend | src-tauri/src/lib.rs:43-49 | the value of concatenated digit strings is the left value shifted by the right length plus the right value |
| MonthWindow.ValueBound | src-tauri/src/lib.rs:43-49 | a digit string of length k denotes a number below 10^k |
| MonthWindow.TextLess | src-tauri/src/lib.rs:58-59 | SQLite's `<` on TEXT with binary collation: a string is never less than itself, and a proper prefix sorts first |
| MonthWindow.TextLessIrreflexive | src-tauri/src/lib.rs:58-60 | SQLite text comparison: no string is less than itself |
| MonthWindow.TextLessTransitive | src-tauri/src/lib.rs:58-60 | SQLite text comparison is transitive |
| MonthWindow.TextLessTotal | src-tauri/src/lib.rs:58-60 | any two distinct strings are ordered one way or the other |
| MonthWindow.TextLessAsymmetric | src-tauri/src/lib.rs:58-60 | no two strings are each less than the other |
| MonthWindow.TextLessConcat | src-tauri/src/lib.rs:58-59 | with equal-length prefixes, the order of two concatenations is decided by the prefixes, then by the suffixes |
| MonthWindow.DigitsOrder | src-tauri/src/lib.rs:58-59 | for equal-length digit strings, text order is numeric order |
| MonthWindow.DigitsEqual | src-tauri/src/lib.rs:58-59 | equal-length digit strings with equal values are equal |
| MonthWindow.DateKey | src-tauri/src/lib.rs:58-59 | the number year*10000 + month*100 + day of a `YYYY-MM-DD` date |
| MonthWindow.DateOrder | src-tauri/src/lib.rs:58-59 | one `YYYY-MM-DD` date sorts before another as text exactly when its year, month and day come first numerically |
| MonthWindow.NextMonth | src-tauri/src/lib.rs:44-48 | the month after a month in 1..12 is again in 1..12 and is exactly one month later; December rolls over to January of the next year |
| MonthWindow.FirstOfMonthFields | src-tauri/src/lib.rs:43 | the string `"{year:04}-{month:02}-01"` has the date fields of (year, month, 1) for a four-digit year and a month below 100 |
| MonthWindow.FirstOfMonth | src-tauri/src/lib.rs:43 | `"{year:04}-{month:02}-01"`, the window start: for a four-digit year and a month below 100 it is date-shaped and reads back as that year, month and day 1 |
| MonthWindow.WindowEnd | src-tauri/src/lib.rs:44-49 | the window end, the first of the following month: for a month in 1..12 (December up to year 9998) a date-shaped day 1 exactly one month after the start |
| MonthWindow.InWindow | src-tauri/src/lib.rs:58-59 | `date >= start AND date < end` as TEXT; a window that holds any string has its start strictly before its end |
| MonthWindow.FirstOfMonthParses | src-tauri/src/lib.rs:43 | for a month in 1..12 the window start is a well-formed date on the first of that month |
| MonthWindow.DateBeforeFirstOf | src-tauri/src/lib.rs:58-59 | a well-formed date sorts before the first of a month exactly when it lies in an earlier month |
| MonthWindow.WindowSelectsMonth | src-tauri/src/lib.rs:43-59 | a well-formed date lies in `[start, end)` exactly when its year and month are the requested ones |
| MonthWindow.WindowNonEmpty | src-tauri/src/lib.rs:43-49 | for a four-digit year and a month in 1..12 (December only up to year 9998) the window start sorts strictly before its end |
| MonthWindow.UnvalidatedMonthSelectsNothing | src-tauri/src/lib.rs:92-103 | month 0 or 13..98 is accepted unchecked, and its window holds no well-formed date |
| MonthWindow.LastDecemberSelectsNothing | src-tauri/src/lib.rs:44-49 | the window of December 9999 ends at "10000-01-01", which sorts before its start, so no date is in it |
| Ledger.NameByKey | src-tauri/src/lib.rs:54-56 | an equi-join on a key finds a name exactly when some row has the key, and the name is that row's |
| Ledger.LeftJoinName | src-tauri/src/lib.rs:55-56 | a left join gives NULL exactly when the key is NULL or no row matches it |
| Ledger.ToFull | src-tauri/src/lib.rs:61-69 | a selected row carries the transaction's id, date, memo and amount, its account's name, and the payee and category names of the left joins: NULL exactly when the key is NULL or unmatched, otherwise the matched row's name |
| Ledger.ToFullAll | src-tauri/src/lib.rs:61-70 | the selected rows correspond one to one, in order, to the joined transactions |
| Ledger.Filter | src-tauri/src/lib.rs:57-59 | the kept rows are exactly the rows that satisfy the filter, each kept no more often than it occurs |
| Ledger.Precedes | src-tauri/src/lib.rs:60 | the ORDER BY relation: a row listed before another never has a later date, and under `(date, id)` equal dates are ordered by id |
| Ledger.PrecedesTotal | src-tauri/src/lib.rs:60 | any two transactions are ordered one way or the other by the ORDER BY clause |
| Ledger.PrecedesTransitive | src-tauri/src/lib.rs:60 | the ORDER BY relation is transitive |
| Ledger.Insert | src-tauri/src/lib.rs:60 | inserting into an ordered list keeps it ordered and adds exactly that row |
| Ledger.Sort | src-tauri/src/lib.rs:60 | the ordered result is sorted by the ORDER BY clause and is a permutation of its input |
| Ledger.InAccountMonth | src-tauri/src/lib.rs:53-59 | the rows the full month query keeps: such a row's account exists, and its window is non-empty |
| Ledger.ListTxnsByMonthFull | src-tauri/src/lib.rs:32-72 | `list_txns_by_month_full` fails exactly when the connection or query fails |
| Ledger.ListFullOrdered | src-tauri/src/lib.rs:60 | the full month rows come by date, then by id |
| Ledger.ListFullSelects | src-tauri/src/lib.rs:53-59 | every full month row is the joined row of an in-window transaction of the account that has an account row, and every such transaction is listed |
| Ledger.ListFullSelectsCalendarMonth | src-tauri/src/lib.rs:43-59 | for a month in 1..12 (December only up to year 9998), a transaction with a well-formed date and an account row is listed exactly when it belongs to the account and lies in that calendar month, whatever dates the other rows hold |
| Ledger.SameIdSameRow | src-tauri/src/schema.rs:39-40 | with `id` as primary key, two transactions of the table with one id are the same row |
| Ledger.UniqueKeysOnce | src-tauri/src/schema.rs:39-40 | with `id` as primary key, no transaction occurs twice in the table |
| Ledger.UniqueKeysSurvive | src-tauri/src/lib.rs:53-60 | rows drawn from the table, none more often than stored, keep unique ids |
| Ledger.ListFullEachOnce | src-tauri/src/lib.rs:53-70 | under the primary key, no id repeats in the full month rows |
| Ledger.GetTxnsByMonth | src-tauri/src/lib.rs:85-107 | `get_txns_by_month_cmd` fails exactly when the connection or query fails |
| Ledger.GetByMonthSelects | src-tauri/src/lib.rs:102-104 | the month listing is ordered by date and holds exactly the in-window transactions of every account, none more often than stored |
| Ledger.GetByMonthEachOnce | src-tauri/src/lib.rs:102-105 | under the primary key, each in-window transaction is listed exactly once and no other row is listed |
| Ledger.GetByMonthSelectsCalendarMonth | src-tauri/src/lib.rs:91-104 | for a month in 1..12 (December only up to year 9998), a transaction with a well-formed date is listed exactly when it lies in that calendar month, whatever dates the other rows hold |
| Ledger.GetTxns | src-tauri/src/lib.rs:75-82 | `get_txns_cmd` fails exactly when the connection or query fails |
| Ledger.GetAllListsEverything | src-tauri/src/lib.rs:78-79 | the full listing is ordered by date and is a permutation of the table |
| Ledger.MaxTxnId | src-tauri/src/lib.rs:120-127 | the largest id of a non-empty table: held by some row and at least every id |
| Ledger.NextTxnId | src-tauri/src/lib.rs:120-127 | the rowid given to an inserted row: 1 in an empty table, otherwise one more than the largest id, so it exceeds every existing id |
| Ledger.CreatedRowListed | src-tauri/src/lib.rs:75-130 | after one row is appended, `get_txns_cmd` lists exactly the old rows plus that one, and, for a well-formed date in any month but December 9999, the listing of that month holds it |
| Ledger.Database.Snapshot | src-tauri/src/schema.rs:3-49 | the abstraction of the database to the tables the queries read, through which `CreateTxn` and `MonthListingEachOnce` reach the listings; under the class invariant its transaction ids are unique |
| Ledger.Database.constructor | src-tauri/src/schema.rs:3-49 | a database with unique primary keys in every table |
| Ledger.Database.CreateTxn | src-tauri/src/lib.rs:110-130 | on success exactly one row is appended with the given account, date, payee and amount, a fresh id, NULL category and memo and the default `cleared`; `get_txns_cmd` then lists it besides the old rows, and for a well-formed date in any month but December 9999 its month's listing holds it; on failure nothing changes; keys stay unique |
| Ledger.Database.MonthListingEachOnce | src-tauri/src/lib.rs:53-70 | under the class invariant, the full month query of the current tables repeats no id |
| EntryForm.FindAccountName | src/components/NewTransactionForm.tsx:61 | `find(...)?.name` is the name of the first account with the parsed id, and undefined when the id is NaN or absent |
| EntryForm.BuildCreateArgs | src/components/NewTransactionForm.tsx:60-68 | the account goes by the name of the first account whose id equals the parsed id (absent when the id is NaN or matches none), date, payee and amount pass through, an empty or NaN category and an empty memo become null, and cleared becomes 1 or 0 |
| EntryForm.NewTransactionForm.constructor | src/components/NewTransactionForm.tsx:24-34 | the initial state: empty fields and lists, today's date, no error, not submitting |
| EntryForm.NewTransactionForm.AccountsLoaded | src/components/NewTransactionForm.tsx:37-40 | the accounts list is replaced on success, and on failure the error is set and the list kept |
| EntryForm.NewTransactionForm.CategoriesLoaded | src/components/NewTransactionForm.tsx:41-44 | the categories list is replaced on success, and on failure the error is set and the list kept |
| EntryForm.NewTransactionForm.BeginSubmit | src/components/NewTransactionForm.tsx:46-60 | a missing account, payee or amount, or a submit in flight, does nothing; a NaN amount shows "Invalid amount" and issues nothing; otherwise the form turns busy, clears the error and issues one command with the built arguments; at most one command is outstanding |
| EntryForm.NewTransactionForm.CompleteOk | src/components/NewTransactionForm.tsx:69-79 | success resets payee, amount, category, memo and cleared, keeps account and date, calls `onNewTransaction` once, and ends the busy state |
| EntryForm.NewTransactionForm.CompleteErr | src/components/NewTransactionForm.tsx:76-79 | failure shows the error, keeps every field, calls nothing, and ends the busy state |
| EntryForm.SubmitTwice | src/components/NewTransactionForm.tsx:48-56 | a second submit before the first completes is ignored, so a double click issues at most one command |
| TransactionsView.Render | src/components/TransactionsTable.tsx:109-149 | the view priority: no account, then a non-empty error, then rows not loaded, then the table; the empty-month row shows exactly for loaded empty rows with no error |
| TransactionsView.AmountColour | src/components/TransactionsTable.tsx:134-137 | an amount is green exactly when it is zero or more, red exactly when negative |
| TransactionsView.CommaIndex | src/components/TransactionsTable.tsx:37 | the position of the first comma, -1 exactly when there is none |
| TransactionsView.ReplaceFirstComma | src/components/TransactionsTable.tsx:37 | `replace(',', '.')` keeps the length, turns the first comma into a point and changes no other position, and leaves a comma-free string alone |
| TransactionsView.ReplaceFirstCommaCounts | src/components/TransactionsTable.tsx:37 | a string with a comma loses exactly one comma and gains exactly one point, so later commas remain |
| TransactionsView.JsRound | src/components/TransactionsTable.tsx:37 | `Math.round` gives the integer within half a unit, with halves rounded up |
| TransactionsView.InnerAmountCents | src/components/TransactionsTable.tsx:37 | the inner form's cents are NaN exactly when the amount with its first comma made a point does not parse, and otherwise within half a cent of 100 times the parsed number |
| TransactionsView.TransactionsTable.constructor | src/components/TransactionsTable.tsx:93-107 | mounting starts with null rows and error and issues one fetch for the year and month when an account is set |
| TransactionsView.TransactionsTable.FetchWith | src/components/TransactionsTable.tsx:96-103 | without an account nothing happens; otherwise rows and error are cleared and one fetch for year and month (not the account) is issued |
| TransactionsView.TransactionsTable.Rerender | src/components/TransactionsTable.tsx:105-107 | a new year or month refetches; a new account alone does not |
| TransactionsView.TransactionsTable.ResolveFetch | src/components/TransactionsTable.tsx:100-101 | any fetch's result replaces the rows whenever it arrives, and the error is left as it is |
| TransactionsView.TransactionsTable.RejectFetch | src/components/TransactionsTable.tsx:102 | a rejected fetch sets its message as the error and leaves the rows |
| TransactionsView.TransactionsTable.SubmitInner | src/components/TransactionsTable.tsx:26-42 | a missing field and a NaN amount each raise their alert, and the create command is issued anyway with the account name and the rounded cents |
| TransactionsView.TransactionsTable.CompleteInnerCreate | src/components/TransactionsTable.tsx:42-48 | success refetches with the props of the render that submitted; failure changes nothing shown |
| TransactionsView.LateResultWins | src/components/TransactionsTable.tsx:96-107 | after a month switch, the earlier month's late result is what the table shows |
| TransactionsView.ErrorOutlivesLaterRows | src/components/TransactionsTable.tsx:98-111 | a rejection followed by a resolution still shows the error view |

## Left out

- Tauri setup, the database file location, the connection pool, PRAGMAs, migrations and seed data are not modelled: they are I/O and configuration. Pool and query errors are the opaque `fault` parameter.
- The `cleared` default of a new row is taken as 0 (`Ledger.DefaultCleared`), because the migration that defines it is not part of this model.
- Ledger.NextTxnId: assumes `transactions` is an ordinary rowid table without AUTOINCREMENT, since the migration that creates it is not part of this model. With AUTOINCREMENT, SQLite would also skip ids of deleted rows. The random rowid SQLite picks once the largest rowid is 2^63-1 is not modelled either.
- Rust's `i32` and `u32` arithmetic (`year + 1`, `month + 1`) and the `i64` amount are unbounded integers here. A debug build would panic on overflow and a release build would wrap; neither is modelled.
- Ledger.NextTxnId: ids are `i32` on the Rust side (lib.rs:22, models.rs:9), but the model's id is unbounded. It does not model an id beyond 2^31-1 failing to load into the Rust struct.
- Ledger.CreatedRowListed, Ledger.Database.CreateTxn: a new row is promised in its month's listing only for a well-formed date outside December 9999. A row with a malformed date, or one dated December 9999, is listed by `get_txns_cmd` but may be missing from every month listing (`LastDecemberSelectsNothing`).
- Ledger.ListTxnsByMonthFull: the joins take the first account, payee and category row with the key. This matches SQL's inner and left joins only when those tables have unique ids. `Database.Valid()` guarantees that, but the query functions and their lemmas accept any `Tables`. With two account rows sharing an id, SQL would return the transaction once per matching row, and the model returns it once.
- MonthWindow.WindowSelectsMonth: proved only for years 0..9999 and months 0..98, because wider numbers change the width of the formatted fields. December 9999 is covered separately by `LastDecemberSelectsNothing`.
- The order of rows with equal dates in `get_txns_cmd` and `get_txns_by_month_cmd` is left open, because SQLite does not fix it. The lemmas state sortedness and a permutation, not one particular tie order.
- `get_txns_cmd` and `get_txns_by_month_cmd` load into a Rust struct whose `account` and `payee` are strings, while the table stores integers. The model returns the stored rows and does not model that type mismatch.
- The front ends call `create_txn_cmd` with arguments the backend does not declare: an account name and a payee name instead of integer ids, plus category, memo and cleared. The model keeps each side as written and passes the call's outcome in as a parameter.
- TransactionsView.AmountColour: models the declared `Txn` field `amountCents`. The backend's `Transaction` struct serialises its field as `amount_cents` with no rename, so at run time `t.amountCents` is undefined, `undefined >= 0` is false, and every amount renders red. The cell's text reads `t.amount_cents`; currency formatting (`fmtEUR`) is locale-dependent floating point and is not modelled.
- JavaScript `Number`, `parseInt` and `parseFloat` are opaque, and floating-point rounding of `x * 100` is not modelled: amounts are exact reals.
- `console.log`, the backend's `println!` of the window bounds, the markup, CSS classes, and the `Sidebar`, `TopBar`, `App` and store modules are not part of this model.
- `App` renders the table with an `accountName` prop, but the table reads `account`. At run time `account` is therefore undefined, so the table always shows "Select an account" and never fetches. The model takes `account` as given, which is what the component declares.
- The form's mount loads call `list_accounts_cmd` and `list_categories_cmd`, which the backend does not register. Against this backend both loads reject, so the `Success` outcomes of `AccountsLoaded` and `CategoriesLoaded` never occur. The model keeps both outcomes, as the component handles both.
- Every input the two submit handlers check carries the HTML `required` attribute, so the browser blocks the submit while one of them is empty. The empty-field branch of `BeginSubmit` and the "All fields are required" alert of `SubmitInner` are therefore not reachable by clicking the button. The handlers are modelled as written, with both branches.
- The `budget_allocations` table is not used by any modelled command.
- A callback that throws, React batching and unmounting while a call is in flight are not modelled. Completions apply to the live component.
