# Expense tracker core, modelled in Dafny

The application is a small personal expense tracker. A Convex backend keeps
one `expenses` table and exposes two functions:

- `get` is a query. It lists the expenses newest date first and can be
  limited to one category.
- `create` is a mutation. It inserts an expense, and it is idempotent: a
  second call with an idempotency key already on record returns the id of
  the record already saved and inserts nothing.

A single React page sits on top of these. It shows the list, the total of
the listed amounts and a per-category summary. Its add-expense form guards
against double submission. It sends a per-submission idempotency key and
rotates that key only after a save succeeds.

The model has five modules:

- `Schema` (`schema.dfy`): the `Expense` record.
- `Sequences` (`sequences.dfy`): order-preserving filtering and reversal,
  with their algebra.
- `Dates` (`dates.dfy`): the order on `YYYY-MM-DD` strings. For well-formed
  dates it is proved to be the calendar order.
- `Expenses` (`expenses.dfy`): the two backend functions.
  - `get` is a pure function of the stored records. Its stable date sort is
    proved sorted, a permutation, tie-preserving, and the only list with
    those properties.
  - `create` is a pure transition `CreateOn` on a table. The class
    `ExpenseStore` carries the same table as mutable fields, and its
    `Create` method is proved to perform exactly `CreateOn`.
- `Page` (`page.dfy`): the page's two calculations and the form's submit
  handler.
  - The total is a fold.
  - The category summary is a loop over an accumulator map, proved against
    a specification by category.
  - The form is a class whose methods follow the handler's state changes.

Facts about the code that the model keeps:

- The server validates nothing beyond the argument types (`v.number()`,
  `v.string()`). `create` accepts any integer amount, including zero and
  negative ones, and any strings. Only the page's handler rejects amounts
  that are not positive.
- `create` never writes `createdAt`, so a stored record's `createdAt` is
  `None`. The store's own insertion order stands in for "newest created
  first".
- `get` sorts before it filters. `Expenses.FilterThenSortAgrees` shows that
  filtering first and sorting second gives the same list.
- An empty category argument makes `get` skip the filter, the same as
  `"All"`.

## Model

| member | source | states |
|---|---|---|
| Expenses.Get | convex/expenses.ts:5-23 | the list has exactly the stored records of the requested category, or all of them when the argument is absent, empty or "All"; it is ordered newest date first; records sharing a date keep the newest-created-first order of the read |
| Expenses.FiltersBy | convex/expenses.ts:17 | the category filter applies iff the argument is present, non-empty and not "All" (used by `Get`, whose row states the outcome) |
| Expenses.InsertByDate | convex/expenses.ts:14 | inserting one record into a list adds exactly that record to its multiset |
| Expenses.SortByDateDesc | convex/expenses.ts:14 | the stable sort is a permutation of its input |
| Expenses.SortIsSorted | convex/expenses.ts:14 | the sort's result is ordered by date, newest first |
| Expenses.SortTies | convex/expenses.ts:14 | for every date, the records on that date appear in the sort's result in their input order (stability) |
| Expenses.InsertKeepsSorted | convex/expenses.ts:14 | inserting into a date-sorted list keeps it date-sorted |
| Expenses.FilterKeepsSorted | convex/expenses.ts:17-19 | filtering a date-sorted list keeps it date-sorted |
| Expenses.SortedTiesDetermine | convex/expenses.ts:14 | two date-sorted lists with the same records on every date are equal |
| Expenses.GetIsUnique | convex/expenses.ts:11-21 | any list that is sorted, is a permutation of the shown records and keeps ties in read order is the list `get` returns |
| Expenses.FilterThenSortAgrees | convex/expenses.ts:11-19 | sorting then filtering by a category equals filtering the read then sorting it |
| Expenses.GetAllListsEveryRecord | convex/expenses.ts:11-21 | with no effective filter, `get` returns every stored record: same multiset, same length, and a record is listed iff it is stored |
| Expenses.GetCategoryExact | convex/expenses.ts:17-19 | with a category filter, a record is listed iff it is stored and of that category, as often as it is stored |
| Expenses.FirstWithKey | convex/expenses.ts:36-39 | the index lookup finds nothing iff no record has the key, and otherwise finds the first record with that key |
| Expenses.NewRecord | convex/expenses.ts:47-53 | the inserted record carries the five arguments, has the given id and has no `createdAt` |
| Expenses.CreateOn | convex/expenses.ts:34-54 | a known key leaves the table unchanged and returns the id of the first record with that key; a new key appends one record that carries the arguments under a fresh id; old records are never changed; ids stay fresh and keys stay unique |
| Expenses.CreateTwiceSameKey | convex/expenses.ts:36-53 | a second create with a key the first one used changes nothing and returns the first call's id, whatever its other arguments |
| Expenses.UniqueKeyRecord | convex/expenses.ts:36-44 | in a table whose keys are unique, the records carrying one record's key are exactly that record |
| Expenses.CreateLeavesOneRecordPerKey | convex/expenses.ts:36-53 | after a create on a table with unique keys, exactly one record carries the argument's key |
| Expenses.ExpenseStore.constructor | convex/schema.ts:5-14 | a new store is empty and valid: fresh ids, one record per key |
| Expenses.ExpenseStore.Create | convex/expenses.ts:26-55 | the store's new contents and the returned id are those of `CreateOn` on its old contents; the store stays valid; exactly one record carries the call's key, and its id is the one returned |
| Expenses.SaveTwiceThenList | convex/expenses.ts:5-55 | saving the same lunch twice under one key returns one id twice, and listing its category shows that single record |
| Dates.DateLe | convex/expenses.ts:14 | the comparator's order on date strings, modelled as string order (its properties are the next four rows) |
| Dates.DateLeTotal | convex/expenses.ts:14 | any two dates are comparable under the sort's order |
| Dates.DateLeTransitive | convex/expenses.ts:14 | the sort's order is transitive |
| Dates.DateLeAntisymmetric | convex/expenses.ts:14 | dates that sort before each other are equal |
| Dates.IsoDateOrder | convex/schema.ts:9 | for well-formed `YYYY-MM-DD` dates, the sort's order is chronological (year, then month, then day) |
| Sequences.FilterPermutation | convex/expenses.ts:17-19 | the category filter applied to two permutations of one list gives two permutations of one result |
| Sequences.FilterReverse | convex/expenses.ts:11-19 | filtering the reversed read equals reversing the filtered read |
| Sequences.FilterConcat | convex/expenses.ts:18 | filtering distributes over concatenation |
| Sequences.FilterCommute | convex/expenses.ts:18 | two filters give the same result in either order |
| Page.SumAmounts | app/page.tsx:83 | the reduce that adds the amounts, from 0 (its properties are the rows below) |
| Page.TotalInPaise | app/page.tsx:83 | no list yet, or an empty list, gives a total of 0 |
| Page.SumAmountsConcat | app/page.tsx:83 | the total of two lists put together is the sum of their totals |
| Page.SumAmountsPermutation | app/page.tsx:83 | the total does not depend on the order of the list |
| Page.DisplayedTotal | app/page.tsx:83 | the total shown is the sum of the amounts of the stored records the filter selects, whatever order `get` lists them in |
| Page.CategoryTotals | app/page.tsx:92-95 | no list yet gives no summary; otherwise the summary's categories are exactly those in the list, and each is mapped to the sum of the amounts of that category |
| Page.Updated | app/page.tsx:93 | one step of the accumulator: the expense's category gains its amount, starting from 0 when absent (`Page.CategoryTotals` states the loop's outcome) |
| Page.CategoryTotalsAddUp | app/page.tsx:83-95 | the per-category sums, taken once per category, add up to the page's total |
| Page.SubmitForm.constructor | app/page.tsx:27-39 | the form starts with an empty amount and description, the first category, today's date, not submitting, and a freshly generated key |
| Page.SubmitForm.Submit | app/page.tsx:41-64 | while a submission is in flight, or when the amount is not a positive number, nothing changes and nothing is sent; otherwise the form is marked submitting and the create call carries its fields and current key |
| Page.SubmitForm.Settle | app/page.tsx:66-78 | on success the amount and description are cleared and the key is replaced by one never used before; on failure only the in-flight flag changes; either way the form stops submitting |
| Page.HandleSubmit | app/page.tsx:41-79 | one click, from guard to settlement: the store ends unchanged if the request was lost and as `CreateOn` with the form's key otherwise; the form rotates its key only when the save was acknowledged |
| Page.RetryAfterLostResponse | app/page.tsx:58-77 | a retry after a lost answer reuses the key, so the store ends as one create call would leave it and holds at most one more record |

## Left out

- Page.SubmitForm.Submit: the amount field is modelled as the integer paise it
  denotes, or `None` when it does not hold a number. `parseFloat`,
  floating-point multiplication and `Math.round` are not modelled. Rejecting
  `amountFloat <= 0` is stated as rejecting paise `<= 0`. That agrees with the
  code for inputs of at most two decimals, which is what the `step="0.01"`
  number input produces.
- Page.TotalInPaise: JavaScript numbers are unbounded integers here. Precision
  loss above 2^53 is not modelled.
- Page.CategoryTotals: the accumulator object is a map. Keys that collide with
  `Object.prototype` members (a category named `constructor`) are not modelled.
  Neither is the iteration order of `Object.entries` when the summary is
  rendered.
- Expenses.Get: sorting compares `new Date(...).getTime()`. The model compares
  date strings lexicographically, which `Dates.IsoDateOrder` proves equal to
  the calendar order for well-formed dates. Dates not of the form
  `YYYY-MM-DD` naming a real day are not modelled. The server accepts any
  string, and JavaScript turns some such strings into `NaN` and parses
  others (such as `2024/05/01`) into times that the string order need not
  follow.
- Expenses.ExpenseStore: Convex document ids are opaque strings; they are
  modelled as naturals handed out in sequence. The system field
  `_creationTime` is modelled by the position in the table. The
  `by_idempotencyKey` index lookup is modelled as a scan for the first
  matching record.
- Expenses.CreateOn: Convex's argument and schema validation is not modelled.
  That includes whether an insert without `createdAt` would be rejected
  against the declared schema; the model stores the record with `createdAt`
  absent. Two mutations racing on one key are not modelled, because mutations
  are treated as atomic and serial.
- Page.SubmitForm: `uuidv4()` is a parameter, the next key, assumed never
  produced before. `new Date()` is the constructor's `today` parameter. The
  empty key before the mount effect runs is not modelled; the constructor
  starts with the first generated key.
- Page.HandleSubmit: toasts, `console.error`, `preventDefault`, rendering and
  React's batching of state updates are not modelled. Neither are stale
  closures: two handler runs that both see `isSubmitting` false send the same
  key, and the server then deduplicates them as `Expenses.CreateTwiceSameKey`
  states.
- The `onChange` setters of the form fields are plain assignments to the
  class's public fields and have no members of their own.
- The currency formatting with `toLocaleString` (app/page.tsx:86-89) and the
  condition under which the summary card is shown are display-only and not
  modelled.
- app/layout.tsx is not part of this model: it only wraps the page in a layout
  and a toast container.
