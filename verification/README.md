# Expense ledger model

A Dafny model of the ledger logic of the Expense Tracker web application
(`Expense_Tracker/app.py`). Each of the three mutating handlers (create,
delete, update) loads the whole list of expenses from a JSON file, changes it
in memory and writes it back; the stats handler only loads and reads it. With
the load/save wrapper removed, each handler becomes a pure function on a
`seq<Expense>`:

- `Ledger.Add`: `add_expense`. It gives the new record id `len + 1`. It uses
  the supplied date, or the server's current day when the request has none.
- `Ledger.Delete`: `delete_expense`. It keeps every record whose id differs.
- `Ledger.Update` and `Ledger.Patched`: `update_expense`. It patches the first
  record with a matching id, field by field.
- `Statistics.Stats`: the values `get_stats` computes before it encodes them:
  the total, the per-category sums in the dict `get_stats` builds (in
  first-appearance order), and the record count.
- `Requests.Handle` and `Requests.Run`: the load, mutate and save cycle. A
  request that raises saves nothing.
- `FreshIds`: a corrected id rule, described under Findings.

Modules:

- `Expenses` (expenses.dfy): the record, the update patch, the outcome of
  parsing an amount, and sequence helpers (`Ids`, `Categories`, `Distinct`,
  `IndexOf`).
- `Ledger` (ledger.dfy): the three mutating operations and their laws.
- `Statistics` (statistics.dfy): the stats fold into an ordered category map.
- `Requests` (requests.dfy): requests served in sequence, and what the id
  rule guarantees over such a sequence.
- `FreshIds` (fresh_ids.dfy): the counter-based id rule.

Amounts are exact `real`s. The result of Python's `float()` is an input, a
`ParsedAmount`: either `Parsed(v)` or `Unparsable`. The current day is passed
in as `today`.

Three behaviours of the code are easy to misread. The model follows the
code in each:

- From a collection whose ids are 1..n (any state reached with no delete),
  a duplicate id arises when a record other than the newest is deleted and
  another record is then created. Deleting the newest record and creating
  another only reuses its id for a different expense. Once an earlier
  delete has left a gap, this no longer holds: from ids 2, 3, 4, deleting
  the newest (id 4) and creating gives ids 2, 3, 3.
- Update parses the amount only when a record matches. An update with a bad
  amount and an unknown id therefore succeeds and changes nothing.
- Ids are not unique in general. The model proves uniqueness for request
  sequences with no delete (`RunWithoutRemoveKeepsNumbered`), and, from ids
  1..n, after deleting the newest record and creating one
  (`RemoveNewestThenCreate`); and that a delete keeps distinct ids distinct
  (`DeleteKeepsDistinct`). From ids 1..n, a create after deleting any record
  but the newest breaks it (`DuplicateIdAfterRemoveAny`); with a gap in the
  ids, so can a create after deleting the newest
  (`DuplicateAfterRemovingNewestWithGap`).

## Model

| member | source | states |
|---|---|---|
| `Ledger.Add` | Expense_Tracker/app.py:37-45 | Fails exactly when the amount does not parse. On success the new store is the old one with one record appended. That record has id `len + 1`, the given description, amount and category, and the supplied date or else `today`. |
| `Ledger.Delete` | Expense_Tracker/app.py:53 | A record is in the result if and only if it was in the input and has a different id. No record with the deleted id remains. |
| `Ledger.Patched` | Expense_Tracker/app.py:64-67 | Fails exactly when the patch carries an amount that does not parse. The id never changes. Each field absent from the patch keeps its old value, and each field present takes the patch's value. |
| `Ledger.Update` | Expense_Tracker/app.py:62-68 | Let `i` be the first position whose id matches. If there is none, the result is `Ok(xs)`. Otherwise the update fails exactly when patching `xs[i]` fails, and on success only position `i` changes, to the patched record. |
| `Ledger.DeleteAppend` | Expense_Tracker/app.py:53 | Deleting from `a + b` gives the deletion from `a` followed by the deletion from `b`, so surviving records keep their relative order. |
| `Ledger.DeleteAbsent` | Expense_Tracker/app.py:53 | Deleting an id that no record has returns the list unchanged. |
| `Ledger.DeleteIdempotent` | Expense_Tracker/app.py:53 | Deleting the same id twice gives the same result as deleting it once. |
| `Ledger.DeleteKeepsDistinct` | Expense_Tracker/app.py:53 | If the ids were distinct before a delete, they are distinct after it. |
| `Ledger.DeleteIdsSubset` | Expense_Tracker/app.py:53 | Every id left after a delete was there before and differs from the deleted id. |
| `Ledger.UpdateFrame` | Expense_Tracker/app.py:62-68 | A successful update keeps the length and the id sequence. Every position other than the first match is unchanged. |
| `Ledger.UpdateEmptyPatch` | Expense_Tracker/app.py:62-68 | An update that names no field returns the list unchanged. |
| `Ledger.UpdateIdempotent` | Expense_Tracker/app.py:62-68 | Applying the same successful update a second time changes nothing more. |
| `Ledger.DeleteUndoesAdd` | Expense_Tracker/app.py:37-53 | When no record already has id `len + 1`, deleting the id that a create just assigned gives back the original list. |
| `Statistics.Bump` | Expense_Tracker/app.py:88-89 | One update of `by_category` keeps the keys when the category is already present, and otherwise appends the category as a new last key. The sum of all values rises by exactly the amount. |
| `Statistics.BumpSums` | Expense_Tracker/app.py:88-89 | One update of `by_category` adds the amount to its own category's value and to no other existing value. |
| `Statistics.BumpNew` | Expense_Tracker/app.py:89 | A category not yet present enters as the new last entry, with the amount as its value (`get(c, 0) + a`). |
| `Statistics.OrderStep` | Expense_Tracker/app.py:87-89 | One loop step keeps the keys in first-appearance order. |
| `Statistics.ByCategory` | Expense_Tracker/app.py:85-89 | The keys of the dict the loop builds are distinct, and they are exactly the categories that occur among the records. Its values add up to the total of all amounts. |
| `Statistics.ByCategoryOrder` | Expense_Tracker/app.py:85-89 | The keys appear in the order in which their categories first occur among the records. |
| `Statistics.ByCategorySums` | Expense_Tracker/app.py:85-89 | Each value equals the sum of the amounts of the records in that category. That sum is given by an independent reference definition. |
| `Statistics.TotalConcat` | Expense_Tracker/app.py:84 | The left-to-right `sum` of amounts is additive: the total of two lists joined is the sum of their totals. |
| `Statistics.Stats` | Expense_Tracker/app.py:77-94 | For every collection, the empty one included: `recent_count` is the number of records and `total` is the sum of all amounts. The total also equals the sum of the category values. The category keys are distinct, are exactly the categories present, and appear in first-appearance order, and each value is its category's sum. |
| `Statistics.StatsEmpty` | Expense_Tracker/app.py:77-82 | On an empty collection the early return gives total 0, an empty `by_category` and count 0. The general formula gives the same. |
| `Statistics.StatsAppend` | Expense_Tracker/app.py:84-94 | Appending a record raises the total by its amount and the count by one. Its category is then a key of `by_category`, whose value is that category's sum before plus the amount. |
| `Statistics.StatsExample` | Expense_Tracker/app.py:77-94 | For food 10, food 5 and transport 20, the result is total 35, food 15 then transport 20, and count 3. |
| `Requests.Handle` | Expense_Tracker/app.py:33-70 | The collection saved after one request. A create keeps the old records as a prefix, adds one record exactly when its amount parses, and gives it id `len + 1`. An update keeps the length and every id. After a delete no record has the deleted id. |
| `Requests.Run` | Expense_Tracker/app.py:33-70 | Over requests served in sequence, the collection grows by at most one record per create whose amount parses. |
| `Requests.InvalidAmountOnCreate` | Expense_Tracker/app.py:37-46 | A create whose amount does not parse fails, and the saved collection is unchanged. |
| `Requests.InvalidAmountOnUpdate` | Expense_Tracker/app.py:62-70 | An update whose amount does not parse fails exactly when some record has the id. Either way the saved collection is unchanged. |
| `Requests.HandleKeepsNumbered` | Expense_Tracker/app.py:37-68 | A create or an update keeps the ids equal to 1..n in storage order. |
| `Requests.RunWithoutRemoveKeepsNumbered` | Expense_Tracker/app.py:38 | Over any sequence of creates and updates with no delete, ids 1..n stay 1..n and distinct. |
| `Requests.CreatesOnlyAppend` | Expense_Tracker/app.py:38-45 | Creates alone keep the earlier records as a prefix and add one record per parsable amount. From an empty file, n valid creates give ids 1, ..., n in storage order. |
| `Requests.DuplicateIdAfterRemove` | Expense_Tracker/app.py:38 | Create, create, delete id 1, create: the two stored records both have id 2. |
| `Requests.DeleteFromNumbered` | Expense_Tracker/app.py:53 | In a collection with ids 1..n, deleting id `k` removes exactly the record at position `k - 1` and keeps the rest in order. |
| `Requests.DuplicateIdAfterRemoveAny` | Expense_Tracker/app.py:38-53 | In any collection with ids 1..n, deleting any id but n and then creating a record stores two records with id n: the newest old record, unchanged, and the new one with the request's description. |
| `Requests.RemoveNewestThenCreate` | Expense_Tracker/app.py:38-53 | In any collection with ids 1..n, deleting id n and then creating a record keeps the ids 1..n, so they stay distinct. |
| `Requests.GapAfterRemovingOldest` | Expense_Tracker/app.py:38-53 | Four creates and a delete of id 1 leave the records with ids 2, 3, 4. |
| `Requests.RemoveNewestFromGap` | Expense_Tracker/app.py:53 | From ids 2, 3, 4, deleting id 4 removes the newest record and keeps the other two in order. |
| `Requests.DuplicateAfterRemovingNewestWithGap` | Expense_Tracker/app.py:38-53 | From the distinct ids 2, 3, 4, deleting the newest (id 4) and then creating gives ids 2, 3, 3, which are not distinct. |
| `Requests.StaleIdAfterRemovingNewest` | Expense_Tracker/app.py:38 | Create, create, delete id 2, create: id 2 now names the new record. |
| `FreshIds.AddFresh` | Expense_Tracker/app.py:37-45 | A create that takes its id from the counter fails exactly when the amount does not parse. On success it appends one record and advances the counter. The record has the counter's id, the request's description, amount and category, and the supplied date or else `today`. The ids stay distinct and below the counter. |
| `FreshIds.RemoveKeepsValid` | Expense_Tracker/app.py:53 | With the counter, a delete keeps the ids distinct and below the counter. |
| `FreshIds.EditKeepsValid` | Expense_Tracker/app.py:62-68 | With the counter, an update keeps the ids distinct and below the counter. |
| `FreshIds.HandleFresh` | Expense_Tracker/app.py:33-70 | With the counter, the counter advances exactly on a create whose amount parses. Every create, delete and update keeps the ids distinct and below the counter. |
| `FreshIds.RunFresh` | Expense_Tracker/app.py:33-70 | Over requests served in sequence with the counter, the counter advances once per create whose amount parses. |
| `FreshIds.RunFreshKeepsValid` | Expense_Tracker/app.py:38 | With the counter, no sequence of requests ever stores two records with the same id. |
| `FreshIds.FreshIdsAvoidDuplicate` | Expense_Tracker/app.py:38 | The request sequence that yields ids [2, 2] under the `len + 1` rule yields [2, 3] with the counter. |

## Findings

| source | as written | input that shows it | evidently intended | confidence | as-written member | corrected member |
|---|---|---|---|---|---|---|
| Expense_Tracker/app.py:38 | a new record gets id `len(expenses) + 1` | create, create, delete id 1, create: both stored records have id 2, so a later delete of id 2 removes both and an update of id 2 reaches only the first; in general, deleting any id but the newest from ids 1..n and creating gives two records with id n | ids unique within the collection | not executed | `Requests.DuplicateIdAfterRemoveAny` | `FreshIds.RunFreshKeepsValid` |

The rest of the model keeps the `len + 1` rule (`Ledger.Add`, `Requests.Run`)
because that is what the program does. `FreshIds` is the fix: a counter saved
next to the collection.

## Left out

- Flask routing, page rendering, CORS and `app.run` (app.py:1-8, 23-25, 97-98): framework wiring with no ledger logic.
- `get_expenses` (app.py:27-30): it returns the loaded list unchanged, so there is nothing to model beyond the identity.
- `load_expenses` and `save_expenses` (app.py:13-21): JSON file I/O. The store is a `seq<Expense>`. A missing file reads as the empty list; `Requests.Run` accepts any starting collection, and the examples and `Requests.CreatesOnlyAppend`'s id clause start from the empty one. Storage and JSON errors are not modelled.
- `float()` string parsing and IEEE rounding. The parse outcome is an input (`ParsedAmount`), and amounts and sums are exact reals. Floating-point sums can differ from exact ones in the last digits.
- Non-finite amounts. `float()` accepts "nan", "inf" and "1e999", but `Parsed(value: real)` holds only finite values. With such an amount the program's `total` is nan or inf, and the sum equalities proved about `Statistics.Stats` and `Statistics.ByCategory` do not hold for it.
- `datetime.now()`: the current day is the `today` parameter.
- JSON values other than strings for `description` and `category`. The program stores whatever the body holds: `null` for a missing field, or a number, boolean, list or object. The model takes both fields as strings. A list or object category makes every later `get_stats` raise (the dict key is unhashable), and the categories `1`, `1.0` and `true` are one dict key in Python; neither is modelled.
- A JSON `null` `date` on create. `data.get('date', ...)` returns the present `null`, so the program stores `null` rather than today's date. The model's `date` is either a string or absent.
- A JSON `null` in an update field is not distinguished from a string value.
- The order of `by_category` in the HTTP response. `jsonify` encodes with Flask's default JSON provider, which sorts keys, so the response lists categories alphabetically. The first-appearance order proved about `Statistics.Stats` is the order of the dict `get_stats` builds, not of the response. The key sort also raises a TypeError when a `null` category sits beside string categories, and that is not modelled either.
- An integer `0` total on the empty collection compared with a float total otherwise: both are the real `0.0` or a real sum here.
- HTTP status codes and response messages.
- Concurrent requests and the lost-update race on the shared file: the program has no concurrency handling, and requests are served one at a time here.
