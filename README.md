# dashwithtables: table rendering and column sort, modelled in Dafny

The page shows search-interest scores for Pho, Ramen and Soba by country in
a table. A dropdown chooses a column, and a server callback re-sorts the
dataset by that column and renders the table again. This project models the
two functions that hold this logic and proves what they promise:

- `generate_table` turns an ordered list of records into a table tree. There
  is one header cell per key of the first record, in that record's key
  order. Then comes one row per record, in input order, with one cell per
  value in the record's own key order.
- `sort_table` sorts the dataset ascending by the chosen column with Python's
  stable `sorted`, then renders the result with `generate_table`.

Files:

- `records.dfy` (module `Records`): a record is a Python dict. It is modelled
  as a sequence of (key, value) pairs with distinct keys. A value is
  `Str(string)` (the `Country` column) or `Num(int)` (the scores). The module
  also defines dict lookup, the cells of one table row, and Python's `<=` on
  strings (code-point lexicographic) and on numbers, proved to be a total order.
- `stable_sort.dfy` (module `StableSort`): `sorted(data, key=lambda d: d[col])`.
  It is modelled as a stable insertion sort. It is proved to return a
  permutation of its input, in ascending order, that keeps records with equal
  keys in their original order. It is also proved to be the only arrangement
  with those properties, so any correct stable sort, Python's timsort
  included, gives the same result.
- `dash_with_tables.dfy` (modules `DashWithTables` and `Scenario`): the table
  tree, `generate_table`, the `sort_table` callback with its error cases, the
  read-back that inverts rendering, and a worked three-record instance.

Python exceptions are the `Failure` side of a `Result`:

- `IndexError`: `table_data[0]` on an empty list.
- `KeyError`: a record lacks the sort column. All keys are computed before any
  comparison, so this comes first.
- `TypeError`: the column holds both strings and numbers. Python refuses to
  compare the two. A mixed column always raises: if no string were ever
  compared with a number, every answer the sort received would fit both
  "numbers below strings" and "strings below numbers". No single output is
  sorted under both orders, so a correct sort must compare the two kinds. A
  column of one kind never raises.

The dataset is an explicit parameter named `data`; it stands for the
module-level global `data`. The model is functional, so sorting builds a new
sequence and the dataset is unchanged by construction. Rendering the same
list twice gives the same tree for the same reason.

The code does not check its inputs:

- The code does not reject records with differing key sets or key orders.
  `generate_table` takes the header from the first record, and each row uses
  its own record's key order. `RenderRoundTrip` proves that the table
  represents the records exactly when they all share the first record's key
  order.
- The code does not validate the column name. An unknown column is a
  `KeyError` only because some record lacks it.
- The header equals `Country, Pho, Ramen, Soba` only for records of that shape
  (`FoodSortTable`), not for every input.

## Model

| member | source | states |
|---|---|---|
| `Records.Keys` | dashwithtables/__init__.py:20 | `d.keys()` has one key per pair, and for a dict no key appears twice |
| `Records.Lookup` | dashwithtables/__init__.py:25 | `d[k]`; its contract is `LookupSpec`: None exactly when no pair has key `k`, otherwise a value stored under `k` |
| `Records.LookupSpec` | dashwithtables/__init__.py:25 | `d[k]` fails exactly when no pair has key `k`; when it succeeds, the value returned is stored under `k` |
| `Records.LookupAt` | dashwithtables/__init__.py:25 | in a dict, looking up the key at position `i` returns the value at position `i` |
| `Records.LookupAtAll` | dashwithtables/__init__.py:25 | the same for every position of the record at once |
| `Records.Cells` | dashwithtables/__init__.py:24-26 | the row built by looking up each key in key order has one cell per key, and cell `i` is the record's `i`-th value |
| `Records.StrLe` | dashwithtables/__init__.py:50 | Python `<=` on strings; its contract is `StrLeFirstDifference` (the first differing code point decides), `StrLeSpec` (the prefix rules) and the total-order lemmas `StrLeTotal`, `StrLeAntisymmetric` and `StrLeTransitive` |
| `Records.StrLeFirstDifference` | dashwithtables/__init__.py:50 | when two strings agree up to position `k` and differ there, `a <= b` exactly when `a`'s code point at `k` is below `b`'s |
| `Records.StrLeSpec` | dashwithtables/__init__.py:50 | a prefix is `<=` the longer string, and a string is never `<=` its own proper prefix |
| `Records.Le` | dashwithtables/__init__.py:50 | the comparison `sorted` uses: numeric `<=` on scores, `StrLe` on strings (pinned down by `StrLeFirstDifference` and `StrLeSpec`); its contract is the total-order lemmas `LeReflexive`, `LeTotal`, `LeAntisymmetric` and `LeTransitive` |
| `Records.StrLeTotal` | dashwithtables/__init__.py:50 | Python string `<=` relates any two strings one way or the other |
| `Records.StrLeAntisymmetric` | dashwithtables/__init__.py:50 | two strings each `<=` the other are equal |
| `Records.StrLeTransitive` | dashwithtables/__init__.py:50 | string `<=` is transitive |
| `Records.LeReflexive` | dashwithtables/__init__.py:50 | every column value is `<=` itself |
| `Records.LeTotal` | dashwithtables/__init__.py:50 | any two column values are comparable |
| `Records.LeAntisymmetric` | dashwithtables/__init__.py:50 | two column values each `<=` the other are equal, so "equal keys" in stability means equal values |
| `Records.LeTransitive` | dashwithtables/__init__.py:50 | the value order is transitive |
| `StableSort.KeyOf` | dashwithtables/__init__.py:50 | the sort key `datum[input_value]`, defined when `HasColumn` holds; by `LookupSpec` it is the value stored under the column |
| `StableSort.Insert` | dashwithtables/__init__.py:50 | inserting a record adds exactly that record (length plus one, multiset) and keeps the column available |
| `StableSort.SortBy` | dashwithtables/__init__.py:50 | the sorted list is a permutation of the input (same length, same multiset of records) |
| `StableSort.InsertLowerBound` | dashwithtables/__init__.py:50 | a common lower bound of the inserted record and the list bounds the result |
| `StableSort.InsertSorted` | dashwithtables/__init__.py:50 | inserting into an ascending list gives an ascending list |
| `StableSort.SortBySorted` | dashwithtables/__init__.py:50 | the sorted list is ascending by the column: every earlier key is `<=` every later key |
| `StableSort.FilterCons` | dashwithtables/__init__.py:50 | the equal-key subsequence of `[y] + s` is `y` (if its key matches) followed by that of `s` |
| `StableSort.InsertStable` | dashwithtables/__init__.py:50 | the inserted record goes ahead of every record with an equal key, and the other equal-key subsequences are unchanged |
| `StableSort.SortByStable` | dashwithtables/__init__.py:50 | for every value `v`, the records with key `v` appear in the same order after sorting as before (stability) |
| `StableSort.FilterNonEmpty` | dashwithtables/__init__.py:50 | a non-empty equal-key subsequence means some record has that key |
| `StableSort.SameHeadKey` | dashwithtables/__init__.py:50 | two ascending lists with the same equal-key subsequences start with the same key |
| `StableSort.HeadsAndTails` | dashwithtables/__init__.py:50 | with equal head keys they have equal heads and equal tail subsequences |
| `StableSort.SortedStableUnique` | dashwithtables/__init__.py:50 | two ascending lists with the same equal-key subsequences are equal |
| `StableSort.SortByIsUnique` | dashwithtables/__init__.py:50 | any ascending list with the input's equal-key subsequences (what a stable `sorted` returns) is exactly `SortBy`'s result |
| `DashWithTables.GenerateTable` | dashwithtables/__init__.py:17-27 | an empty list fails with IndexError and nothing else fails; the header has one label per key of the first record, in its order; there is one row per record, in input order, and row `i` holds record `i`'s values in its key order; for uniform records every row is as wide as the header |
| `DashWithTables.RenderRoundTrip` | dashwithtables/__init__.py:17-27 | reading the table back (pairing each row with the header) gives exactly the input if and only if all records share the first record's key order |
| `DashWithTables.SortTable` | dashwithtables/__init__.py:48-51 | KeyError exactly when some record lacks the column; TypeError exactly when the column mixes strings and numbers; IndexError exactly when the dataset is empty; on success one row per record |
| `DashWithTables.SortByUniform` | dashwithtables/__init__.py:50 | sorting a uniform dataset keeps it uniform with the first record's key order |
| `DashWithTables.SortTableCorrect` | dashwithtables/__init__.py:48-51 | for uniform records a successful sort renders a table that reads back as the sorted list, which is a permutation of the dataset, ascending and stable; its header equals the unsorted render's header |
| `DashWithTables.FoodSortTable` | test/test_test.py:23-33 | for non-empty food-interest records and any of the four dropdown columns, the sort succeeds with header `Country, Pho, Ramen, Soba`, one row per record, four cells each |
| `Scenario.RamenKey` | test/test_test.py:26 | sorting a food-interest row by `Ramen` uses its Ramen score as the key |
| `Scenario.RamenOrderExample` | test/test_test.py:26-38 | on three records sorted by `Ramen`, the lowest score comes first and the two tied records keep their order; the order follows from `SortByIsUnique`, since it is the only one that is ascending and keeps the tie's order |
| `Scenario.RamenSortTableIsRender` | dashwithtables/__init__.py:50-51 | on those records the callback is `generate_table` of that order |
| `Scenario.RenderThreeRows` | dashwithtables/__init__.py:17-27 | the three sorted records render as the fixed header and their three rows of values |
| `Scenario.SortByRamenExample` | test/test_test.py:23-38 | the callback on those records returns the fixed header, then the rows in sorted order |
| `Scenario.MissingColumnExample` | dashwithtables/__init__.py:50 | sorting by a column the records lack is a KeyError |

## Left out

- Dash app construction, `app.layout`, the `Dropdown`, `H3` and `Div` components and their ids, and the component ids `food-table`, `headers` and `row-data` in the table tree: UI markup with no logic.
- Callback registration with `@app.callback`, `Input`/`Output` and `app.callback_map`, and Dash calling the callback at page load with the dropdown's default `Country`: framework plumbing.
- HTTP serving, `serve_layout`, status codes and JSON serialization of component trees: I/O and foreign library code.
- The dataset module `dashwithtables/food_interest_data` is not part of this model. The model takes the dataset as a parameter, so the 24-country dataset and the exact `Ramen` order in the test are not reproduced. The worked instance uses three made-up records instead.
- Records.Le: orders numbers before strings when the kinds differ. Python raises TypeError there instead. `SortTable` reports that TypeError before sorting, so this choice never shows in a result.
- Records.Lookup, StableSort.KeyOf, Records.StrLe and Records.Le: carry no contract inside their definitions, because such a clause is re-read at every use of the definition and made the proofs that use it too costly to verify. Their contracts are the lemmas `Records.LookupSpec`, `Records.StrLeFirstDifference`, `Records.StrLeSpec` and the `Records.Le*` order lemmas.
- Scores are assumed to be integers. Floats, and Python's mixed int/float/bool comparisons, are not modelled.
- Python's timsort is not modelled step by step. It is replaced by a stable insertion sort, and `StableSort.SortByIsUnique` shows that every stable ascending sort gives the same result.
