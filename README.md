# Price list analyzer, modelled in Dafny

`project.py` defines one class, `PriceMachine`. It reads CSV price lists
from a directory. For each list it picks the product-name, price and weight
columns out of the header line, using fixed Russian synonym lists. It keeps
every record whose price and weight are numbers with a non-zero weight,
together with the price per kilogram. It can then search the kept rows by
name, ordered by price per kilogram, and sort them by name for an HTML
export.

The model has four modules:

- `Wrappers` (`wrappers.dfy`): the `Option` type, used for Python's `None`.
- `Strings` (`strings.dfy`):
  - Python's `in` on strings, proved equal to "occurs at some index";
  - Python's string order on code points, proved to be a total order.
- `Sorting` (`sorting.dfy`): a stable sort by key, like Python's `sorted`.
  It is proved ordered, a permutation, and stable. Stable means that, for
  every key, the elements with that key keep their relative order.
- `PriceAnalyzer` (`price_machine.dfy`):
  - the input data;
  - the header search;
  - one step of the record loop;
  - the skip/raise fold over records and files;
  - the search and the name sort;
  - the class `PriceMachine`. Its field `data` is `self.data`. Its methods
    `SearchProductPriceWeight`, `LoadPrices` (helpers `LoadFileInto` and
    `LoadRecords`) and `ExportToHtml` are loops and field updates. `FindText`
    is a function that reads `data`.

The directory listing and the CSV reader are given as data. A file is its
name, its header list (`None` for an empty file) and its records as maps
from header to cell. DictReader fills the missing cells of a short record
with `None`; the model represents such a cell by leaving its key out, and
looking it up gives `None` either way.

`str.lower`, `float(...)` and the rounded quotient `round(price / weight, 2)`
come from an `Env` value. In it, `parse` returns `None` exactly where `float`
raises `ValueError`.

Uncaught exceptions are modelled as outcomes, not as preconditions:

- A price-named file with no header line raises `TypeError` in the header
  loop.
- A record whose price cell is missing raises `TypeError` at `float(None)`.
- So does a record whose price parses but whose weight cell is missing.
  `float(price)` runs first.
- Either way, `LoadPrices` returns `raised` and keeps the rows appended
  before the failure.
- `FindText` returns `None` when some loaded row has no name. Every row's
  name is lower-cased, whether or not it would match.
- `ExportToHtml` raises, and leaves `data` as it was, exactly when there
  are two or more rows and one of them has no name. Sorting then has to
  compare a `None`.

## Model

| member | source | states |
|---|---|---|
| Strings.IsSubstringCorrect | project.py:21 | `IsSubstring`, the substring test used for `'price' in name` and for the search is true exactly when the pattern occurs at some index of the string |
| Strings.StrLeTotal | project.py:59 | any two names are comparable in `StrLe`, Python's code-point lexicographic string order |
| Strings.StrLeAntisymmetric | project.py:59 | two names each at most the other are equal |
| Strings.StrLeTransitive | project.py:59 | the string order is transitive |
| Sorting.SortBy | project.py:59 | the sort used for both `sorted` calls yields a result ordered by the key, with the same multiset of elements, keeping equal-key elements in their input order |
| Sorting.InsertSorted | project.py:59 | inserting into a sorted list keeps it sorted |
| Sorting.InsertWithKey | project.py:59 | inserting an element adds it to the front of its key's subsequence and changes no other key's subsequence |
| PriceAnalyzer.LastMatchCorrect | project.py:42-53 | for `LastMatch`, the header search for one category: a category is None exactly when no header lower-cases into its synonym list; otherwise it is a header of the list that does, and no later header does |
| PriceAnalyzer.LastMatchIgnoresCase | project.py:47-51 | header lists that lower-case alike fill a category alike, with headers that lower-case alike |
| PriceAnalyzer.ColumnsOfIgnoresCase | project.py:46-53 | for `ColumnsOf`, the three categories the header search returns: header lists that lower-case alike fill the same name, price and weight categories |
| PriceAnalyzer.PriceMachine.constructor | project.py:8-10 | a new machine holds no rows |
| PriceAnalyzer.PriceMachine.SearchProductPriceWeight | project.py:38-53 | the loop with its elif chain returns `ColumnsOf`: for each category, the last matching header, or None |
| PriceAnalyzer.StepCorrect | project.py:28-36 | for `Step`, one pass of the record loop: a record is appended exactly when its price and weight parse and the weight is non-zero, with the file name, the record's name, price and weight cells and their price per kilogram; it raises exactly when the price cell is missing, or the price parses and the weight cell is missing; any other record is skipped |
| PriceAnalyzer.ChainConcat | project.py:20-36 | running the load over two stretches of input one after the other is the same as running it over their concatenation |
| PriceAnalyzer.ChainCorrect | project.py:20-36 | every row a load appends comes from one of its steps; a load raises exactly when one of its steps raises; a load that does not raise keeps every row of every step |
| PriceAnalyzer.ChainPrefixRaised | project.py:20-36 | once the load has raised, the steps after it add nothing: an uncaught exception ends both loops |
| PriceAnalyzer.LoadRowsCorrect | project.py:27-36 | for `LoadRows`, the record loop of one file: every row the record loop appends is well formed, carries the file name and comes from one of the file's records; the loop raises exactly when some record raises; a loop that does not raise appends every accepted record |
| PriceAnalyzer.SkippedRowIsDropped | project.py:33-35 | a skipped record changes nothing, and the loop goes on with the next record of the same file |
| PriceAnalyzer.LoadRowsConcat | project.py:27-36 | the record loop over `a + b` is the loop over `a` followed, unless it raised, by the loop over `b` |
| PriceAnalyzer.LoadFileCorrect | project.py:20-36 | for `LoadFile`, one pass of the file loop, and `IsPriceFile`, its test on the file name: the rows one directory entry contributes carry its name, come from a file whose lower-cased name contains "price", and are well formed |
| PriceAnalyzer.LoadAllCorrect | project.py:20-36 | for `LoadAll`, the whole file loop: every row the whole load appends is well formed and names a listed file whose lower-cased name contains "price"; the load raises exactly when some file raises; a load that does not raise appends every file's rows |
| PriceAnalyzer.LoadAllConcat | project.py:20-36 | loading the listing `a + b` is loading `a` followed, unless it raised, by loading `b` |
| PriceAnalyzer.PriceMachine.LoadPrices | project.py:12-36 | `data` becomes its old value followed by the load's rows, so earlier rows stay in place; `raised` tells whether an uncaught exception ended the load |
| PriceAnalyzer.PriceMachine.LoadFileInto | project.py:21-27 | a file whose name does not lower-case to contain "price" adds nothing; a price file without a header line raises; otherwise its records are loaded under the columns its header gives |
| PriceAnalyzer.PriceMachine.LoadRecords | project.py:27-36 | the record loop appends exactly the rows of the record fold, in order, and stops at the first raising record |
| PriceAnalyzer.Matching | project.py:67 | with `Matches` as the test of one row: the filtered rows are exactly the rows whose lower-cased name contains the lower-cased query, and the result's multiset is contained in the input's |
| PriceAnalyzer.MatchingCounts | project.py:67 | each matching row occurs in the filter as often as in the input, and a row that does not match does not occur at all |
| PriceAnalyzer.MatchingConcat | project.py:67 | filtering keeps the input order: the filter of `a + b` is the filter of `a` followed by the filter of `b` |
| PriceAnalyzer.EmptyQueryMatchesAll | project.py:67 | a query that lower-cases to the empty string matches every row |
| PriceAnalyzer.SortByPerKg | project.py:68 | the search result is a permutation in non-decreasing price per kilogram, with ties in their input order |
| PriceAnalyzer.Numbered | project.py:70 | the hits are numbered 1..n in order, and dropping the numbers gives the sorted rows back |
| PriceAnalyzer.PriceMachine.FindText | project.py:65-73 | fails exactly when some row has no name; otherwise its hit rows are exactly the matching rows of `data` as a permutation, ordered by price per kilogram with ties in their order in `data`, and hit i carries number i+1; each matching row occurs among the hits as often as in `data`; `data` is only read |
| PriceAnalyzer.SortByName | project.py:59 | the sorted data is a permutation of the data, ordered by name when every row is named, keeping rows with equal names in order; a list of at most one row is left as it is |
| PriceAnalyzer.PriceMachine.ExportToHtml | project.py:55-63 | raises exactly when there are two or more rows and one has no name, and then leaves `data` unchanged; otherwise `data` becomes its rows sorted by name |

## Left out

- Directory access (`os.listdir`, `open`) and the `FileNotFoundError` branch are left out. The listing is given as a sequence of files, in the order `os.listdir` returns.
- The `prices` list that `load_prices` fills is left out because nothing reads it. So is the field `self.result`, which nothing uses.
- CSV tokenising by `csv.DictReader` is left out. Each file's header list and records are given.
- A record with more fields than headers stores its extra fields as a list under the key `None`. Looking up a column that was not found then yields that list, not `None`. The model yields `None`. For the price and weight cells this gives the same `TypeError`. For the name cell, searching fails the same way. Sorting several rows whose names are all such lists would not raise in Python; the model says it raises.
- `float`, the division and `round(..., 2)` are abstract (`Env.parse`, `Env.perKg`). Floating-point numerics, NaN and infinities are not modelled. Price per kilogram is a `real`, ordered by `<=`.
- `str.lower` is an abstract string function. Full Unicode case mapping is not modelled.
- PriceAnalyzer.EmptyQueryMatchesAll: requires that the query lower-cases to the empty string, not that the query is empty, because `lower` is abstract.
- PriceAnalyzer.ColumnsOfIgnoresCase: states which categories are filled, not which header fills each one. LastMatchIgnoresCase states that the chosen headers lower-case alike.
- Rendering is left out: `tabulate`, the HTML wrapper strings and writing `output.html`. FindText returns the numbered rows rather than the rendered table.
- PriceAnalyzer.PriceMachine.ExportToHtml: does not model that the output file is opened, and `<html><body>` written, before the sort can raise.
- The interactive `input` loop, the hard-coded path, the top-level script and all `print` diagnostics are left out. They are terminal I/O.
