/**
 * The price machine of project.py: it reads CSV price lists, picks the
 * name, price and weight columns out of each header by synonym lists,
 * keeps the rows whose price and weight are numbers with a non-zero
 * weight, searches the kept rows by name and orders them for export.
 *
 * The directory listing and the CSV reader are given as data: a list of
 * files, each with its header list (absent for an empty file) and its rows
 * as maps from header to cell. Python's `str.lower`, `float` and the
 * rounded quotient `round(price / weight, 2)` are supplied by an `Env`.
 */
module PriceAnalyzer {

  import opened Wrappers
  import opened Strings
  import opened Sorting

  /**
   * What the machine takes from the Python runtime: lower-casing of a
   * string, `float(s)` (None where it raises ValueError), and the price per
   * kilogram computed from the two parsed numbers.
   */
  datatype Env = Env(
    lower: string -> string,
    parse: string -> Option<real>,
    perKg: (real, real) -> real)

  /**
   * One CSV record as csv.DictReader yields it. DictReader fills the missing
   * cells of a short record with None; the model leaves such a cell's key out.
   */
  type CsvRow = map<string, string>

  /** One directory entry and, when it is read, its header list and records. */
  datatype CsvFile = CsvFile(name: string, fieldnames: Option<seq<string>>, rows: seq<CsvRow>)

  /**
   * One loaded row: the name cell (None when the row has none), the price
   * and weight exactly as written in the file, the file name and the price
   * per kilogram.
   */
  datatype PriceRow = PriceRow(name: Option<string>, price: string, weight: string, file: string, perKg: real)

  /** The header chosen for each category, or None. */
  datatype Columns = Columns(name: Option<string>, price: Option<string>, weight: Option<string>)

  /** A search hit: its 1-based number in the result and the row. */
  datatype Hit = Hit(number: nat, row: PriceRow)

  const NameSynonyms: seq<string> := ["название", "продукт", "товар", "наименование"]
  const PriceSynonyms: seq<string> := ["цена", "розница"]
  const WeightSynonyms: seq<string> := ["фасовка", "масса", "вес"]

  /** No lower-cased header belongs to two categories. */
  lemma SynonymsDisjoint()
    ensures forall s :: s in NameSynonyms ==> s !in PriceSynonyms && s !in WeightSynonyms
    ensures forall s :: s in PriceSynonyms ==> s !in WeightSynonyms
  {
  }

  // ---------------------------------------------------------------------
  // Header normalisation
  // ---------------------------------------------------------------------

  /**
   * The last header whose lower-cased form is one of `synonyms`; None when
   * there is none.
   */
  function LastMatch(lower: string -> string, headers: seq<string>, synonyms: seq<string>): Option<string>
  {
    if headers == [] then None
    else
      var n := |headers| - 1;
      if lower(headers[n]) in synonyms then Some(headers[n])
      else LastMatch(lower, headers[..n], synonyms)
  }

  /**
   * A category is None exactly when no header matches it; otherwise it is
   * a matching header of the list after which no header matches.
   */
  lemma {:induction false} LastMatchCorrect(lower: string -> string, headers: seq<string>, synonyms: seq<string>)
    ensures LastMatch(lower, headers, synonyms).None? <==>
      forall i :: 0 <= i < |headers| ==> lower(headers[i]) !in synonyms
    ensures LastMatch(lower, headers, synonyms).Some? ==>
      exists i :: 0 <= i < |headers| && headers[i] == LastMatch(lower, headers, synonyms).value &&
        lower(headers[i]) in synonyms &&
        forall j :: i < j < |headers| ==> lower(headers[j]) !in synonyms
  {
    if headers != [] {
      var n := |headers| - 1;
      if lower(headers[n]) !in synonyms {
        var init := headers[..n];
        LastMatchCorrect(lower, init, synonyms);
        assert forall i :: 0 <= i < n ==> init[i] == headers[i];
        if LastMatch(lower, init, synonyms).Some? {
          var i :| 0 <= i < |init| && init[i] == LastMatch(lower, init, synonyms).value &&
            lower(init[i]) in synonyms &&
            forall j :: i < j < |init| ==> lower(init[j]) !in synonyms;
          assert headers[i] == init[i];
        }
      }
    }
  }

  /** The three columns `_search_product_price_weight` returns for `headers`. */
  function ColumnsOf(lower: string -> string, headers: seq<string>): Columns
  {
    Columns(
      LastMatch(lower, headers, NameSynonyms),
      LastMatch(lower, headers, PriceSynonyms),
      LastMatch(lower, headers, WeightSynonyms))
  }

  /**
   * Matching ignores case: two header lists that lower-case to the same
   * strings fill the same categories, with headers that lower-case alike.
   */
  lemma {:induction false} LastMatchIgnoresCase(lower: string -> string, h1: seq<string>, h2: seq<string>, synonyms: seq<string>)
    requires |h1| == |h2|
    requires forall i :: 0 <= i < |h1| ==> lower(h1[i]) == lower(h2[i])
    ensures LastMatch(lower, h1, synonyms).Some? == LastMatch(lower, h2, synonyms).Some?
    ensures LastMatch(lower, h1, synonyms).Some? ==>
      lower(LastMatch(lower, h1, synonyms).value) == lower(LastMatch(lower, h2, synonyms).value)
  {
    if h1 != [] {
      var n := |h1| - 1;
      if lower(h1[n]) !in synonyms {
        LastMatchIgnoresCase(lower, h1[..n], h2[..n], synonyms);
      }
    }
  }

  lemma ColumnsOfIgnoresCase(lower: string -> string, h1: seq<string>, h2: seq<string>)
    requires |h1| == |h2|
    requires forall i :: 0 <= i < |h1| ==> lower(h1[i]) == lower(h2[i])
    ensures ColumnsOf(lower, h1).name.Some? == ColumnsOf(lower, h2).name.Some?
    ensures ColumnsOf(lower, h1).price.Some? == ColumnsOf(lower, h2).price.Some?
    ensures ColumnsOf(lower, h1).weight.Some? == ColumnsOf(lower, h2).weight.Some?
  {
    LastMatchIgnoresCase(lower, h1, h2, NameSynonyms);
    LastMatchIgnoresCase(lower, h1, h2, PriceSynonyms);
    LastMatchIgnoresCase(lower, h1, h2, WeightSynonyms);
  }

  // ---------------------------------------------------------------------
  // Row acceptance
  // ---------------------------------------------------------------------

  /** The cell of `column` in a record: None when no column was found or the record lacks it. */
  function Cell(row: CsvRow, column: Option<string>): Option<string>
  {
    if column.Some? && column.value in row then Some(row[column.value]) else None
  }

  /** Both numbers parse and the weight is not zero. */
  predicate Accepted(env: Env, columns: Columns, row: CsvRow)
  {
    var price := Cell(row, columns.price);
    var weight := Cell(row, columns.weight);
    && price.Some? && weight.Some?
    && env.parse(price.value).Some? && env.parse(weight.value).Some?
    && env.parse(weight.value).value != 0.0
  }

  /** A loaded row's price and weight parse, its weight is not zero, and its price per kilogram is theirs. */
  predicate WellFormed(env: Env, x: PriceRow)
  {
    && env.parse(x.price).Some? && env.parse(x.weight).Some?
    && env.parse(x.weight).value != 0.0
    && x.perKg == env.perKg(env.parse(x.price).value, env.parse(x.weight).value)
  }

  /** What one CSV record does to the load. */
  datatype RowStep = Append(row: PriceRow) | Skip | Raise

  /**
   * One pass of the record loop. `float(price)` runs first: on a missing
   * cell it raises TypeError, which nothing catches; on text that is not a
   * number it raises ValueError and the record is skipped. Then the same
   * for the weight, and a zero weight is skipped by ZeroDivisionError.
   */
  function Step(env: Env, columns: Columns, file: string, row: CsvRow): RowStep
  {
    var price := Cell(row, columns.price);
    if price.None? then Raise
    else match env.parse(price.value)
      case None => Skip
      case Some(p) =>
        var weight := Cell(row, columns.weight);
        if weight.None? then Raise
        else match env.parse(weight.value)
          case None => Skip
          case Some(w) =>
            if w == 0.0 then Skip
            else Append(PriceRow(Cell(row, columns.name), price.value, weight.value, file, env.perKg(p, w)))
  }

  /**
   * A record is appended exactly when it is accepted, and then as a well
   * formed row with the file's name and the record's cells; it raises
   * exactly when its price cell is missing, or its price parses and its
   * weight cell is missing; every other record is skipped.
   */
  lemma StepCorrect(env: Env, columns: Columns, file: string, row: CsvRow)
    ensures Step(env, columns, file, row).Append? <==> Accepted(env, columns, row)
    ensures Step(env, columns, file, row).Raise? <==>
      || Cell(row, columns.price).None?
      || (env.parse(Cell(row, columns.price).value).Some? && Cell(row, columns.weight).None?)
    ensures var r := Step(env, columns, file, row);
      r.Append? ==>
        && WellFormed(env, r.row)
        && r.row.file == file
        && r.row.name == Cell(row, columns.name)
        && Cell(row, columns.price) == Some(r.row.price)
        && Cell(row, columns.weight) == Some(r.row.weight)
  {
  }

  // ---------------------------------------------------------------------
  // Loading
  // ---------------------------------------------------------------------

  /** The rows a stretch of the load appends, and whether it ended by raising. */
  datatype Loaded = Loaded(rows: seq<PriceRow>, raised: bool)

  /** `a` followed by `b`: once `a` has raised, nothing after it runs. */
  function Then(a: Loaded, b: Loaded): Loaded
  {
    if a.raised then a else Loaded(a.rows + b.rows, b.raised)
  }

  lemma ThenAssociative(a: Loaded, b: Loaded, c: Loaded)
    ensures Then(Then(a, b), c) == Then(a, Then(b, c))
  {
  }

  /** Stretches run one after another, from the first to the last, until one raises. */
  function Chain(parts: seq<Loaded>): Loaded
  {
    if parts == [] then Loaded([], false)
    else Then(Chain(parts[..|parts| - 1]), parts[|parts| - 1])
  }

  /** A run over `a + b` is the run over `a` followed by the run over `b`. */
  lemma {:induction false} ChainConcat(a: seq<Loaded>, b: seq<Loaded>)
    ensures Chain(a + b) == Then(Chain(a), Chain(b))
    decreases |b|
  {
    if b == [] {
      assert a + b == a;
    } else {
      var n := |b| - 1;
      assert (a + b)[..|a + b| - 1] == a + b[..n];
      assert (a + b)[|a + b| - 1] == b[n];
      ChainConcat(a, b[..n]);
      ThenAssociative(Chain(a), Chain(b[..n]), b[n]);
    }
  }

  /**
   * Every row of a run comes from one of its stretches; the run raises
   * exactly when one of its stretches does; and a run that does not raise
   * keeps every row of every stretch.
   */
  lemma {:induction false} ChainCorrect(parts: seq<Loaded>)
    ensures forall x :: x in Chain(parts).rows ==> exists i :: 0 <= i < |parts| && x in parts[i].rows
    ensures Chain(parts).raised <==> exists i :: 0 <= i < |parts| && parts[i].raised
    ensures !Chain(parts).raised ==>
      forall i, x :: 0 <= i < |parts| && x in parts[i].rows ==> x in Chain(parts).rows
  {
    if parts != [] {
      var n := |parts| - 1;
      ChainCorrect(parts[..n]);
      assert forall i :: 0 <= i < n ==> parts[..n][i] == parts[i];
    }
  }

  /**
   * The run after stretch `i`, when the stretches before it did not raise:
   * its rows are appended, and it raises when stretch `i` does.
   */
  lemma ChainStep(parts: seq<Loaded>, i: nat)
    requires i < |parts|
    requires !Chain(parts[..i]).raised
    ensures Chain(parts[..i + 1]) == Loaded(Chain(parts[..i]).rows + parts[i].rows, parts[i].raised)
  {
    assert parts[..i + 1][..i] == parts[..i];
  }

  /** Once a prefix of the run has raised, nothing after it runs. */
  lemma {:induction false} ChainPrefixRaised(parts: seq<Loaded>, n: nat)
    requires n <= |parts|
    requires Chain(parts[..n]).raised
    ensures Chain(parts) == Chain(parts[..n])
    decreases |parts| - n
  {
    if n == |parts| {
      assert parts[..n] == parts;
    } else {
      assert parts[..n + 1][..n] == parts[..n];
      assert Chain(parts[..n + 1]) == Chain(parts[..n]);
      ChainPrefixRaised(parts, n + 1);
    }
  }

  /** The loop step behind both loads: a stretch that does not raise appends its rows. */
  lemma ChainExtend(parts: seq<Loaded>, i: nat, base: seq<PriceRow>, before: seq<PriceRow>, after: seq<PriceRow>)
    requires i < |parts|
    requires !Chain(parts[..i]).raised && before == base + Chain(parts[..i]).rows
    requires !parts[i].raised && after == before + parts[i].rows
    ensures !Chain(parts[..i + 1]).raised && after == base + Chain(parts[..i + 1]).rows
  {
    ChainStep(parts, i);
    assert after == base + (Chain(parts[..i]).rows + parts[i].rows);
  }

  /** The loop step behind both loads: a stretch that raises ends the run with its rows appended. */
  lemma ChainStop(parts: seq<Loaded>, i: nat, base: seq<PriceRow>, before: seq<PriceRow>, after: seq<PriceRow>)
    requires i < |parts|
    requires !Chain(parts[..i]).raised && before == base + Chain(parts[..i]).rows
    requires parts[i].raised && after == before + parts[i].rows
    ensures Chain(parts).raised && after == base + Chain(parts).rows
  {
    var done := Chain(parts[..i]).rows;
    ChainStep(parts, i);
    ChainPrefixRaised(parts, i + 1);
    AppendAssociative(base, done, parts[i].rows);
  }

  function StepLoaded(s: RowStep): Loaded
  {
    match s
    case Append(x) => Loaded([x], false)
    case Skip => Loaded([], false)
    case Raise => Loaded([], true)
  }

  function RowParts(env: Env, columns: Columns, file: string, rows: seq<CsvRow>): seq<Loaded>
  {
    seq(|rows|, i requires 0 <= i < |rows| => StepLoaded(Step(env, columns, file, rows[i])))
  }

  /** The record loop over one file, from the first record to the last. */
  function LoadRows(env: Env, columns: Columns, file: string, rows: seq<CsvRow>): Loaded
  {
    Chain(RowParts(env, columns, file, rows))
  }

  /**
   * Every row the record loop appends comes from a record of the file,
   * carries the file's name and is well formed; the loop raises exactly
   * when some record raises; and when it does not raise, every accepted
   * record is appended.
   */
  lemma LoadRowsCorrect(env: Env, columns: Columns, file: string, rows: seq<CsvRow>)
    ensures var r := LoadRows(env, columns, file, rows);
      forall x :: x in r.rows ==>
        x.file == file && WellFormed(env, x) &&
        exists i :: 0 <= i < |rows| && Step(env, columns, file, rows[i]) == Append(x)
    ensures LoadRows(env, columns, file, rows).raised <==>
      exists i :: 0 <= i < |rows| && Step(env, columns, file, rows[i]).Raise?
    ensures var r := LoadRows(env, columns, file, rows);
      !r.raised ==> forall i :: 0 <= i < |rows| && Accepted(env, columns, rows[i]) ==>
        Step(env, columns, file, rows[i]).row in r.rows
  {
    var parts := RowParts(env, columns, file, rows);
    ChainCorrect(parts);
    var r := Chain(parts);
    forall x | x in r.rows
      ensures x.file == file && WellFormed(env, x)
      ensures exists i :: 0 <= i < |rows| && Step(env, columns, file, rows[i]) == Append(x)
    {
      var i :| 0 <= i < |parts| && x in parts[i].rows;
      StepCorrect(env, columns, file, rows[i]);
      assert Step(env, columns, file, rows[i]) == Append(x);
    }
    if r.raised {
      var i :| 0 <= i < |parts| && parts[i].raised;
      assert Step(env, columns, file, rows[i]).Raise?;
    }
    if i :| 0 <= i < |rows| && Step(env, columns, file, rows[i]).Raise? {
      assert parts[i].raised;
    }
    if !r.raised {
      forall i | 0 <= i < |rows| && Accepted(env, columns, rows[i])
        ensures Step(env, columns, file, rows[i]).row in r.rows
      {
        StepCorrect(env, columns, file, rows[i]);
        assert Step(env, columns, file, rows[i]).row in parts[i].rows;
      }
    }
  }

  /** The record loop over `a + b` is the loop over `a` followed by the loop over `b`. */
  lemma LoadRowsConcat(env: Env, columns: Columns, file: string, a: seq<CsvRow>, b: seq<CsvRow>)
    ensures LoadRows(env, columns, file, a + b)
         == Then(LoadRows(env, columns, file, a), LoadRows(env, columns, file, b))
  {
    assert RowParts(env, columns, file, a + b)
        == RowParts(env, columns, file, a) + RowParts(env, columns, file, b);
    ChainConcat(RowParts(env, columns, file, a), RowParts(env, columns, file, b));
  }

  /** A skipped record leaves the load unchanged and the loop goes on with the next record. */
  lemma SkippedRowIsDropped(env: Env, columns: Columns, file: string, a: seq<CsvRow>, row: CsvRow, b: seq<CsvRow>)
    requires Step(env, columns, file, row).Skip?
    ensures LoadRows(env, columns, file, a + [row] + b) == LoadRows(env, columns, file, a + b)
  {
    var la := LoadRows(env, columns, file, a);
    assert RowParts(env, columns, file, [row]) == [Loaded([], false)];
    assert Chain([Loaded([], false)]) == Loaded([], false) by {
      assert [Loaded([], false)][..0] == [];
    }
    LoadRowsConcat(env, columns, file, a, [row]);
    assert la.rows + [] == la.rows;
    assert LoadRows(env, columns, file, a + [row]) == la;
    LoadRowsConcat(env, columns, file, a + [row], b);
    LoadRowsConcat(env, columns, file, a, b);
  }

  /** Only files whose lower-cased name contains "price" are read. */
  predicate IsPriceFile(env: Env, name: string)
  {
    IsSubstring("price", env.lower(name))
  }

  /**
   * One file of the listing. A file that is read but has no header line
   * raises TypeError when the header search iterates over None.
   */
  function LoadFile(env: Env, f: CsvFile): Loaded
  {
    if !IsPriceFile(env, f.name) then Loaded([], false)
    else if f.fieldnames.None? then Loaded([], true)
    else LoadRows(env, ColumnsOf(env.lower, f.fieldnames.value), f.name, f.rows)
  }

  function FileParts(env: Env, files: seq<CsvFile>): seq<Loaded>
  {
    seq(|files|, j requires 0 <= j < |files| => LoadFile(env, files[j]))
  }

  /** `load_prices` over a listing, from the first file to the last. */
  function LoadAll(env: Env, files: seq<CsvFile>): Loaded
  {
    Chain(FileParts(env, files))
  }

  /** The rows a file contributes carry its name and are well formed. */
  lemma LoadFileCorrect(env: Env, f: CsvFile)
    ensures forall x :: x in LoadFile(env, f).rows ==>
      x.file == f.name && IsPriceFile(env, f.name) && WellFormed(env, x)
  {
    if IsPriceFile(env, f.name) && f.fieldnames.Some? {
      LoadRowsCorrect(env, ColumnsOf(env.lower, f.fieldnames.value), f.name, f.rows);
    }
  }

  /**
   * Every row the whole load appends is well formed and names a listed
   * file whose lower-cased name contains "price"; the load raises exactly
   * when some file raises; and when it does not, every row of every file
   * is appended.
   */
  lemma LoadAllCorrect(env: Env, files: seq<CsvFile>)
    ensures forall x :: x in LoadAll(env, files).rows ==>
      WellFormed(env, x) &&
      exists j :: 0 <= j < |files| && files[j].name == x.file && IsPriceFile(env, files[j].name)
    ensures LoadAll(env, files).raised <==> exists j :: 0 <= j < |files| && LoadFile(env, files[j]).raised
    ensures !LoadAll(env, files).raised ==>
      forall j, x :: 0 <= j < |files| && x in LoadFile(env, files[j]).rows ==> x in LoadAll(env, files).rows
  {
    var parts := FileParts(env, files);
    ChainCorrect(parts);
    var r := Chain(parts);
    forall x | x in r.rows
      ensures WellFormed(env, x)
      ensures exists j :: 0 <= j < |files| && files[j].name == x.file && IsPriceFile(env, files[j].name)
    {
      var j :| 0 <= j < |parts| && x in parts[j].rows;
      LoadFileCorrect(env, files[j]);
    }
    if r.raised {
      var j :| 0 <= j < |parts| && parts[j].raised;
      assert LoadFile(env, files[j]).raised;
    }
    if j :| 0 <= j < |files| && LoadFile(env, files[j]).raised {
      assert parts[j].raised;
    }
    if !r.raised {
      forall j, x | 0 <= j < |files| && x in LoadFile(env, files[j]).rows
        ensures x in r.rows
      {
        assert x in parts[j].rows;
      }
    }
  }

  /** The load of `a + b` is the load of `a` followed by the load of `b`. */
  lemma LoadAllConcat(env: Env, a: seq<CsvFile>, b: seq<CsvFile>)
    ensures LoadAll(env, a + b) == Then(LoadAll(env, a), LoadAll(env, b))
  {
    assert FileParts(env, a + b) == FileParts(env, a) + FileParts(env, b);
    ChainConcat(FileParts(env, a), FileParts(env, b));
  }

  // ---------------------------------------------------------------------
  // Search and export
  // ---------------------------------------------------------------------

  /** Every row has a name; lower-casing the name of any other raises. */
  predicate AllNamed(rows: seq<PriceRow>)
  {
    forall i :: 0 <= i < |rows| ==> rows[i].name.Some?
  }

  /** The lower-cased query occurs in the row's lower-cased name. */
  predicate Matches(env: Env, text: string, x: PriceRow)
  {
    x.name.Some? && IsSubstring(env.lower(text), env.lower(x.name.value))
  }

  /** The rows of `rows` that match `text`, in their order in `rows`. */
  function Matching(env: Env, text: string, rows: seq<PriceRow>): (r: seq<PriceRow>)
    ensures forall x :: x in r <==> x in rows && Matches(env, text, x)
    ensures multiset(r) <= multiset(rows)
  {
    if rows == [] then []
    else
      assert rows == [rows[0]] + rows[1..];
      (if Matches(env, text, rows[0]) then [rows[0]] else []) + Matching(env, text, rows[1..])
  }

  /** Each matching row occurs in the filter as often as in the input; no other row occurs. */
  lemma {:induction false} MatchingCounts(env: Env, text: string, rows: seq<PriceRow>)
    ensures forall y :: multiset(Matching(env, text, rows))[y] == if Matches(env, text, y) then multiset(rows)[y] else 0
  {
    if rows != [] {
      MatchingCounts(env, text, rows[1..]);
      assert rows == [rows[0]] + rows[1..];
    }
  }

  /** A rearrangement of the filter holds the matching rows of the input, each as often as the input does. */
  lemma RearrangedMatching(env: Env, text: string, rows: seq<PriceRow>, r: seq<PriceRow>)
    requires multiset(r) == multiset(Matching(env, text, rows))
    ensures forall y :: multiset(r)[y] == if Matches(env, text, y) then multiset(rows)[y] else 0
    ensures forall x :: x in r <==> x in rows && Matches(env, text, x)
  {
    MatchingCounts(env, text, rows);
    forall x ensures x in r <==> x in rows && Matches(env, text, x) {
      assert x in r <==> multiset(r)[x] > 0;
      assert x in rows <==> multiset(rows)[x] > 0;
    }
  }

  lemma AppendAssociative<T>(x: seq<T>, y: seq<T>, z: seq<T>)
    ensures x + (y + z) == (x + y) + z
  {
  }

  /** Filtering keeps the order of the rows: it distributes over concatenation. */
  lemma {:induction false} MatchingConcat(env: Env, text: string, a: seq<PriceRow>, b: seq<PriceRow>)
    ensures Matching(env, text, a + b) == Matching(env, text, a) + Matching(env, text, b)
  {
    if a != [] {
      var ab := a + b;
      var h: seq<PriceRow> := if Matches(env, text, a[0]) then [a[0]] else [];
      assert ab[0] == a[0] && ab[1..] == a[1..] + b;
      assert Matching(env, text, ab) == h + Matching(env, text, a[1..] + b);
      MatchingConcat(env, text, a[1..], b);
      assert Matching(env, text, a) == h + Matching(env, text, a[1..]);
      AppendAssociative(h, Matching(env, text, a[1..]), Matching(env, text, b));
    } else {
      assert a + b == b;
      assert Matching(env, text, a) == [];
    }
  }

  /** The empty query (whose lower-cased form is empty) keeps every named row. */
  lemma {:induction false} EmptyQueryMatchesAll(env: Env, text: string, rows: seq<PriceRow>)
    requires env.lower(text) == ""
    requires AllNamed(rows)
    ensures Matching(env, text, rows) == rows
  {
    if rows != [] {
      EmptyIsSubstring(env.lower(rows[0].name.value));
      assert AllNamed(rows[1..]) by {
        forall i | 0 <= i < |rows[1..]| ensures rows[1..][i].name.Some? {
          assert rows[1..][i] == rows[i + 1];
        }
      }
      EmptyQueryMatchesAll(env, text, rows[1..]);
      assert rows == [rows[0]] + rows[1..];
    }
  }

  function PerKgKey(x: PriceRow): real
  {
    x.perKg
  }

  predicate RealLe(a: real, b: real)
  {
    a <= b
  }

  lemma RealLeIsTotalOrder()
    ensures TotalOrder(RealLe)
  {
  }

  /** The sort key of `export_to_html`; it is consulted only when every row is named. */
  function NameKey(x: PriceRow): string
  {
    if x.name.Some? then x.name.value else ""
  }

  lemma StrLeIsTotalOrder()
    ensures TotalOrder(StrLe)
  {
    forall a, b ensures StrLe(a, b) || StrLe(b, a) {
      StrLeTotal(a, b);
    }
    forall a, b | StrLe(a, b) && StrLe(b, a) ensures a == b {
      StrLeAntisymmetric(a, b);
    }
    forall a, b, c | StrLe(a, b) && StrLe(b, c) ensures StrLe(a, c) {
      StrLeTransitive(a, b, c);
    }
  }

  /**
   * Python's `sorted` keyed on the name: a permutation of `rows`, ordered
   * by name, that keeps rows with equal names in their order; a list of at
   * most one row is returned as it is.
   */
  function SortByName(rows: seq<PriceRow>): (r: seq<PriceRow>)
    ensures multiset(r) == multiset(rows)
    ensures AllNamed(rows) ==> AllNamed(r)
    ensures AllNamed(rows) ==> forall i, j :: 0 <= i < j < |r| ==> StrLe(r[i].name.value, r[j].name.value)
    ensures StableFor(r, rows, NameKey)
    ensures |rows| <= 1 ==> r == rows
  {
    assert TotalOrder(StrLe) by { StrLeIsTotalOrder(); }
    var r := SortBy(rows, NameKey, StrLe);
    assert AllNamed(rows) ==> AllNamed(r) by {
      if AllNamed(rows) {
        forall i | 0 <= i < |r| ensures r[i].name.Some? {
          assert r[i] in multiset(rows);
        }
      }
    }
    r
  }

  /** Python's `sorted` keyed on the price per kilogram: a stable permutation in that order. */
  function SortByPerKg(rows: seq<PriceRow>): (r: seq<PriceRow>)
    ensures multiset(r) == multiset(rows)
    ensures forall i, j :: 0 <= i < j < |r| ==> r[i].perKg <= r[j].perKg
    ensures StableFor(r, rows, PerKgKey)
  {
    assert TotalOrder(RealLe) by { RealLeIsTotalOrder(); }
    SortBy(rows, PerKgKey, RealLe)
  }

  /** Numbers the rows 1..n in order; dropping the numbers gives the rows back. */
  function Numbered(rows: seq<PriceRow>): (r: seq<Hit>)
    ensures forall i :: 0 <= i < |r| ==> r[i].number == i + 1
    ensures HitRows(r) == rows
  {
    seq(|rows|, i requires 0 <= i < |rows| => Hit(i + 1, rows[i]))
  }

  function HitRows(hits: seq<Hit>): seq<PriceRow>
  {
    seq(|hits|, i requires 0 <= i < |hits| => hits[i].row)
  }

  // ---------------------------------------------------------------------
  // The machine
  // ---------------------------------------------------------------------

  class PriceMachine {

    /** The loaded rows, `self.data`. */
    var data: seq<PriceRow>

    constructor ()
      ensures data == []
    {
      data := [];
    }

    /**
     * `_search_product_price_weight`: one pass over the headers; a header
     * is tested against the name synonyms, then the price synonyms, then
     * the weight synonyms, and a later match overwrites an earlier one.
     */
    static method SearchProductPriceWeight(lower: string -> string, headers: seq<string>) returns (columns: Columns)
      ensures columns == ColumnsOf(lower, headers)
    {
      SynonymsDisjoint();
      var name: Option<string> := None;
      var price: Option<string> := None;
      var weight: Option<string> := None;
      for i := 0 to |headers|
        invariant name == LastMatch(lower, headers[..i], NameSynonyms)
        invariant price == LastMatch(lower, headers[..i], PriceSynonyms)
        invariant weight == LastMatch(lower, headers[..i], WeightSynonyms)
      {
        var header := headers[i];
        assert headers[..i + 1][..i] == headers[..i];
        if lower(header) in NameSynonyms {
          name := Some(header);
        } else if lower(header) in PriceSynonyms {
          price := Some(header);
        } else if lower(header) in WeightSynonyms {
          weight := Some(header);
        }
      }
      assert headers[..|headers|] == headers;
      columns := Columns(name, price, weight);
    }

    /**
     * `load_prices` over a given listing. Rows are only ever appended to
     * `data`; `raised` tells whether an uncaught exception ended the load,
     * in which case the rows appended before it stay.
     */
    method LoadPrices(env: Env, files: seq<CsvFile>) returns (raised: bool)
      modifies this
      ensures data == old(data) + LoadAll(env, files).rows
      ensures raised == LoadAll(env, files).raised
    {
      ghost var parts := FileParts(env, files);
      for i := 0 to |files|
        invariant !Chain(parts[..i]).raised
        invariant data == old(data) + Chain(parts[..i]).rows
      {
        ghost var before := data;
        var failed := LoadFileInto(env, files[i]);
        assert parts[i] == LoadFile(env, files[i]);
        if failed {
          ChainStop(parts, i, old(data), before, data);
          return true;
        }
        ChainExtend(parts, i, old(data), before, data);
      }
      assert parts[..|files|] == parts;
      raised := false;
    }

    /**
     * One pass of the file loop of `load_prices`: a file whose name
     * contains "price" is read, its columns are found, and its records are
     * loaded. A file without a header line raises TypeError when the header
     * search iterates over the absent list.
     */
    method LoadFileInto(env: Env, file: CsvFile) returns (raised: bool)
      modifies this
      ensures data == old(data) + LoadFile(env, file).rows
      ensures raised == LoadFile(env, file).raised
    {
      raised := false;
      if IsPriceFile(env, file.name) {
        if file.fieldnames.None? {
          return true;
        }
        var columns := SearchProductPriceWeight(env.lower, file.fieldnames.value);
        raised := LoadRecords(env, columns, file.name, file.rows);
      }
    }

    /**
     * The record loop of `load_prices` for one file whose columns are
     * `columns`: each accepted record is appended to `data` in order.
     */
    method LoadRecords(env: Env, columns: Columns, file: string, rows: seq<CsvRow>) returns (raised: bool)
      modifies this
      ensures data == old(data) + LoadRows(env, columns, file, rows).rows
      ensures raised == LoadRows(env, columns, file, rows).raised
    {
      ghost var parts := RowParts(env, columns, file, rows);
      for j := 0 to |rows|
        invariant !Chain(parts[..j]).raised
        invariant data == old(data) + Chain(parts[..j]).rows
      {
        ghost var before := data;
        var row := rows[j];
        assert parts[j] == StepLoaded(Step(env, columns, file, row));
        var productName := Cell(row, columns.name);
        var price := Cell(row, columns.price);
        var weight := Cell(row, columns.weight);
        if price.None? {
          // float(None) raises TypeError, which is not caught
          ChainStop(parts, j, old(data), before, data);
          return true;
        }
        var p := env.parse(price.value);
        if p.Some? {
          if weight.None? {
            ChainStop(parts, j, old(data), before, data);
            return true;
          }
          var w := env.parse(weight.value);
          if w.Some? && w.value != 0.0 {
            data := data + [PriceRow(productName, price.value, weight.value, file, env.perKg(p.value, w.value))];
          }
        }
        ChainExtend(parts, j, old(data), before, data);
      }
      assert parts[..|rows|] == parts;
      raised := false;
    }

    /**
     * `find_text`: leaves `data` alone. It fails when some row has no
     * name; otherwise its hits are numbered 1..n, their rows are the
     * matching rows of `data` rearranged, ordered by price per kilogram,
     * and rows with equal price per kilogram keep their order in `data`.
     */
    function FindText(env: Env, text: string): (r: Option<seq<Hit>>)
      reads this
      ensures r.Some? <==> AllNamed(data)
      ensures r.Some? ==> forall i :: 0 <= i < |r.value| ==> r.value[i].number == i + 1
      ensures r.Some? ==> multiset(HitRows(r.value)) == multiset(Matching(env, text, data))
      ensures r.Some? ==> forall x :: x in HitRows(r.value) <==> x in data && Matches(env, text, x)
      ensures r.Some? ==> forall y :: multiset(HitRows(r.value))[y] == if Matches(env, text, y) then multiset(data)[y] else 0
      ensures r.Some? ==> forall i, j :: 0 <= i < j < |r.value| ==> r.value[i].row.perKg <= r.value[j].row.perKg
      ensures r.Some? ==> StableFor(HitRows(r.value), Matching(env, text, data), PerKgKey)
    {
      if !AllNamed(data) then None
      else
        var sorted := SortByPerKg(Matching(env, text, data));
        var hits := Numbered(sorted);
        assert HitRows(hits) == sorted;
        assert (forall y :: multiset(sorted)[y] == if Matches(env, text, y) then multiset(data)[y] else 0)
            && (forall x :: x in sorted <==> x in data && Matches(env, text, x)) by {
          RearrangedMatching(env, text, data, sorted);
        }
        Some(hits)
    }

    /**
     * The sort step of `export_to_html`: `data` becomes its rows sorted by
     * name. Comparing a row without a name raises TypeError, which happens
     * as soon as there are two rows to compare; `data` then stays as it was.
     * Writing the HTML file is not modelled.
     */
    method ExportToHtml() returns (raised: bool)
      modifies this
      ensures raised <==> |old(data)| >= 2 && !AllNamed(old(data))
      ensures raised ==> data == old(data)
      ensures !raised ==> data == SortByName(old(data))
    {
      if |data| >= 2 && !AllNamed(data) {
        return true;
      }
      data := SortByName(data);
      raised := false;
    }
  }
}
