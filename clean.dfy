/** The cleaning stage: the columnar records are exploded into one row per
    position, the rows are numbered from 1, every cell equal to the sentinel
    becomes null, and every row holding a null is dropped. Any failure along
    the way is caught, and only a successful run yields the rows to export.

    Reading the JSON file and writing the spreadsheet are not modelled: the
    input is the list of records the file decodes to (or nothing, when it
    cannot be read), and the output is the indexed rows that would be
    written. */
module Clean {
  import opened Records

  /** One table row; a cell is null (None) or holds a string. */
  datatype Row = Row(
    title: Option<string>,
    description: Option<string>,
    openedOn: Option<string>,
    link: Option<string>)

  /** A row with its index label. */
  datatype IndexedRow = IndexedRow(index: int, row: Row)

  /** Why cleaning stopped: the file could not be read, the decoded table
      has no columns to explode (no record at all), or the lists of one
      record have different element counts. */
  datatype CleanError = LoadFailed | MissingColumns | MismatchedCounts

  /** How many rows a list explodes to: its length, but one (a null cell)
      for an empty list. */
  function ElementCount(xs: seq<string>): (n: nat)
    ensures n >= 1 && (xs != [] ==> n == |xs|)
    ensures xs == [] ==> n == 1
  {
    if xs == [] then 1 else |xs|
  }

  /** The four lists of a record can be exploded together. */
  predicate CountsMatch(a: Aggregate) {
    ElementCount(a.description) == ElementCount(a.title) &&
    ElementCount(a.openedOn) == ElementCount(a.title) &&
    ElementCount(a.link) == ElementCount(a.title)
  }

  /** Cell k of an exploded list: its element k, or null past its end. */
  function CellAt(xs: seq<string>, k: nat): Option<string> {
    if k < |xs| then Some(xs[k]) else None
  }

  /** The row one record explodes to at position k. */
  function RowAt(a: Aggregate, k: nat): Row {
    Row(CellAt(a.title, k), CellAt(a.description, k), CellAt(a.openedOn, k), CellAt(a.link, k))
  }

  /** One record exploded: with N >= 1 values per list, N rows, row k taking
      element k of every list; with four empty lists, one all-null row. */
  function ExplodeRecord(a: Aggregate): (rows: seq<Row>)
    requires CountsMatch(a)
    ensures |rows| == ElementCount(a.title)
    ensures SameLength(a) && a.title != [] ==> |rows| == |a.title|
    ensures SameLength(a) && a.title != [] ==> forall k :: 0 <= k < |rows| ==>
      rows[k] == Row(Some(a.title[k]), Some(a.description[k]), Some(a.openedOn[k]), Some(a.link[k]))
    ensures SameLength(a) && a.title == [] ==> rows == [Row(None, None, None, None)]
  {
    seq(ElementCount(a.title), k requires 0 <= k => RowAt(a, k))
  }

  /** Every record can be exploded. */
  predicate AllCountsMatch(records: seq<Aggregate>) {
    forall i :: 0 <= i < |records| ==> CountsMatch(records[i])
  }

  /** The records exploded one after the other, in order. */
  function ExplodeAll(records: seq<Aggregate>): (rows: seq<Row>)
    requires AllCountsMatch(records)
  {
    if records == [] then []
    else ExplodeAll(records[..|records| - 1]) + ExplodeRecord(records[|records| - 1])
  }

  /** The number of rows the records explode to: the sum of their element
      counts. */
  function RowCount(records: seq<Aggregate>): nat {
    if records == [] then 0
    else RowCount(records[..|records| - 1]) + ElementCount(records[|records| - 1].title)
  }

  /** Exploding yields as many rows as the records' element counts add up to. */
  lemma {:induction false} ExplodeAllLength(records: seq<Aggregate>)
    requires AllCountsMatch(records)
    ensures |ExplodeAll(records)| == RowCount(records)
  {
    if records != [] {
      ExplodeAllLength(records[..|records| - 1]);
    }
  }

  /** The rows of consecutive runs of records concatenate in record order. */
  lemma {:induction false} ExplodeAllAppend(rs: seq<Aggregate>, ss: seq<Aggregate>)
    requires AllCountsMatch(rs + ss)
    ensures AllCountsMatch(rs) && AllCountsMatch(ss)
    ensures ExplodeAll(rs + ss) == ExplodeAll(rs) + ExplodeAll(ss)
    decreases |ss|
  {
    assert forall i :: 0 <= i < |rs| ==> rs[i] == (rs + ss)[i];
    assert forall i :: 0 <= i < |ss| ==> ss[i] == (rs + ss)[|rs| + i];
    if ss == [] {
      assert rs + ss == rs;
    } else {
      var ss' := ss[..|ss| - 1];
      assert (rs + ss)[..|rs + ss| - 1] == rs + ss';
      assert (rs + ss)[|rs + ss| - 1] == ss[|ss| - 1];
      assert AllCountsMatch(rs + ss');
      ExplodeAllAppend(rs, ss');
    }
  }

  /** The explode step; a table without records has no columns to explode. */
  function Explode(records: seq<Aggregate>): (r: Result<seq<Row>, CleanError>)
    ensures r == Failure(MissingColumns) <==> records == []
    ensures r == Failure(MismatchedCounts) <==> records != [] && !AllCountsMatch(records)
    ensures r.Success? ==> AllCountsMatch(records) && r.value == ExplodeAll(records)
  {
    if records == [] then Failure(MissingColumns)
    else if !AllCountsMatch(records) then Failure(MismatchedCounts)
    else Success(ExplodeAll(records))
  }

  /** A single record explodes to exactly its own rows. */
  lemma ExplodeSingle(a: Aggregate)
    requires CountsMatch(a)
    ensures Explode([a]) == Success(ExplodeRecord(a))
  {
    assert AllCountsMatch([a]);
    assert [a][..0] == [];
    assert ExplodeAll([a]) == ExplodeAll([]) + ExplodeRecord(a);
    assert ExplodeAll([a]) == ExplodeRecord(a);
    assert Explode([a]) == Success(ExplodeAll([a]));
  }

  /** Resetting the index: rows labelled 0 to N-1 in order. */
  function ResetIndex(rows: seq<Row>): (t: seq<IndexedRow>)
    ensures |t| == |rows|
    ensures forall k :: 0 <= k < |t| ==> t[k].row == rows[k] && t[k].index == k
  {
    seq(|rows|, k requires 0 <= k < |rows| => IndexedRow(k, rows[k]))
  }

  /** Every index label moved by `offset`. */
  function ShiftIndex(t: seq<IndexedRow>, offset: int): (u: seq<IndexedRow>)
    ensures |u| == |t|
    ensures forall k :: 0 <= k < |u| ==> u[k].row == t[k].row && u[k].index == t[k].index + offset
  {
    seq(|t|, k requires 0 <= k < |t| => IndexedRow(t[k].index + offset, t[k].row))
  }

  /** The sentinel becomes null; every other cell is left as it is. */
  function Nullify(c: Option<string>): (r: Option<string>)
    ensures r.None? <==> (c.None? || c == Some(Sentinel))
    ensures r.Some? ==> r == c
  {
    if c == Some(Sentinel) then None else c
  }

  /** The replacement applied to the four cells of a row. */
  function NullifyRow(row: Row): Row {
    Row(Nullify(row.title), Nullify(row.description), Nullify(row.openedOn), Nullify(row.link))
  }

  /** The replacement applied to every row; index labels are kept. */
  function ReplaceSentinel(t: seq<IndexedRow>): (u: seq<IndexedRow>)
    ensures |u| == |t|
    ensures forall k :: 0 <= k < |u| ==> u[k] == IndexedRow(t[k].index, NullifyRow(t[k].row))
  {
    seq(|t|, k requires 0 <= k < |t| => IndexedRow(t[k].index, NullifyRow(t[k].row)))
  }

  /** No cell of the row is null. */
  predicate Complete(row: Row) {
    row.title.Some? && row.description.Some? && row.openedOn.Some? && row.link.Some?
  }

  /** Dropping every row with a null cell: a row is kept iff it is complete;
      the kept rows stay in order with their index labels. */
  function DropNulls(t: seq<IndexedRow>): (u: seq<IndexedRow>)
    ensures forall x :: x in u <==> x in t && Complete(x.row)
    ensures |u| <= |t|
  {
    if t == [] then []
    else (if Complete(t[0].row) then [t[0]] else []) + DropNulls(t[1..])
  }

  /** Index labels strictly increase along the table. */
  predicate Increasing(t: seq<IndexedRow>) {
    forall i, j :: 0 <= i < j < |t| ==> t[i].index < t[j].index
  }

  /** The rows after explode, reindexing from 1, replacement and the drop. */
  function CleanRows(rows: seq<Row>): seq<IndexedRow> {
    DropNulls(ReplaceSentinel(ShiftIndex(ResetIndex(rows), 1)))
  }

  /** The whole cleaning: nothing read, no records or a count mismatch
      stop it with an error; otherwise the cleaned rows to export. */
  function CleanData(loaded: Option<seq<Aggregate>>): (r: Result<seq<IndexedRow>, CleanError>)
    ensures r.Failure? <==> loaded.None? || loaded.value == [] || !AllCountsMatch(loaded.value)
    ensures r.Success? ==> forall x :: x in r.value ==> Complete(x.row)
  {
    match loaded
    case None => Failure(LoadFailed)
    case Some(records) =>
      match Explode(records)
      case Failure(e) => Failure(e)
      case Success(rows) => Success(CleanRows(rows))
  }

  /** Before the drop, the index labels are exactly 1 to N, in order, each
      on the row it labelled after the explode. */
  lemma IndicesOneToN(rows: seq<Row>, k: nat)
    requires k < |rows|
    ensures |ShiftIndex(ResetIndex(rows), 1)| == |rows|
    ensures ShiftIndex(ResetIndex(rows), 1)[k] == IndexedRow(k + 1, rows[k])
  {
  }

  /** Dropping keeps the survivors in their relative order. */
  lemma {:induction false} DropNullsKeepsOrder(t: seq<IndexedRow>)
    requires Increasing(t)
    ensures Increasing(DropNulls(t))
  {
    if t != [] {
      DropNullsKeepsOrder(t[1..]);
      var rest := DropNulls(t[1..]);
      forall x | x in rest
        ensures t[0].index < x.index
      {
        var j :| 0 <= j < |t[1..]| && t[1..][j] == x;
        assert t[j + 1] == x;
      }
    }
  }

  /** The table the drop is applied to: labelled 1 to N, sentinels nulled. */
  lemma ReplacedAt(rows: seq<Row>, k: nat)
    requires k < |rows|
    ensures |ReplaceSentinel(ShiftIndex(ResetIndex(rows), 1))| == |rows|
    ensures ReplaceSentinel(ShiftIndex(ResetIndex(rows), 1))[k] == IndexedRow(k + 1, NullifyRow(rows[k]))
  {
  }

  /** The cleaned rows keep strictly increasing index labels. */
  lemma CleanRowsIncreasing(rows: seq<Row>)
    ensures Increasing(CleanRows(rows))
  {
    var t := ReplaceSentinel(ShiftIndex(ResetIndex(rows), 1));
    forall i, j | 0 <= i < j < |t|
      ensures t[i].index < t[j].index
    {
      ReplacedAt(rows, i);
      ReplacedAt(rows, j);
    }
    DropNullsKeepsOrder(t);
  }

  /** Every cleaned row is exploded row `index - 1` with the sentinel
      turned to null, and holds no null. */
  lemma CleanRowsMembers(rows: seq<Row>)
    ensures forall x :: x in CleanRows(rows) ==>
      1 <= x.index <= |rows| && x.row == NullifyRow(rows[x.index - 1]) && Complete(x.row)
  {
    var t := ReplaceSentinel(ShiftIndex(ResetIndex(rows), 1));
    forall x | x in CleanRows(rows)
      ensures 1 <= x.index <= |rows| && x.row == NullifyRow(rows[x.index - 1])
    {
      var j :| 0 <= j < |t| && t[j] == x;
      ReplacedAt(rows, j);
    }
  }

  /** Exploded row k survives, labelled k + 1, iff no cell of it is null
      after the replacement. */
  lemma CleanRowsKeeps(rows: seq<Row>, k: nat)
    requires k < |rows|
    ensures IndexedRow(k + 1, NullifyRow(rows[k])) in CleanRows(rows) <==> Complete(NullifyRow(rows[k]))
  {
    ReplacedAt(rows, k);
  }
  /** Position k of a record whose lists have the same length, as a row. */
  function FullRow(a: Aggregate, k: nat): Row
    requires SameLength(a) && k < |a.title|
  {
    RowAt(a, k)
  }

  /** No value at position k is the sentinel. */
  predicate SentinelFree(a: Aggregate, k: nat)
    requires SameLength(a) && k < |a.title|
  {
    a.title[k] != Sentinel && a.description[k] != Sentinel &&
    a.openedOn[k] != Sentinel && a.link[k] != Sentinel
  }

  /** A record whose lists have the same length is cleaned through the
      rows of its explode. */
  lemma CleanSingleRecordRows(a: Aggregate)
    requires SameLength(a)
    ensures CleanData(Some([a])) == Success(CleanRows(ExplodeRecord(a)))
  {
    assert CountsMatch(a);
    ExplodeSingle(a);
  }

  /** Position k is kept, labelled k + 1, iff it holds no sentinel. */
  lemma CleanSingleRecordKeeps(a: Aggregate, k: nat)
    requires SameLength(a) && k < |a.title|
    ensures IndexedRow(k + 1, FullRow(a, k)) in CleanRows(ExplodeRecord(a)) <==> SentinelFree(a, k)
  {
    var rows := ExplodeRecord(a);
    CleanRowsKeeps(rows, k);
    assert rows[k] == FullRow(a, k);
    if SentinelFree(a, k) {
      assert NullifyRow(rows[k]) == FullRow(a, k);
    }
  }

  /** Every kept row is a sentinel-free position, labelled from 1. */
  lemma CleanSingleRecordMembers(a: Aggregate)
    requires SameLength(a)
    ensures forall x :: x in CleanRows(ExplodeRecord(a)) ==>
      1 <= x.index <= |a.title| && x.row == FullRow(a, x.index - 1) && SentinelFree(a, x.index - 1)
  {
    var rows := ExplodeRecord(a);
    CleanRowsMembers(rows);
    if a.title == [] {
      assert NullifyRow(rows[0]) == Row(None, None, None, None);
    } else {
      forall x | x in CleanRows(rows)
        ensures x.row == FullRow(a, x.index - 1) && SentinelFree(a, x.index - 1)
      {
        assert rows[x.index - 1] == FullRow(a, x.index - 1);
      }
    }
  }

  /** Cleaning one record whose lists have the same length N never fails;
      the rows kept are exactly the positions without a sentinel, labelled
      by their position from 1, in order, with gaps where rows were dropped.
      For N = 0 nothing is kept. */
  lemma CleanSingleRecord(a: Aggregate)
    requires SameLength(a)
    ensures CleanData(Some([a])).Success?
    ensures |CleanData(Some([a])).value| <= |a.title|
    ensures Increasing(CleanData(Some([a])).value)
    ensures forall x :: x in CleanData(Some([a])).value ==>
      1 <= x.index <= |a.title| && x.row == FullRow(a, x.index - 1) && SentinelFree(a, x.index - 1)
    ensures forall k :: 0 <= k < |a.title| ==>
      (IndexedRow(k + 1, FullRow(a, k)) in CleanData(Some([a])).value <==> SentinelFree(a, k))
  {
    CleanSingleRecordRows(a);
    CleanRowsIncreasing(ExplodeRecord(a));
    if a.title == [] {
      var t := ReplaceSentinel(ShiftIndex(ResetIndex(ExplodeRecord(a)), 1));
      assert t == [IndexedRow(1, Row(None, None, None, None))];
      assert DropNulls(t) == DropNulls(t[1..]);
    }
    CleanSingleRecordMembers(a);
    forall k | 0 <= k < |a.title|
      ensures IndexedRow(k + 1, FullRow(a, k)) in CleanRows(ExplodeRecord(a)) <==> SentinelFree(a, k)
    {
      CleanSingleRecordKeeps(a, k);
    }
  }

  /** Two rows, each holding a sentinel somewhere: nothing is kept. */
  lemma EveryRowHasSentinel()
    ensures CleanData(Some([Aggregate(["Intern A", "Intern B"], ["N/A", "Data role"],
                                      ["2024-01-01", "N/A"], ["https://x/1", "https://x/2"])])) == Success([])
  {
    var a := Aggregate(["Intern A", "Intern B"], ["N/A", "Data role"], ["2024-01-01", "N/A"], ["https://x/1", "https://x/2"]);
    CleanSingleRecord(a);
  }

  /** One row without a sentinel: it is kept, labelled 1. */
  lemma SentinelFreeRowKept()
    ensures CleanData(Some([Aggregate(["Intern C"], ["QA role"], ["2024-02-01"], ["https://x/3"])])) ==
      Success([IndexedRow(1, Row(Some("Intern C"), Some("QA role"), Some("2024-02-01"), Some("https://x/3")))])
  {
    var a := Aggregate(["Intern C"], ["QA role"], ["2024-02-01"], ["https://x/3"]);
    CleanSingleRecord(a);
    var kept := CleanData(Some([a])).value;
    assert IndexedRow(1, FullRow(a, 0)) in kept;
    assert kept == [kept[0]];
  }

  /** A dropped middle row leaves a gap: labels 1 and 3 remain, 2 is gone. */
  lemma DroppedRowLeavesGap()
    ensures var a := Aggregate(["A", "B", "C"], ["a", "b", "c"], ["d1", "d2", "d3"], ["l1", "N/A", "l3"]);
      var kept := CleanData(Some([a])).value;
      IndexedRow(1, FullRow(a, 0)) in kept && IndexedRow(3, FullRow(a, 2)) in kept &&
      forall x :: x in kept ==> x.index != 2
  {
    var a := Aggregate(["A", "B", "C"], ["a", "b", "c"], ["d1", "d2", "d3"], ["l1", "N/A", "l3"]);
    CleanSingleRecord(a);
    assert a.link[1] == Sentinel;
    assert SentinelFree(a, 0) && SentinelFree(a, 2);
  }

  /** Only the exact sentinel is nulled: other spellings and the empty
      string pass through. */
  lemma OnlyExactSentinelNulled()
    ensures Nullify(Some("N/A")) == None
    ensures Nullify(Some("n/a")) == Some("n/a") && Nullify(Some("NA")) == Some("NA")
    ensures Nullify(Some("")) == Some("") && Nullify(Some("N/A ")) == Some("N/A ")
  {
  }
  /** Lists of different lengths stop the cleaning before anything is
      exported. */
  lemma UnequalListsFail()
    ensures CleanData(Some([Aggregate(["A", "B"], ["a"], ["d1", "d2"], ["l1", "l2"])])) == Failure(MismatchedCounts)
  {
    assert !CountsMatch(Aggregate(["A", "B"], ["a"], ["d1", "d2"], ["l1", "l2"]));
  }

  /** An empty list counts as one element when exploded beside one-element
      lists: no error, but its null cell drops the only row. */
  lemma EmptyListBesideSingletons()
    ensures CleanData(Some([Aggregate([], ["a"], ["d1"], ["l1"])])) == Success([])
  {
    var a := Aggregate([], ["a"], ["d1"], ["l1"]);
    assert CountsMatch(a);
    ExplodeSingle(a);
    var t := ReplaceSentinel(ShiftIndex(ResetIndex(ExplodeRecord(a)), 1));
    assert t == [IndexedRow(1, Row(None, Some("a"), Some("d1"), Some("l1")))];
    assert DropNulls(t) == DropNulls(t[1..]);
  }
}
