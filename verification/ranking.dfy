/**
  The computed columns of the marks table: the CA mark scaled by the CA
  weight (also shown as the grade so far), the table sorted on it from best to
  worst, the 1-based rank of each row and its performance tier, which is read
  from the raw CA mark.
 */
module Ranking {
  import opened Students
  import opened WeightPolicy

  /** The four performance tiers, from best to worst. */
  datatype Performance = Excellent | HighPerformer | Average | BelowAverage

  /** The label shown for each tier. */
  function Label(p: Performance): string {
    match p
    case Excellent => "Excellent (Top Tier)"
    case HighPerformer => "High Performer"
    case Average => "Average"
    case BelowAverage => "Below Average"
  }

  /** The position of a tier on the scale: 0 for the lowest, 3 for the highest. */
  function Level(p: Performance): nat {
    match p
    case BelowAverage => 0
    case Average => 1
    case HighPerformer => 2
    case Excellent => 3
  }

  /** The lower bounds of the three upper tiers, lowest first. */
  const Thresholds: seq<real> := [50.0, 70.0, 85.0]

  /** How many of the thresholds `ts` the mark reaches. */
  function Reached(mark: real, ts: seq<real>): nat {
    if ts == [] then 0 else (if mark >= ts[0] then 1 else 0) + Reached(mark, ts[1..])
  }

  /**
    The tier of a CA mark: each threshold is inclusive at its lower end, and
    the tier is one step up for every threshold the mark reaches.
   */
  function PerformanceCategory(mark: real): (p: Performance)
    ensures Level(p) == Reached(mark, Thresholds)
  {
    ReachedThresholds(mark);
    if mark >= 85.0 then Excellent
    else if mark >= 70.0 then HighPerformer
    else if mark >= 50.0 then Average
    else BelowAverage
  }

  lemma ReachedThresholds(mark: real)
    ensures Reached(mark, Thresholds) ==
      (if mark >= 50.0 then 1 else 0) + (if mark >= 70.0 then 1 else 0) + (if mark >= 85.0 then 1 else 0)
  {
    var t := Thresholds;
    assert t[1..] == [70.0, 85.0] && t[1..][1..] == [85.0] && t[1..][1..][1..] == [];
    assert Reached(mark, t[1..][1..]) == (if mark >= 85.0 then 1 else 0) + Reached(mark, []);
    assert Reached(mark, t[1..]) == (if mark >= 70.0 then 1 else 0) + Reached(mark, t[1..][1..]);
  }

  lemma {:induction false} ReachedMonotone(m1: real, m2: real, ts: seq<real>)
    requires m1 <= m2
    ensures Reached(m1, ts) <= Reached(m2, ts)
  {
    if ts != [] {
      ReachedMonotone(m1, m2, ts[1..]);
    }
  }

  /** A higher mark never falls in a lower tier. */
  lemma PerformanceMonotone(m1: real, m2: real)
    requires m1 <= m2
    ensures Level(PerformanceCategory(m1)) <= Level(PerformanceCategory(m2))
  {
    ReachedMonotone(m1, m2, Thresholds);
  }

  /** The band of marks each tier covers, each bound inclusive below and exclusive above. */
  lemma PerformanceBands(mark: real)
    ensures PerformanceCategory(mark) == Excellent <==> 85.0 <= mark
    ensures PerformanceCategory(mark) == HighPerformer <==> 70.0 <= mark < 85.0
    ensures PerformanceCategory(mark) == Average <==> 50.0 <= mark < 70.0
    ensures PerformanceCategory(mark) == BelowAverage <==> mark < 50.0
  {
    ReachedThresholds(mark);
  }

  /** A record with its scaled CA mark, before the table is sorted. */
  datatype Scored = Scored(rec: Record, caScaled: real, finalGrade: real)

  /** A row of the finished table. */
  datatype Row = Row(rec: Record, caScaled: real, finalGrade: real, rank: nat, performance: Performance)

  /** Sorted on the scaled mark, largest first. */
  predicate SortedDesc(s: seq<Scored>) {
    forall i, j :: 0 <= i < j < |s| ==> s[i].caScaled >= s[j].caScaled
  }

  /** Rows in the same order: sorted on the scaled mark, largest first. */
  predicate RowsSortedDesc(rows: seq<Row>) {
    forall i, j :: 0 <= i < j < |rows| ==> rows[i].caScaled >= rows[j].caScaled
  }

  /** Every row's scaled mark is its CA mark times the CA weight. */
  predicate ScaledBy(rows: seq<Row>, w: Weights) {
    forall k :: 0 <= k < |rows| ==> rows[k].caScaled == rows[k].rec.caMarksPercent * w.ca
  }

  /** The rows of a ranked table, each numbered by its position from 1. */
  predicate Numbered(rows: seq<Row>) {
    forall k :: 0 <= k < |rows| ==> rows[k].rank == k + 1
  }

  /** The records of scored entries, in order. */
  function RecordsOf(s: seq<Scored>): (rs: seq<Record>)
    ensures |rs| == |s| && forall k :: 0 <= k < |s| ==> rs[k] == s[k].rec
  {
    seq(|s|, k requires 0 <= k < |s| => s[k].rec)
  }

  /** The records of table rows, in order. */
  function RowRecords(rows: seq<Row>): (rs: seq<Record>)
    ensures |rs| == |rows| && forall k :: 0 <= k < |rows| ==> rs[k] == rows[k].rec
  {
    seq(|rows|, k requires 0 <= k < |rows| => rows[k].rec)
  }

  lemma RecordsOfAppend(a: seq<Scored>, b: seq<Scored>)
    ensures RecordsOf(a + b) == RecordsOf(a) + RecordsOf(b)
  {
    assert forall k :: 0 <= k < |a| + |b| ==> RecordsOf(a + b)[k] == (RecordsOf(a) + RecordsOf(b))[k];
  }

  /** The records of `left + [x] + right` are those of `left`, then the record of `x`, then those of `right`. */
  lemma RecordsOfSplit(left: seq<Scored>, x: Scored, right: seq<Scored>)
    ensures RecordsOf(left + [x] + right) == RecordsOf(left) + [x.rec] + RecordsOf(right)
  {
    RecordsOfAppend(left + [x], right);
    RecordsOfAppend(left, [x]);
    assert RecordsOf([x]) == [x.rec];
  }

  /** Taking the same entry out of two permutations of each other leaves permutations of each other. */
  lemma RemoveMatched(s: seq<Scored>, t: seq<Scored>, i: nat)
    requires multiset(s) == multiset(t) && s != [] && i < |t| && t[i] == s[0]
    ensures multiset(s[1..]) == multiset(t[..i] + t[i + 1..])
  {
    var x, left, right := s[0], t[..i], t[i + 1..];
    assert s == [x] + s[1..];
    assert t == left + [x] + right;
    assert multiset(t) == multiset(left) + multiset{x} + multiset(right);
    assert multiset(left + right) == multiset(left) + multiset(right);
    forall y ensures multiset(s[1..])[y] == multiset(left + right)[y] {
      assert multiset(s)[y] == multiset(t)[y];
    }
  }

  /** Reordering scored entries reorders their records the same way. */
  lemma {:induction false} RecordsOfPermutation(s: seq<Scored>, t: seq<Scored>)
    requires multiset(s) == multiset(t)
    ensures multiset(RecordsOf(s)) == multiset(RecordsOf(t))
    decreases |s|
  {
    if s == [] {
      assert |t| == |multiset(t)| == 0;
    } else {
      assert s[0] in multiset(t);
      var i :| 0 <= i < |t| && t[i] == s[0];
      RemoveMatched(s, t, i);
      RecordsOfPermutation(s[1..], t[..i] + t[i + 1..]);
      PermutationStep(s, t, i);
    }
  }

  /** Putting the matched entry back on both sides keeps the records permutations of each other. */
  lemma PermutationStep(s: seq<Scored>, t: seq<Scored>, i: nat)
    requires s != [] && i < |t| && t[i] == s[0]
    requires multiset(RecordsOf(s[1..])) == multiset(RecordsOf(t[..i] + t[i + 1..]))
    ensures multiset(RecordsOf(s)) == multiset(RecordsOf(t))
  {
    var x, left, right := s[0], t[..i], t[i + 1..];
    assert t == left + [x] + right;
    RecordsOfSplit(left, x, right);
    RecordsOfAppend(left, right);
    RecordsOfFirst(s);
    calc {
      multiset(RecordsOf(s));
      multiset{x.rec} + multiset(RecordsOf(s[1..]));
      multiset{x.rec} + multiset(RecordsOf(left) + RecordsOf(right));
      multiset(RecordsOf(left) + [x.rec] + RecordsOf(right));
    }
  }

  lemma RecordsOfFirst(s: seq<Scored>)
    requires s != []
    ensures RecordsOf(s) == [s[0].rec] + RecordsOf(s[1..])
  {
    assert forall k :: 0 <= k < |s| ==> RecordsOf(s)[k] == ([s[0].rec] + RecordsOf(s[1..]))[k];
  }

  /** The position of a largest scaled mark in `a[from..]`. */
  method MaxIndex(a: array<Scored>, from: nat) returns (m: nat)
    requires from < a.Length
    ensures from <= m < a.Length
    ensures forall q :: from <= q < a.Length ==> a[m].caScaled >= a[q].caScaled
  {
    m := from;
    var k := from + 1;
    while k < a.Length
      invariant from <= m < k <= a.Length
      invariant forall q :: from <= q < k ==> a[m].caScaled >= a[q].caScaled
    {
      if a[k].caScaled > a[m].caScaled {
        m := k;
      }
      k := k + 1;
    }
  }

  /** Every entry before position `i` is at least as large as every entry from `i` on. */
  predicate Partitioned(s: seq<Scored>, i: nat) {
    forall p, q :: 0 <= p < i <= q < |s| ==> s[p].caScaled >= s[q].caScaled
  }

  /** Swapping a largest remaining entry to position `i` extends the sorted, partitioned prefix by one. */
  lemma SelectStep(s: seq<Scored>, i: nat, m: nat)
    requires i <= m < |s| && SortedDesc(s[..i]) && Partitioned(s, i)
    requires forall q :: i <= q < |s| ==> s[m].caScaled >= s[q].caScaled
    ensures SortedDesc(s[i := s[m]][m := s[i]][..i + 1]) && Partitioned(s[i := s[m]][m := s[i]], i + 1)
  {
    var t := s[i := s[m]][m := s[i]];
    var u := t[..i + 1];
    forall p, q | 0 <= p < q < |u| ensures u[p].caScaled >= u[q].caScaled {
      if q < i {
        assert s[..i][p] == t[p] && s[..i][q] == t[q];
      }
    }
  }

  /** One step of the selection sort: a largest entry of `a[i..]` is swapped to position `i`. */
  method SelectNext(a: array<Scored>, i: nat)
    requires i < a.Length && SortedDesc(a[..i]) && Partitioned(a[..], i)
    modifies a
    ensures SortedDesc(a[..i + 1]) && Partitioned(a[..], i + 1)
    ensures multiset(a[..]) == multiset(old(a[..]))
  {
    var m := MaxIndex(a, i);
    ghost var before := a[..];
    a[i], a[m] := a[m], a[i];
    assert a[..] == before[i := before[m]][m := before[i]];
    SelectStep(before, i, m);
  }

  /**
    Sorts the entries in place on the scaled mark, largest first (a selection
    sort: each step swaps a largest remaining entry to the front of the rest;
    the order of ties is not fixed).
   */
  method SortByScaledDesc(a: array<Scored>)
    modifies a
    ensures SortedDesc(a[..])
    ensures multiset(a[..]) == multiset(old(a[..]))
  {
    var i := 0;
    while i < a.Length
      invariant 0 <= i <= a.Length
      invariant SortedDesc(a[..i]) && Partitioned(a[..], i)
      invariant multiset(a[..]) == multiset(old(a[..]))
    {
      SelectNext(a, i);
      i := i + 1;
    }
    assert a[..i] == a[..];
  }

  /** An entry whose scaled mark is its CA mark times the CA weight, and whose grade so far is the same value. */
  function Scale(r: Record, w: Weights): (e: Scored)
    ensures e.rec == r
  {
    Scored(r, r.caMarksPercent * w.ca, r.caMarksPercent * w.ca)
  }

  /** Adds the scaled-mark and grade-so-far columns, one row at a time. */
  method ScaleColumn(data: seq<Record>, w: Weights) returns (a: array<Scored>)
    ensures fresh(a) && a.Length == |data|
    ensures forall m :: 0 <= m < |data| ==> a[m] == Scale(data[m], w)
  {
    a := new Scored[|data|](k requires 0 <= k < |data| => Scored(data[k], 0.0, 0.0));
    var k := 0;
    while k < a.Length
      invariant 0 <= k <= a.Length
      invariant forall m :: 0 <= m < a.Length ==> a[m].rec == data[m]
      invariant forall m :: 0 <= m < k ==> a[m] == Scale(data[m], w)
    {
      var scaled := a[k].rec.caMarksPercent * w.ca;
      a[k] := Scored(a[k].rec, scaled, scaled);
      k := k + 1;
    }
  }

  /** Numbers the sorted entries from 1 and adds the performance tier of each. */
  method NumberRows(s: seq<Scored>) returns (rows: seq<Row>)
    ensures |rows| == |s|
    ensures forall m :: 0 <= m < |s| ==> rows[m].rec == s[m].rec && rows[m].caScaled == s[m].caScaled && rows[m].finalGrade == s[m].finalGrade
    ensures forall m :: 0 <= m < |s| ==> rows[m].rank == m + 1
    ensures forall m :: 0 <= m < |s| ==> rows[m].performance == PerformanceCategory(s[m].rec.caMarksPercent)
  {
    rows := [];
    var k := 0;
    while k < |s|
      invariant 0 <= k <= |s|
      invariant |rows| == k
      invariant forall m :: 0 <= m < k ==> rows[m] == Row(s[m].rec, s[m].caScaled, s[m].finalGrade, m + 1, PerformanceCategory(s[m].rec.caMarksPercent))
    {
      rows := rows + [Row(s[k].rec, s[k].caScaled, s[k].finalGrade, k + 1, PerformanceCategory(s[k].rec.caMarksPercent))];
      k := k + 1;
    }
  }

  /** Entries that carry their own scaled mark stay that way when reordered. */
  lemma ScaledPermutation(s: seq<Scored>, t: seq<Scored>, w: Weights)
    requires multiset(s) == multiset(t)
    requires forall m :: 0 <= m < |s| ==> s[m] == Scale(s[m].rec, w)
    ensures forall m :: 0 <= m < |t| ==> t[m] == Scale(t[m].rec, w)
  {
    forall m | 0 <= m < |t| ensures t[m] == Scale(t[m].rec, w) {
      assert t[m] in multiset(s);
      var n :| 0 <= n < |s| && s[n] == t[m];
    }
  }

  /** Rows copied from entries that carry their own scaled mark carry it too. */
  lemma RowsScaled(s: seq<Scored>, rows: seq<Row>, w: Weights)
    requires |rows| == |s|
    requires forall m :: 0 <= m < |s| ==> s[m] == Scale(s[m].rec, w)
    requires forall m :: 0 <= m < |s| ==> rows[m].rec == s[m].rec && rows[m].caScaled == s[m].caScaled && rows[m].finalGrade == s[m].finalGrade
    ensures forall k :: 0 <= k < |rows| ==> rows[k].caScaled == rows[k].rec.caMarksPercent * w.ca && rows[k].finalGrade == rows[k].caScaled
  {
    forall k | 0 <= k < |rows|
      ensures rows[k].caScaled == rows[k].rec.caMarksPercent * w.ca && rows[k].finalGrade == rows[k].caScaled
    {
      assert s[k] == Scale(s[k].rec, w);
    }
  }

  /**
    Adds the computed columns to the table: the scaled CA mark and the grade
    so far (the same value), then sorts the rows from best to worst, numbers
    them from 1 and gives each its performance tier.
   */
  method RankTable(data: seq<Record>, w: Weights) returns (rows: seq<Row>)
    ensures |rows| == |data|
    ensures multiset(RowRecords(rows)) == multiset(data)
    ensures ScaledBy(rows, w)
    ensures forall k :: 0 <= k < |rows| ==> rows[k].finalGrade == rows[k].caScaled
    ensures RowsSortedDesc(rows)
    ensures Numbered(rows)
    ensures forall k :: 0 <= k < |rows| ==> rows[k].performance == PerformanceCategory(rows[k].rec.caMarksPercent)
  {
    var a := ScaleColumn(data, w);
    ghost var before := a[..];
    assert RecordsOf(before) == data;
    SortByScaledDesc(a);
    var sorted := a[..];
    RecordsOfPermutation(before, sorted);
    ScaledPermutation(before, sorted, w);
    rows := NumberRows(sorted);
    assert RowRecords(rows) == RecordsOf(sorted);
    RowsScaled(sorted, rows, w);
  }
}
