/**
  Class aggregates of the ranked table: the mean scaled CA mark (the class
  average) and the value counts of the performance tier, the grade and the
  status columns.
 */
module ClassSummary {
  import opened Students
  import opened WeightPolicy
  import opened Ranking

  function Sum(xs: seq<real>): real {
    if xs == [] then 0.0 else xs[0] + Sum(xs[1..])
  }

  /** The arithmetic mean of a non-empty column. */
  function Mean(xs: seq<real>): real
    requires |xs| > 0
  {
    Sum(xs) / |xs| as real
  }

  /** The scaled-mark column of the table. */
  function ScaledColumn(rows: seq<Row>): (c: seq<real>)
    ensures |c| == |rows| && forall k :: 0 <= k < |rows| ==> c[k] == rows[k].caScaled
  {
    seq(|rows|, k requires 0 <= k < |rows| => rows[k].caScaled)
  }

  /** The raw CA-mark column of the table. */
  function RawColumn(rows: seq<Row>): (c: seq<real>)
    ensures |c| == |rows| && forall k :: 0 <= k < |rows| ==> c[k] == rows[k].rec.caMarksPercent
  {
    seq(|rows|, k requires 0 <= k < |rows| => rows[k].rec.caMarksPercent)
  }

  /** Scaling every value of a column scales its sum. */
  lemma {:induction false} SumScale(xs: seq<real>, ys: seq<real>, c: real)
    requires |xs| == |ys| && forall k :: 0 <= k < |xs| ==> xs[k] == ys[k] * c
    ensures Sum(xs) == Sum(ys) * c
  {
    if xs != [] {
      SumScale(xs[1..], ys[1..], c);
    }
  }

  lemma DivScale(c: real, a: real, n: real)
    requires n > 0.0
    ensures (a * c) / n == (a / n) * c
  {
    var m := a / n;
    assert a == m * n;
    assert a * c == (m * c) * n;
  }

  /** Columns of one length whose sums `sx` and `sy` differ by a factor have means that differ by the same factor. */
  lemma MeanOfScaledSum(xs: seq<real>, ys: seq<real>, c: real, sx: real, sy: real)
    requires |xs| == |ys| > 0 && Sum(xs) == sx && Sum(ys) == sy && sx == sy * c
    ensures Mean(xs) == Mean(ys) * c
  {
    DivScale(c, sy, |ys| as real);
  }

  lemma {:induction false} SumBounds(xs: seq<real>, lo: real, hi: real)
    requires forall k :: 0 <= k < |xs| ==> lo <= xs[k] <= hi
    ensures |xs| as real * lo <= Sum(xs) <= |xs| as real * hi
  {
    if xs != [] {
      SumBounds(xs[1..], lo, hi);
    }
  }

  lemma DivBounds(s: real, n: real, lo: real, hi: real)
    requires n > 0.0 && n * lo <= s <= n * hi
    ensures lo <= s / n <= hi
  {
    var m := s / n;
    assert s == m * n;
    assert n * lo <= n * m <= n * hi;
  }

  /** The mean of a column lies within any bounds on its values. */
  lemma MeanBounds(xs: seq<real>, lo: real, hi: real)
    requires |xs| > 0 && forall k :: 0 <= k < |xs| ==> lo <= xs[k] <= hi
    ensures lo <= Mean(xs) <= hi
  {
    SumBounds(xs, lo, hi);
    DivBounds(Sum(xs), |xs| as real, lo, hi);
  }

  /**
    The class average of the scaled marks is the CA weight times the average
    raw CA mark, so dividing it by the weight gives the raw average.
   */
  lemma MeanScaled(rows: seq<Row>, w: Weights)
    requires |rows| > 0 && ScaledBy(rows, w)
    ensures Mean(ScaledColumn(rows)) == Mean(RawColumn(rows)) * w.ca
  {
    var scaled, raw := ScaledColumn(rows), RawColumn(rows);
    SumScale(scaled, raw, w.ca);
    MeanOfScaledSum(scaled, raw, w.ca, Sum(scaled), Sum(raw));
  }

  /** In a table sorted from best to worst, the class average lies between the last and the first scaled mark. */
  lemma MeanBetweenEnds(rows: seq<Row>)
    requires |rows| > 0 && RowsSortedDesc(rows)
    ensures rows[|rows| - 1].caScaled <= Mean(ScaledColumn(rows)) <= rows[0].caScaled
  {
    var c := ScaledColumn(rows);
    var lo, hi := rows[|rows| - 1].caScaled, rows[0].caScaled;
    assert forall k :: 0 <= k < |c| ==> lo <= c[k] <= hi;
    MeanBounds(c, lo, hi);
  }

  /** Value counts: each distinct value with the number of times it occurs, in order of first occurrence. */
  function Tally<T(==)>(xs: seq<T>): seq<(T, nat)>
    decreases |xs|
  {
    if xs == [] then [] else Count(Tally(xs[..|xs| - 1]), xs[|xs| - 1])
  }

  /** One more occurrence of `x`: its count goes up by one, or it joins the end with count 1. */
  function Count<T(==)>(t: seq<(T, nat)>, x: T): (r: seq<(T, nat)>)
    ensures |r| == |t| || |r| == |t| + 1
  {
    if t == [] then [(x, 1)]
    else if t[0].0 == x then [(x, t[0].1 + 1)] + t[1..]
    else [t[0]] + Count(t[1..], x)
  }

  function Keys<T>(t: seq<(T, nat)>): seq<T> {
    if t == [] then [] else [t[0].0] + Keys(t[1..])
  }

  function Total<T>(t: seq<(T, nat)>): nat {
    if t == [] then 0 else t[0].1 + Total(t[1..])
  }

  predicate Distinct<T(==)>(s: seq<T>) {
    forall i, j :: 0 <= i < j < |s| ==> s[i] != s[j]
  }

  lemma {:induction false} CountKeys<T>(t: seq<(T, nat)>, x: T)
    ensures x in Keys(t) ==> Keys(Count(t, x)) == Keys(t)
    ensures x !in Keys(t) ==> Keys(Count(t, x)) == Keys(t) + [x]
    ensures Total(Count(t, x)) == Total(t) + 1
  {
    if t != [] && t[0].0 != x {
      CountKeys(t[1..], x);
      assert Keys(t) == [t[0].0] + Keys(t[1..]);
      assert ([t[0]] + Count(t[1..], x))[1..] == Count(t[1..], x);
    } else if t != [] {
      assert ([(x, t[0].1 + 1)] + t[1..])[1..] == t[1..];
    }
  }

  /** The entries of `t` as a map from value to count. */
  function AsMap<T(==)>(t: seq<(T, nat)>): map<T, nat> {
    if t == [] then map[] else AsMap(t[1..])[t[0].0 := t[0].1]
  }

  lemma {:induction false} AsMapDomain<T>(t: seq<(T, nat)>)
    ensures AsMap(t).Keys == (set k | k in Keys(t))
  {
    if t != [] {
      AsMapDomain(t[1..]);
    }
  }

  lemma {:induction false} CountAsMap<T>(t: seq<(T, nat)>, x: T)
    ensures AsMap(Count(t, x)) == AsMap(t)[x := if x in AsMap(t) then AsMap(t)[x] + 1 else 1]
  {
    if t == [] {
    } else if t[0].0 == x {
      assert ([(x, t[0].1 + 1)] + t[1..])[1..] == t[1..];
      assert AsMap(t)[x] == t[0].1;
    } else {
      CountAsMap(t[1..], x);
      assert ([t[0]] + Count(t[1..], x))[1..] == Count(t[1..], x);
    }
  }

  lemma {:induction false} DistinctAppend<T>(s: seq<T>, x: T)
    requires Distinct(s) && x !in s
    ensures Distinct(s + [x])
  {
  }

  /**
    `t` is the value counts of `xs`: each value once, exactly the values of
    `xs`, each with its number of occurrences, the counts adding up to `|xs|`.
   */
  predicate ValueCounts<T(==)>(t: seq<(T, nat)>, xs: seq<T>) {
    && Distinct(Keys(t))
    && (set k | k in Keys(t)) == (set x | x in xs)
    && (forall k :: k in AsMap(t) ==> AsMap(t)[k] == multiset(xs)[k])
    && Total(t) == |xs|
  }

  /**
    The value counts of a column: the values are distinct, every value of the
    column is counted, each count is the number of occurrences, and the counts
    add up to the length of the column.
   */
  lemma {:induction false} TallySpec<T>(xs: seq<T>)
    ensures ValueCounts(Tally(xs), xs)
    decreases |xs|
  {
    if xs != [] {
      var init, x := xs[..|xs| - 1], xs[|xs| - 1];
      assert xs == init + [x];
      var t := Tally(init);
      TallySpec(init);
      CountKeys(t, x);
      CountAsMap(t, x);
      AsMapDomain(t);
      AsMapDomain(Count(t, x));
      if x !in Keys(t) {
        DistinctAppend(Keys(t), x);
      }
      assert multiset(xs) == multiset(init) + multiset{x};
    }
  }

  /** The three distributions drawn as charts: performance tiers, grades and statuses. */
  function PerformanceColumn(rows: seq<Row>): (c: seq<Performance>)
    ensures |c| == |rows| && forall k :: 0 <= k < |rows| ==> c[k] == rows[k].performance
  {
    seq(|rows|, k requires 0 <= k < |rows| => rows[k].performance)
  }

  function GradeColumn(rows: seq<Row>): (c: seq<string>)
    ensures |c| == |rows| && forall k :: 0 <= k < |rows| ==> c[k] == rows[k].rec.grade
  {
    seq(|rows|, k requires 0 <= k < |rows| => rows[k].rec.grade)
  }

  function StatusColumn(rows: seq<Row>): (c: seq<Status>)
    ensures |c| == |rows| && forall k :: 0 <= k < |rows| ==> c[k] == rows[k].rec.status
  {
    seq(|rows|, k requires 0 <= k < |rows| => rows[k].rec.status)
  }

  /**
    The class aggregates: the class average that the student report compares
    against, and the three value counts behind the charts.
   */
  datatype Summary = Summary(
    average: real,
    performanceCounts: seq<(Performance, nat)>,
    gradeCounts: seq<(string, nat)>,
    statusCounts: seq<(Status, nat)>)

  function Summarize(rows: seq<Row>): (s: Summary)
    requires |rows| > 0
    ensures s.average == Mean(ScaledColumn(rows))
    ensures ValueCounts(s.performanceCounts, PerformanceColumn(rows))
    ensures ValueCounts(s.gradeCounts, GradeColumn(rows))
    ensures ValueCounts(s.statusCounts, StatusColumn(rows))
  {
    TallySpec(PerformanceColumn(rows));
    TallySpec(GradeColumn(rows));
    TallySpec(StatusColumn(rows));
    Summary(Mean(ScaledColumn(rows)), Tally(PerformanceColumn(rows)), Tally(GradeColumn(rows)), Tally(StatusColumn(rows)))
  }
}
