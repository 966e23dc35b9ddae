/**
  The student search: the typed registration number is upper-cased, stripped
  of everything but capital letters and digits, and used as a prefix of the
  registration numbers of the ranked table. No row, several rows or exactly
  one row may match; for exactly one the report gives the rank, the
  percentile, the class average, the total-mark band of the student's grade
  and the final-exam marks that band calls for.
 */
module StudentSearch {
  import opened Chars
  import opened Students
  import opened WeightPolicy
  import opened Ranking
  import opened ClassSummary

  /** `re.sub(r"[^A-Z0-9]", "", typed.upper())`. */
  function CleanQuery(typed: string): (q: string)
    ensures |q| <= |typed|
    ensures forall i :: 0 <= i < |q| ==> IsUpperAlnum(q[i])
  {
    KeepUpperAlnum(Upper(typed))
  }

  /** The clean query of a concatenation is the clean queries of its parts, one after the other. */
  lemma CleanQueryAppend(a: string, b: string)
    ensures CleanQuery(a + b) == CleanQuery(a) + CleanQuery(b)
  {
    UpperAppend(a, b);
    KeepUpperAlnumAppend(Upper(a), Upper(b));
  }

  /** One typed character is kept, upper-cased, exactly when its capital form is a capital letter or a digit. */
  lemma CleanQueryChar(c: char)
    ensures CleanQuery([c]) == if IsUpperAlnum(UpperChar(c)) then [UpperChar(c)] else []
  {
    assert Upper([c]) == [UpperChar(c)];
    KeepUpperAlnumChar(UpperChar(c));
  }

  /** The case of the typed text does not matter. */
  lemma CleanQueryUpper(typed: string)
    ensures CleanQuery(Upper(typed)) == CleanQuery(typed)
  {
    assert Upper(Upper(typed)) == Upper(typed);
  }

  /** A typed character that is neither a letter nor a digit, such as a space or a dash, is skipped. */
  lemma CleanQuerySkips(a: string, c: char, b: string)
    requires !IsUpperAlnum(UpperChar(c))
    ensures CleanQuery(a + [c] + b) == CleanQuery(a + b)
  {
    CleanQueryAppend(a + [c], b);
    CleanQueryAppend(a, [c]);
    CleanQueryChar(c);
    CleanQueryAppend(a, b);
  }

  /** A text made of capital letters and digits is its own clean query. */
  lemma CleanQueryKeeps(s: string)
    requires forall i :: 0 <= i < |s| ==> IsUpperAlnum(s[i])
    ensures CleanQuery(s) == s
  {
    assert Upper(s) == s;
    KeepUpperAlnumKeeps(s);
  }

  /** Cleaning a query twice gives the same query as cleaning it once. */
  lemma CleanQueryIdempotent(typed: string)
    ensures CleanQuery(CleanQuery(typed)) == CleanQuery(typed)
  {
    CleanQueryKeeps(CleanQuery(typed));
  }

  /** A registration number typed in full is its own clean query. */
  lemma CleanQueryRegNo(id: string)
    requires IsRegNo(id)
    ensures CleanQuery(id) == id
  {
    forall i | 0 <= i < |id| ensures IsUpperAlnum(id[i]) {
      if i >= 2 {
        assert id[2..][i - 2] == id[i];
      } else {
        assert id[..2][i] == id[i];
      }
    }
    CleanQueryKeeps(id);
  }

  /** `s.startswith(p)`. */
  predicate IsPrefix(p: string, s: string) {
    |p| <= |s| && s[..|p|] == p
  }

  /** The rows whose registration number starts with `p`, in table order. */
  function PrefixMatches(rows: seq<Row>, p: string): (m: seq<Row>)
    ensures |m| <= |rows|
    ensures forall r :: r in m ==> r in rows && IsPrefix(p, r.rec.regNo)
  {
    if rows == [] then []
    else (if IsPrefix(p, rows[0].rec.regNo) then [rows[0]] else []) + PrefixMatches(rows[1..], p)
  }

  /** No matching row is left out of the filter. */
  lemma {:induction false} PrefixMatchesComplete(rows: seq<Row>, p: string)
    ensures forall k :: 0 <= k < |rows| && IsPrefix(p, rows[k].rec.regNo) ==> rows[k] in PrefixMatches(rows, p)
  {
    if rows != [] {
      PrefixMatchesComplete(rows[1..], p);
      forall k | 1 <= k < |rows| ensures rows[k] == rows[1..][k - 1] { }
    }
  }

  /** With no matching row the filter is empty. */
  lemma {:induction false} PrefixMatchesNone(rows: seq<Row>, p: string)
    requires forall k :: 0 <= k < |rows| ==> !IsPrefix(p, rows[k].rec.regNo)
    ensures PrefixMatches(rows, p) == []
  {
    if rows != [] {
      assert forall k :: 0 <= k < |rows| - 1 ==> rows[1..][k] == rows[k + 1];
      PrefixMatchesNone(rows[1..], p);
    }
  }

  /** With exactly one matching position the filter holds exactly that row. */
  lemma {:induction false} PrefixMatchesSingle(rows: seq<Row>, p: string, k: nat)
    requires k < |rows| && IsPrefix(p, rows[k].rec.regNo)
    requires forall j :: 0 <= j < |rows| && IsPrefix(p, rows[j].rec.regNo) ==> j == k
    ensures PrefixMatches(rows, p) == [rows[k]]
  {
    assert forall j :: 0 <= j < |rows| - 1 ==> rows[1..][j] == rows[j + 1];
    if k == 0 {
      PrefixMatchesNone(rows[1..], p);
    } else {
      PrefixMatchesSingle(rows[1..], p, k - 1);
    }
  }

  /** The empty prefix matches every row. */
  lemma {:induction false} PrefixMatchesEmpty(rows: seq<Row>)
    ensures PrefixMatches(rows, []) == rows
  {
    if rows != [] {
      PrefixMatchesEmpty(rows[1..]);
    }
  }

  /** The total-mark band of each letter grade, inclusive at both ends. */
  const GradeRanges: map<string, (int, int)> := map[
    "A+" := (90, 100), "A" := (80, 89), "A-" := (75, 79),
    "B+" := (70, 74), "B" := (65, 69), "B-" := (60, 64),
    "C+" := (55, 59), "C" := (45, 54), "C-" := (40, 44),
    "D+" := (35, 39), "D" := (30, 34), "E" := (0, 29)]

  /** The band of a grade, or `(0, 0)` for a grade the table does not list. */
  function GradeRange(grade: string): (r: (int, int))
    ensures 0 <= r.0 <= r.1 <= 100
    ensures grade !in GradeRanges ==> r == (0, 0)
  {
    if grade in GradeRanges then GradeRanges[grade] else (0, 0)
  }

  /** Every total mark from 0 to 100 lies in the band of some listed grade. */
  lemma GradeBandsCover(n: int)
    requires 0 <= n <= 100
    ensures exists g :: g in GradeRanges && GradeRanges[g].0 <= n <= GradeRanges[g].1
  {
    var g :=
      if n >= 90 then "A+" else if n >= 80 then "A" else if n >= 75 then "A-"
      else if n >= 70 then "B+" else if n >= 65 then "B" else if n >= 60 then "B-"
      else if n >= 55 then "C+" else if n >= 45 then "C" else if n >= 40 then "C-"
      else if n >= 35 then "D+" else if n >= 30 then "D" else "E";
    assert g in GradeRanges && GradeRanges[g].0 <= n <= GradeRanges[g].1;
  }

  /** No total mark lies in the bands of two different grades. */
  lemma GradeBandsDisjoint(g1: string, g2: string, n: int)
    requires g1 in GradeRanges && g2 in GradeRanges
    requires GradeRanges[g1].0 <= n <= GradeRanges[g1].1 && GradeRanges[g2].0 <= n <= GradeRanges[g2].1
    ensures g1 == g2
  {
  }

  /**
    The final-exam percentage that brings the total to `bound` on top of the
    CA mark already earned: `((bound/100) - ca*(caMark/100)) * 100 / final`.
    It is not clamped, so it may be negative or above 100.
   */
  function ExamMark(bound: int, caMark: real, w: Weights): (e: real)
    requires w.final > 0.0
    ensures w.ca * caMark + w.final * e == bound as real
  {
    var needed := ((bound as real / 100.0) - w.ca * (caMark / 100.0)) * 100.0;
    assert needed == bound as real - w.ca * caMark;
    var e := needed / w.final;
    assert w.final * e == needed;
    e
  }

  /** A higher total needs a higher exam mark. */
  lemma ExamMarkMonotone(lo: int, hi: int, caMark: real, w: Weights)
    requires w.final > 0.0 && lo <= hi
    ensures ExamMark(lo, caMark, w) <= ExamMark(hi, caMark, w)
  {
    var a, b := ExamMark(lo, caMark, w), ExamMark(hi, caMark, w);
    assert w.final * a <= w.final * b;
  }

  /** The exam range of a worked example: grade A- (75 to 79) with a CA mark of 78.5 under the 40/60 split. */
  lemma ExamMarkExample()
    ensures ExamMark(75, 78.5, Weights(0.4, 0.6)) == 218.0 / 3.0
    ensures ExamMark(79, 78.5, Weights(0.4, 0.6)) == 238.0 / 3.0
  {
    var w := Weights(0.4, 0.6);
    assert w.final * ExamMark(75, 78.5, w) == 75.0 - 0.4 * 78.5;
    assert w.final * ExamMark(79, 78.5, w) == 79.0 - 0.4 * 78.5;
  }

  /** The upper exam mark is not clamped to 100: a top band out of reach is reported above 100. */
  lemma ExamMarkUnclamped()
    ensures ExamMark(100, 0.0, Weights(0.4, 0.6)) == 500.0 / 3.0 > 100.0
    ensures ExamMark(0, 100.0, Weights(0.5, 0.5)) == -100.0
  {
    assert 0.6 * ExamMark(100, 0.0, Weights(0.4, 0.6)) == 100.0;
    assert 0.5 * ExamMark(0, 100.0, Weights(0.5, 0.5)) == -50.0;
  }

  /** `100 * (1 - rank / total)`. */
  function Percentile(rank: nat, total: nat): (p: real)
    requires 1 <= rank <= total
    ensures 0.0 <= p < 100.0
    ensures p * total as real == 100.0 * (total - rank) as real
  {
    var f := rank as real / total as real;
    assert f * total as real == rank as real;
    assert 0.0 < f <= 1.0;
    100.0 * (1.0 - f)
  }

  /** A worse rank never has a higher percentile. */
  lemma PercentileMonotone(r1: nat, r2: nat, total: nat)
    requires 1 <= r1 <= r2 <= total
    ensures Percentile(r2, total) <= Percentile(r1, total)
  {
    var p1, p2 := Percentile(r1, total), Percentile(r2, total);
    assert p2 * total as real <= p1 * total as real;
  }

  /** The report shown for a single matching row. */
  datatype Report = Report(
    row: Row,
    total: nat,
    percentile: real,
    classAverage: real,
    rawAverage: real,
    minTotal: int,
    maxTotal: int,
    examMin: real,
    examMax: real)

  /** The outcome of a search. */
  datatype SearchOutcome = NoQuery | NotFound | Ambiguous(matches: seq<Row>) | Found(report: Report)

  /** A row of a numbered table has a rank between 1 and the number of rows. */
  lemma RankInRange(rows: seq<Row>, student: Row)
    requires Numbered(rows) && student in rows
    ensures 1 <= student.rank <= |rows|
  {
    var k :| 0 <= k < |rows| && rows[k] == student;
  }

  lemma Unscale(avg: real, c: real)
    requires c > 0.0
    ensures (avg / c) * c == avg
  {
  }

  /** The report of a matching row of the table. */
  function MakeReport(rows: seq<Row>, w: Weights, student: Row): (rep: Report)
    requires Valid(w) && Numbered(rows) && student in rows
    ensures rep.row == student && rep.total == |rows|
    ensures 0.0 <= rep.percentile < 100.0
    ensures rep.percentile * |rows| as real == 100.0 * (|rows| - student.rank) as real
    ensures rep.classAverage == Mean(ScaledColumn(rows)) && rep.rawAverage * w.ca == rep.classAverage
    ensures 0 <= rep.minTotal <= rep.maxTotal <= 100 && (rep.minTotal, rep.maxTotal) == GradeRange(student.rec.grade)
    ensures rep.examMin == ExamMark(rep.minTotal, student.rec.caMarksPercent, w)
    ensures rep.examMax == ExamMark(rep.maxTotal, student.rec.caMarksPercent, w)
    ensures rep.examMin <= rep.examMax
  {
    RankInRange(rows, student);
    var avg := Mean(ScaledColumn(rows));
    var range := GradeRange(student.rec.grade);
    var ca := student.rec.caMarksPercent;
    ExamMarkMonotone(range.0, range.1, ca, w);
    Unscale(avg, w.ca);
    Report(student, |rows|, Percentile(student.rank, |rows|), avg, avg / w.ca, range.0, range.1,
      ExamMark(range.0, ca, w), ExamMark(range.1, ca, w))
  }

  /**
    The search over the ranked table. An empty input asks nothing; otherwise
    the clean query is a prefix to match, and exactly one matching row gives
    its report.
   */
  function Search(rows: seq<Row>, w: Weights, typed: string): (o: SearchOutcome)
    requires Valid(w) && Numbered(rows)
    ensures o.NoQuery? <==> typed == []
    ensures o.NotFound? <==> typed != [] && forall k :: 0 <= k < |rows| ==> !IsPrefix(CleanQuery(typed), rows[k].rec.regNo)
    ensures o.Ambiguous? ==> |o.matches| >= 2 && forall r :: r in o.matches ==> r in rows && IsPrefix(CleanQuery(typed), r.rec.regNo)
    ensures o.Ambiguous? ==> o.matches == PrefixMatches(rows, CleanQuery(typed))
    ensures o.Found? ==> o.report.row in rows && IsPrefix(CleanQuery(typed), o.report.row.rec.regNo)
    ensures o.Found? ==> forall k :: 0 <= k < |rows| && IsPrefix(CleanQuery(typed), rows[k].rec.regNo) ==> rows[k] == o.report.row
    ensures o.Found? ==> o.report == MakeReport(rows, w, o.report.row)
  {
    if Upper(typed) == [] then NoQuery
    else
      var q := CleanQuery(typed);
      var m := PrefixMatches(rows, q);
      PrefixMatchesComplete(rows, q);
      if |m| == 0 then NotFound
      else
        assert m[0] in m;
        if |m| > 1 then Ambiguous(m)
        else
        assert m == [m[0]];
        Found(MakeReport(rows, w, m[0]))
  }

  /** A non-empty input that exactly one row of the table starts with finds that row and gives its report. */
  lemma SearchSingle(rows: seq<Row>, w: Weights, typed: string, k: nat)
    requires Valid(w) && Numbered(rows)
    requires typed != [] && k < |rows| && IsPrefix(CleanQuery(typed), rows[k].rec.regNo)
    requires forall j :: 0 <= j < |rows| && IsPrefix(CleanQuery(typed), rows[j].rec.regNo) ==> j == k
    ensures Search(rows, w, typed) == Found(MakeReport(rows, w, rows[k]))
  {
    PrefixMatchesSingle(rows, CleanQuery(typed), k);
  }

  /**
    A registration number typed in full (in any case, with any spacing or
    punctuation) finds its row when no other row has that number.
   */
  lemma SearchFullId(rows: seq<Row>, w: Weights, typed: string, k: nat)
    requires Valid(w) && Numbered(rows)
    requires forall j :: 0 <= j < |rows| ==> IsRegNo(rows[j].rec.regNo)
    requires k < |rows| && typed != [] && CleanQuery(typed) == rows[k].rec.regNo
    requires forall j :: 0 <= j < |rows| && rows[j].rec.regNo == rows[k].rec.regNo ==> j == k
    ensures Search(rows, w, typed) == Found(MakeReport(rows, w, rows[k]))
  {
    var q := CleanQuery(typed);
    forall j | 0 <= j < |rows| && IsPrefix(q, rows[j].rec.regNo) ensures j == k {
      assert rows[j].rec.regNo[..|q|] == rows[j].rec.regNo;
    }
    SearchSingle(rows, w, typed, k);
  }

  /** Ranks that strictly increase down the table. */
  predicate RanksIncrease(rows: seq<Row>) {
    forall i, j :: 0 <= i < j < |rows| ==> rows[i].rank < rows[j].rank
  }

  /** A row ranked above every row of an increasing table can head it. */
  lemma ConsIncrease(h: Row, t: seq<Row>)
    requires RanksIncrease(t)
    requires forall r :: r in t ==> h.rank < r.rank
    ensures RanksIncrease([h] + t)
  {
    var m := [h] + t;
    forall i, j | 0 <= i < j < |m| ensures m[i].rank < m[j].rank {
      assert m[j] == t[j - 1];
      if i > 0 { assert m[i] == t[i - 1]; }
    }
  }

  /** In an increasing table the first row ranks above every later one. */
  lemma HeadBelowTail(rows: seq<Row>, p: string)
    requires rows != [] && RanksIncrease(rows)
    ensures forall r :: r in PrefixMatches(rows[1..], p) ==> rows[0].rank < r.rank
  {
    forall r | r in PrefixMatches(rows[1..], p) ensures rows[0].rank < r.rank {
      var j :| 0 <= j < |rows[1..]| && rows[1..][j] == r;
      assert rows[j + 1] == r;
    }
  }

  /** The filter keeps table order, so the ranks of the matches still strictly increase. */
  lemma {:induction false} PrefixMatchesRanksIncrease(rows: seq<Row>, p: string)
    requires RanksIncrease(rows)
    ensures RanksIncrease(PrefixMatches(rows, p))
  {
    if rows != [] {
      assert RanksIncrease(rows[1..]) by {
        forall i, j | 0 <= i < j < |rows[1..]| ensures rows[1..][i].rank < rows[1..][j].rank {
          assert rows[1..][i] == rows[i + 1] && rows[1..][j] == rows[j + 1];
        }
      }
      PrefixMatchesRanksIncrease(rows[1..], p);
      if IsPrefix(p, rows[0].rec.regNo) {
        HeadBelowTail(rows, p);
        ConsIncrease(rows[0], PrefixMatches(rows[1..], p));
      } else {
        assert PrefixMatches(rows, p) == [] + PrefixMatches(rows[1..], p);
      }
    }
  }

  /** An ambiguous search lists distinct rows: their ranks strictly increase. */
  lemma SearchAmbiguousDistinct(rows: seq<Row>, w: Weights, typed: string)
    requires Valid(w) && Numbered(rows)
    requires Search(rows, w, typed).Ambiguous?
    ensures RanksIncrease(Search(rows, w, typed).matches)
    ensures forall i, j :: 0 <= i < j < |Search(rows, w, typed).matches| ==> Search(rows, w, typed).matches[i] != Search(rows, w, typed).matches[j]
  {
    PrefixMatchesRanksIncrease(rows, CleanQuery(typed));
  }

  /** Two rows matching the query make it ambiguous. */
  lemma SearchTwoMatches(rows: seq<Row>, w: Weights, typed: string, i: nat, j: nat)
    requires Valid(w) && Numbered(rows)
    requires typed != [] && i < j < |rows|
    requires IsPrefix(CleanQuery(typed), rows[i].rec.regNo) && IsPrefix(CleanQuery(typed), rows[j].rec.regNo)
    ensures Search(rows, w, typed).Ambiguous?
  {
    assert rows[i].rank != rows[j].rank;
  }

  /**
    A query without a single capital letter or digit (such as "---") cleans
    to the empty prefix, which matches every row.
   */
  lemma SearchBlankQuery(rows: seq<Row>, w: Weights, typed: string)
    requires Valid(w) && Numbered(rows)
    requires typed != [] && CleanQuery(typed) == [] && |rows| >= 2
    ensures Search(rows, w, typed) == Ambiguous(rows)
  {
    PrefixMatchesEmpty(rows);
  }

  lemma CancelFactor(a: real, b: real, c: real)
    requires c > 0.0 && a * c == b * c
    ensures a == b
  {
  }

  /**
    The raw average of the report, the class average divided by the CA weight,
    is the mean of the raw CA marks.
   */
  lemma SearchRawAverage(rows: seq<Row>, w: Weights, typed: string)
    requires Valid(w) && Numbered(rows) && ScaledBy(rows, w)
    requires Search(rows, w, typed).Found?
    ensures Search(rows, w, typed).report.rawAverage == Mean(RawColumn(rows))
  {
    var rep := Search(rows, w, typed).report;
    assert rep.row in rows;
    MeanScaled(rows, w);
    CancelFactor(rep.rawAverage, Mean(RawColumn(rows)), w.ca);
  }
}
