/**
  Record extraction: the group tuples found by `re.findall` become records,
  with the registration number upper-cased and stripped of whitespace and the
  CA mark read as a number. No match at all stops the pipeline.
 */
module Extraction {
  import opened Chars
  import opened Students
  import opened RecordScan

  /** `re.sub(r"\s+", "", reg_no.upper())`. */
  function NormalizeId(raw: string): string {
    RemoveSpaces(Upper(raw))
  }

  /** A normalised identifier holds no whitespace and no lower-case letter. */
  lemma NormalizeIdClean(raw: string)
    ensures forall i :: 0 <= i < |NormalizeId(raw)| ==> !IsSpace(NormalizeId(raw)[i]) && !IsLower(NormalizeId(raw)[i])
  {
    var u := Upper(raw);
    var n := RemoveSpaces(u);
    RemoveSpacesChars(u);
    forall i | 0 <= i < |n| ensures !IsSpace(n[i]) && !IsLower(n[i]) {
      assert n[i] in n;
      assert n[i] in u;
      var j :| 0 <= j < |u| && u[j] == n[i];
    }
  }

  /** Normalising twice gives the same identifier as normalising once. */
  lemma NormalizeIdIdempotent(raw: string)
    ensures NormalizeId(NormalizeId(raw)) == NormalizeId(raw)
  {
    var n := NormalizeId(raw);
    NormalizeIdClean(raw);
    assert Upper(n) == n;
    RemoveSpacesKeeps(n);
  }

  function SumOf(xs: seq<nat>): nat {
    if xs == [] then 0 else xs[0] + SumOf(xs[1..])
  }

  /** Digit groups hold only digits and whitespace. */
  lemma {:induction false} GroupsAtChars(s: string, p: nat, e: nat, groups: seq<nat>)
    requires p <= e <= |s| && GroupsAt(s, p, e, groups)
    ensures forall k :: p <= k < e ==> IsDigit(s[k]) || IsSpace(s[k])
    decreases |groups|
  {
    if groups != [] {
      var n := groups[0];
      if p + n <= e && AllIn(s, p, p + n, IsDigit) && GroupsAt(s, p + n, e, groups[1..]) {
        GroupsAtChars(s, p + n, e, groups[1..]);
      } else {
        GroupsAtChars(s, p + 1 + n, e, groups[1..]);
      }
    }
  }

  /** Whitespace removal distributes over adjacent pieces of a text. */
  lemma RemoveSpacesSplit(s: string, p: nat, m: nat, e: nat)
    requires p <= m <= e <= |s|
    ensures RemoveSpaces(s[p..e]) == RemoveSpaces(s[p..m]) + RemoveSpaces(s[m..e])
  {
    assert s[p..e] == s[p..m] + s[m..e];
    RemoveSpacesAppend(s[p..m], s[m..e]);
  }

  /** A digit group comes through whitespace removal unchanged. */
  lemma RemoveSpacesDigits(s: string, p: nat, e: nat)
    requires p <= e <= |s| && AllIn(s, p, e, IsDigit)
    ensures RemoveSpaces(s[p..e]) == s[p..e] && AllDigits(s[p..e])
  {
    AllInSlice(s, p, e, IsDigit);
    RemoveSpacesKeeps(s[p..e]);
  }

  lemma AllDigitsAppend(a: string, b: string)
    requires AllDigits(a) && AllDigits(b)
    ensures AllDigits(a + b)
  {
    assert forall i :: |a| <= i < |a + b| ==> (a + b)[i] == b[i - |a|];
  }

  /** Where the first digit group starts: right at `p`, or after one whitespace character. */
  ghost function FirstGroupStart(s: string, p: nat, e: nat, groups: seq<nat>): (q: nat)
    requires p <= e <= |s| && GroupsAt(s, p, e, groups) && groups != []
    ensures q == p || (q == p + 1 && p < |s| && IsSpace(s[p]))
    ensures q + groups[0] <= e && AllIn(s, q, q + groups[0], IsDigit) && GroupsAt(s, q + groups[0], e, groups[1..])
  {
    var n := groups[0];
    if p + n <= e && AllIn(s, p, p + n, IsDigit) && GroupsAt(s, p + n, e, groups[1..]) then p else p + 1
  }

  lemma RemoveSpacesSkip(s: string, p: nat, e: nat)
    requires p < e <= |s| && IsSpace(s[p])
    ensures RemoveSpaces(s[p..e]) == RemoveSpaces(s[p + 1..e])
  {
    RemoveSpacesSplit(s, p, p + 1, e);
    assert s[p..p + 1] == [s[p]];
  }

  /** Removing the whitespace of digit groups leaves exactly their digits. */
  lemma {:induction false} GroupsAtRemoveSpaces(s: string, p: nat, e: nat, groups: seq<nat>)
    requires p <= e <= |s| && GroupsAt(s, p, e, groups)
    ensures AllDigits(RemoveSpaces(s[p..e])) && |RemoveSpaces(s[p..e])| == SumOf(groups)
    decreases |groups|
  {
    if groups == [] {
      assert s[p..e] == [];
    } else {
      var q := FirstGroupStart(s, p, e, groups);
      GroupsAtRemoveSpaces(s, q + groups[0], e, groups[1..]);
      GroupsAtRemoveSpacesStep(s, q, e, groups[0], groups[1..]);
      if q == p + 1 {
        RemoveSpacesSkip(s, p, e);
      }
    }
  }

  lemma GroupsAtRemoveSpacesStep(s: string, q: nat, e: nat, n: nat, rest: seq<nat>)
    requires q + n <= e <= |s| && AllIn(s, q, q + n, IsDigit)
    requires AllDigits(RemoveSpaces(s[q + n..e])) && |RemoveSpaces(s[q + n..e])| == SumOf(rest)
    ensures AllDigits(RemoveSpaces(s[q..e])) && |RemoveSpaces(s[q..e])| == n + SumOf(rest)
  {
    RemoveSpacesSplit(s, q, q + n, e);
    RemoveSpacesDigits(s, q, q + n);
    AllDigitsAppend(s[q..q + n], RemoveSpaces(s[q + n..e]));
  }

  /** A matched registration number has no lower-case letter for `upper` to change. */
  lemma UpperRawId(w: string)
    requires IsRawId(w)
    ensures Upper(w) == w
  {
    GroupsAtChars(w, 2, |w|, IdGroups);
    assert forall i :: 0 <= i < |w| ==> !IsLower(w[i]);
  }

  /** Without its whitespace, a matched registration number is `IT` and its eight digits. */
  lemma RemoveSpacesRawId(w: string)
    requires IsRawId(w)
    ensures var digits := RemoveSpaces(w[2..]);
      RemoveSpaces(w) == "IT" + digits && |digits| == 8 && AllDigits(digits)
  {
    RemoveSpacesSplit(w, 0, 2, |w|);
    assert w[0..|w|] == w;
    RemoveSpacesPrefix(w);
    GroupsAtRemoveSpaces(w, 2, |w|, IdGroups);
    IdGroupsSum();
  }

  lemma RemoveSpacesPrefix(w: string)
    requires 2 <= |w| && w[0] == 'I' && w[1] == 'T'
    ensures RemoveSpaces(w[0..2]) == "IT"
  {
    assert w[0..2] == ['I', 'T'];
  }

  lemma IdGroupsSum()
    ensures SumOf(IdGroups) == 8
  {
    assert IdGroups[1..] == [4, 2] && IdGroups[1..][1..] == [2] && IdGroups[1..][1..][1..] == [];
  }

  /** Every registration number the pattern matches normalises to `IT` and eight digits. */
  lemma NormalizeRawId(w: string)
    requires IsRawId(w)
    ensures IsRegNo(NormalizeId(w))
  {
    UpperRawId(w);
    RemoveSpacesRawId(w);
    var n := NormalizeId(w);
    var digits := RemoveSpaces(w[2..]);
    assert n[..2] == "IT" && n[2..] == digits;
  }

  /** The two readings of a CA-mark token: the end of its integer digits, and whether a fraction follows. */
  lemma CaTokenParts(w: string)
    requires IsCaToken(w)
    ensures var k := RunEnd(w, 0, IsDigit);
      1 <= k <= 3 && AllDigits(w[..k]) &&
      (k == |w| || FractionShape(w, k))
  {
    var k := RunEnd(w, 0, IsDigit);
    if 1 <= |w| <= 3 && AllDigits(w) {
      AllInSlice(w, 0, |w|, IsDigit);
      RunEndIs(w, 0, |w|, IsDigit);
      assert w[..k] == w;
    } else {
      var j := if FractionShape(w, 1) then 1 else if FractionShape(w, 2) then 2 else 3;
      assert FractionShape(w, j);
      AllInSlice(w, 0, j, IsDigit);
      assert w[..j] == w[0..j];
      RunEndIs(w, 0, j, IsDigit);
    }
  }

  /** `float(ca_percent)`, read exactly: the integer digits plus the fraction digits over a power of ten. */
  function ParseCa(w: string): (v: real)
    requires IsCaToken(w)
    ensures 0.0 <= v <= 999.99
  {
    CaTokenParts(w);
    var k := RunEnd(w, 0, IsDigit);
    var whole := DigitsValue(w[..k]);
    assert whole <= 999 by {
      assert Pow10(3) == 1000;
      assert k == 1 ==> Pow10(k) == 10;
      assert k == 2 ==> Pow10(k) == 100;
    }
    if k == |w| then whole as real
    else
      var f := w[k + 1..];
      var frac := DigitsValue(f);
      var scale := Pow10(|f|);
      assert frac as real / scale as real <= 0.99 by {
        assert |f| == 1 || |f| == 2;
        assert |f| == 1 ==> scale == 10 && frac <= 9;
        assert |f| == 2 ==> scale == 100 && frac <= 99;
      }
      whole as real + frac as real / scale as real
  }

  /** Reading the digits of `a + b` shifts the value of `a` past the digits of `b`. */
  lemma {:induction false} DigitsValueAppend(a: string, b: string)
    requires AllDigits(a) && AllDigits(b)
    ensures AllDigits(a + b) && DigitsValue(a + b) == DigitsValue(a) * Pow10(|b|) + DigitsValue(b)
    decreases |b|
  {
    AllDigitsAppend(a, b);
    if b == [] {
      assert a + b == a;
    } else {
      var init := b[..|b| - 1];
      assert (a + b)[..|a + b| - 1] == a + init;
      assert (a + b)[|a + b| - 1] == b[|b| - 1];
      DigitsValueAppend(a, init);
      var d := b[|b| - 1] as int - '0' as int;
      ShiftDigit(DigitsValue(a), Pow10(|init|), DigitsValue(init), d);
    }
  }

  /** One more digit shifts both parts of a split number. */
  lemma ShiftDigit(x: int, p: int, y: int, d: int)
    ensures (x * p + y) * 10 + d == x * (10 * p) + (y * 10 + d)
  {
  }

  /** A CA token without a decimal point is read as the integer its digits spell. */
  lemma ParseCaWhole(w: string)
    requires 1 <= |w| <= 3 && AllDigits(w)
    ensures ParseCa(w) == DigitsValue(w) as real
  {
    AllInSlice(w, 0, |w|, IsDigit);
    RunEndIs(w, 0, |w|, IsDigit);
    assert w[..|w|] == w;
  }

  /**
    A CA token with `k` integer digits and a fraction is read as the integer
    the token spells without its decimal point, over ten to the number of
    fraction digits.
   */
  lemma ParseCaFraction(w: string, k: nat)
    requires 1 <= k <= 3 && FractionShape(w, k)
    ensures AllDigits(w[..k] + w[k + 1..])
    ensures ParseCa(w) == DigitsValue(w[..k] + w[k + 1..]) as real / Pow10(|w| - k - 1) as real
  {
    ParseCaParts(w, k);
    JoinDigits(w, k);
    JoinFraction(ParseCa(w), DigitsValue(w[..k]), DigitsValue(w[k + 1..]), Pow10(|w| - k - 1), DigitsValue(w[..k] + w[k + 1..]));
  }

  /** A whole part plus a fraction over `scale` is the joined numerator over `scale`. */
  lemma JoinFraction(v: real, whole: int, frac: int, scale: int, joined: int)
    requires scale > 0 && v == whole as real + frac as real / scale as real
    requires joined == whole * scale + frac
    ensures v == joined as real / scale as real
  {
  }

  /** Dropping the decimal point joins the two digit runs into one number. */
  lemma JoinDigits(w: string, k: nat)
    requires 1 <= k <= 3 && FractionShape(w, k)
    ensures AllDigits(w[..k] + w[k + 1..])
    ensures DigitsValue(w[..k] + w[k + 1..]) == DigitsValue(w[..k]) * Pow10(|w| - k - 1) + DigitsValue(w[k + 1..])
  {
    DigitsValueAppend(w[..k], w[k + 1..]);
    assert |w[k + 1..]| == |w| - k - 1;
  }

  /** A token with a fractional part reads as its whole digits plus its fraction digits over a power of ten. */
  lemma ParseCaParts(w: string, k: nat)
    requires 1 <= k <= 3 && FractionShape(w, k)
    ensures ParseCa(w) == DigitsValue(w[..k]) as real + DigitsValue(w[k + 1..]) as real / Pow10(|w| - k - 1) as real
  {
    AllInSlice(w, 0, k, IsDigit);
    assert w[..k] == w[0..k];
    assert !IsDigit(w[k]);
    RunEndIs(w, 0, k, IsDigit);
  }

  /** The CA mark of the worked example. */
  lemma ParseCaExample()
    ensures ParseCa("78.5") == 78.5
  {
    var w := "78.5";
    assert w[..2] == "78" && w[3..] == "5";
    ParseCaFraction(w, 2);
    assert w[..2] + w[3..] == "785";
    DigitsExample();
  }

  /** The digits of the example mark without its decimal point. */
  lemma DigitsExample()
    ensures DigitsValue("785") == 785
  {
    assert "785"[..2] == "78" && "78"[..1] == "7" && "7"[..0] == "";
  }

  /** Leading zeros and a zero after the decimal point are read as in `float`. */
  lemma ParseCaLeadingZero()
    ensures ParseCa("07.05") == 7.05
  {
    var w := "07.05";
    assert w[..2] == "07" && w[3..] == "05";
    ParseCaFraction(w, 2);
    assert w[..2] + w[3..] == "0705";
    DigitsLeadingZero();
  }

  /** The digits of the leading-zero mark without its decimal point. */
  lemma DigitsLeadingZero()
    ensures DigitsValue("0705") == 705
  {
    assert "0705"[..3] == "070" && "070"[..2] == "07" && "07"[..1] == "0" && "0"[..0] == "";
  }

  /** The groups of a record match have the shapes the record pattern gives them. */
  ghost predicate WellShaped(m: RawMatch) {
    IsRawId(m.regNo) && IsCaToken(m.caPercent)
  }

  /** A matched group tuple as the record appended to the table. */
  function ToRecord(m: RawMatch): (r: Record)
    requires WellShaped(m)
    ensures IsRegNo(r.regNo) && 0.0 <= r.caMarksPercent <= 999.99
    ensures r.grade == m.grade && r.status == m.status
  {
    NormalizeRawId(m.regNo);
    Record(NormalizeId(m.regNo), ParseCa(m.caPercent), m.grade, m.status)
  }

  /** The extraction loop: one record per group tuple, in the order of the tuples. */
  method BuildRecords(matches: seq<RawMatch>) returns (data: seq<Record>)
    requires forall k :: 0 <= k < |matches| ==> WellShaped(matches[k])
    ensures |data| == |matches|
    ensures forall k :: 0 <= k < |data| ==> data[k] == ToRecord(matches[k])
    ensures forall k :: 0 <= k < |data| ==> IsRegNo(data[k].regNo) && 0.0 <= data[k].caMarksPercent <= 999.99
  {
    data := [];
    var i := 0;
    while i < |matches|
      invariant 0 <= i <= |matches|
      invariant |data| == i
      invariant forall k :: 0 <= k < i ==> data[k] == ToRecord(matches[k])
    {
      data := data + [ToRecord(matches[i])];
      i := i + 1;
    }
  }

  /** The outcome of extraction: no data found, or the non-empty list of records. */
  datatype Extracted = NoStudentData | Records(data: seq<Record>)

  /**
    Find every record in the text and build the table; without a single match
    the result is NoStudentData and nothing further is computed.
   */
  method ExtractRecords(text: string) returns (r: Extracted)
    ensures r.NoStudentData? <==> forall t :: !RecordShape(text, t)
    ensures r.Records? ==> |r.data| == |FindAllGroups(text)| > 0
    ensures r.Records? ==> forall k :: 0 <= k < |r.data| ==> r.data[k] == ToRecord(FindAllGroups(text)[k])
    ensures r.Records? ==> forall k :: 0 <= k < |r.data| ==> IsRegNo(r.data[k].regNo)
  {
    var matches := FindAllGroups(text);
    FindAllEmptyIff(text);
    if |matches| == 0 {
      return NoStudentData;
    }
    var data := BuildRecords(matches);
    return Records(data);
  }
}
