/** The optional value returned by the pattern matchers. */
module Options {
  datatype Option<+T> = None | Some(value: T)
}

/**
  Character classes and string operations of the report parser: the regular
  expression classes `\d` and `\s`, `str.upper`, `str.strip`, the two
  `re.sub` clean-ups and the maximal runs that greedy quantifiers consume.
 */
module Chars {

  /** `\d`, restricted to the ASCII digits. */
  predicate IsDigit(c: char) { '0' <= c <= '9' }

  /** `\s` of a `str` pattern: the characters for which `str.isspace()` holds. */
  predicate IsSpace(c: char) {
    c == ' ' || ('\t' <= c <= '\r') || ('\U{1C}' <= c <= '\U{1F}') || c == '\U{85}' || c == '\U{A0}'
    || c == '\U{1680}' || ('\U{2000}' <= c <= '\U{200A}') || c == '\U{2028}' || c == '\U{2029}'
    || c == '\U{202F}' || c == '\U{205F}' || c == '\U{3000}'
  }

  predicate IsLower(c: char) { 'a' <= c <= 'z' }

  /** The class `[A-Z0-9]` kept by the search-box clean-up. */
  predicate IsUpperAlnum(c: char) { 'A' <= c <= 'Z' || IsDigit(c) }

  predicate AllOf(s: string, p: char -> bool) { forall i :: 0 <= i < |s| ==> p(s[i]) }

  /** Every character of `s[i..e]` satisfies `p`. */
  predicate AllIn(s: string, i: nat, e: nat, p: char -> bool)
    requires i <= e <= |s|
  {
    forall k :: i <= k < e ==> p(s[k])
  }

  predicate AllDigits(s: string) { AllOf(s, IsDigit) }

  predicate AllSpaces(s: string) { AllOf(s, IsSpace) }

  /**
    The end of the longest run of characters satisfying `p` that starts at `i`:
    what a greedy `p+` or `p*` consumes before it gives anything back.
   */
  function RunEnd(s: string, i: nat, p: char -> bool): (e: nat)
    requires i <= |s|
    ensures i <= e <= |s|
    ensures forall k :: i <= k < e ==> p(s[k])
    ensures e == |s| || !p(s[e])
    decreases |s| - i
  {
    if i < |s| && p(s[i]) then RunEnd(s, i + 1, p) else i
  }

  /** A run that is all `p` and is followed by a character outside `p` (or the end) is the maximal run. */
  lemma RunEndIs(s: string, i: nat, e: nat, p: char -> bool)
    requires i <= e <= |s| && AllIn(s, i, e, p) && (e == |s| || !p(s[e]))
    ensures RunEnd(s, i, p) == e
  {
  }

  /** The position-based and the slice-based readings of "all characters satisfy `p`" agree. */
  lemma AllInSlice(s: string, i: nat, e: nat, p: char -> bool)
    requires i <= e <= |s|
    ensures AllIn(s, i, e, p) <==> AllOf(s[i..e], p)
  {
    assert forall j :: 0 <= j < e - i ==> s[i..e][j] == s[i + j];
    if AllOf(s[i..e], p) {
      forall k | i <= k < e ensures p(s[k]) {
        assert s[i..e][k - i] == s[k];
      }
    }
  }

  function UpperChar(c: char): char {
    if IsLower(c) then (c as int - 32) as char else c
  }

  /** `str.upper()` on the ASCII letters. */
  function Upper(s: string): (r: string)
    ensures |r| == |s|
    ensures forall i :: 0 <= i < |r| ==> !IsLower(r[i])
    ensures forall i :: 0 <= i < |s| && !IsLower(s[i]) ==> r[i] == s[i]
    ensures forall i :: 0 <= i < |s| && IsLower(s[i]) ==> r[i] as int == s[i] as int - 32 && 'A' <= r[i] <= 'Z'
  {
    seq(|s|, i requires 0 <= i < |s| => UpperChar(s[i]))
  }

  /** `re.sub(r"\s+", "", s)`: every whitespace character removed. */
  function RemoveSpaces(s: string): (r: string)
    ensures |r| <= |s|
  {
    if s == [] then []
    else (if IsSpace(s[0]) then [] else [s[0]]) + RemoveSpaces(s[1..])
  }

  /** Whitespace removal keeps only characters of the input that are not whitespace. */
  lemma {:induction false} RemoveSpacesChars(s: string)
    ensures forall c :: c in RemoveSpaces(s) ==> c in s && !IsSpace(c)
  {
    if s != [] {
      RemoveSpacesChars(s[1..]);
    }
  }

  lemma {:induction false} RemoveSpacesAppend(a: string, b: string)
    ensures RemoveSpaces(a + b) == RemoveSpaces(a) + RemoveSpaces(b)
  {
    if a == [] {
      assert a + b == b;
    } else {
      assert (a + b)[0] == a[0];
      assert (a + b)[1..] == a[1..] + b;
      RemoveSpacesAppend(a[1..], b);
    }
  }

  /** A string without whitespace is left as it is. */
  lemma {:induction false} RemoveSpacesKeeps(s: string)
    requires forall i :: 0 <= i < |s| ==> !IsSpace(s[i])
    ensures RemoveSpaces(s) == s
  {
    if s != [] {
      RemoveSpacesKeeps(s[1..]);
    }
  }

  /** `re.sub(r"[^A-Z0-9]", "", s)`: only upper-case ASCII letters and digits kept. */
  function KeepUpperAlnum(s: string): (r: string)
    ensures |r| <= |s|
    ensures forall i :: 0 <= i < |r| ==> IsUpperAlnum(r[i])
  {
    if s == [] then []
    else (if IsUpperAlnum(s[0]) then [s[0]] else []) + KeepUpperAlnum(s[1..])
  }

  lemma {:induction false} KeepUpperAlnumKeeps(s: string)
    requires forall i :: 0 <= i < |s| ==> IsUpperAlnum(s[i])
    ensures KeepUpperAlnum(s) == s
  {
    if s != [] {
      KeepUpperAlnumKeeps(s[1..]);
    }
  }

  /** Filtering a concatenation filters each part. */
  lemma {:induction false} KeepUpperAlnumAppend(a: string, b: string)
    ensures KeepUpperAlnum(a + b) == KeepUpperAlnum(a) + KeepUpperAlnum(b)
  {
    if a == [] {
      assert a + b == b;
    } else {
      assert (a + b)[0] == a[0];
      assert (a + b)[1..] == a[1..] + b;
      KeepUpperAlnumAppend(a[1..], b);
    }
  }

  /** On one character the filter keeps it exactly when it is a capital letter or a digit. */
  lemma KeepUpperAlnumChar(c: char)
    ensures KeepUpperAlnum([c]) == if IsUpperAlnum(c) then [c] else []
  {
    assert [c][1..] == [];
  }

  /** Upper-casing a concatenation upper-cases each part. */
  lemma UpperAppend(a: string, b: string)
    ensures Upper(a + b) == Upper(a) + Upper(b)
  {
    assert forall i :: 0 <= i < |a| + |b| ==> Upper(a + b)[i] == (Upper(a) + Upper(b))[i];
  }

  /** Leading whitespace removed: `r` is a suffix of `s`. */
  function LStrip(s: string): (r: string)
    ensures |r| <= |s|
  {
    if s != [] && IsSpace(s[0]) then LStrip(s[1..]) else s
  }

  /** Trailing whitespace removed: `r` is a prefix of `s`. */
  function RStrip(s: string): (r: string)
    ensures |r| <= |s|
  {
    if s != [] && IsSpace(s[|s| - 1]) then RStrip(s[..|s| - 1]) else s
  }

  /** `str.strip()` with no argument. */
  function Strip(s: string): string {
    RStrip(LStrip(s))
  }

  /** LStrip drops exactly the leading whitespace run. */
  lemma {:induction false} LStripSpec(s: string)
    ensures LStrip(s) == s[|s| - |LStrip(s)|..]
    ensures forall i :: 0 <= i < |s| - |LStrip(s)| ==> IsSpace(s[i])
    ensures LStrip(s) == [] || !IsSpace(LStrip(s)[0])
  {
    if s != [] && IsSpace(s[0]) {
      LStripSpec(s[1..]);
      assert forall i :: 1 <= i < |s| ==> s[1..][i - 1] == s[i];
    }
  }

  /** RStrip drops exactly the trailing whitespace run. */
  lemma {:induction false} RStripSpec(s: string)
    ensures RStrip(s) == s[..|RStrip(s)|]
    ensures forall i :: |RStrip(s)| <= i < |s| ==> IsSpace(s[i])
    ensures RStrip(s) == [] || !IsSpace(RStrip(s)[|RStrip(s)| - 1])
  {
    if s != [] && IsSpace(s[|s| - 1]) {
      RStripSpec(s[..|s| - 1]);
      assert forall i :: 0 <= i < |s| - 1 ==> s[..|s| - 1][i] == s[i];
    }
  }

  function Pow10(n: nat): (r: nat)
    ensures r >= 1
  {
    if n == 0 then 1 else 10 * Pow10(n - 1)
  }

  /** The value of a string of decimal digits. */
  function DigitsValue(s: string): (v: nat)
    requires AllDigits(s)
    ensures v < Pow10(|s|)
  {
    if s == [] then 0
    else
      var d := s[|s| - 1] as int - '0' as int;
      var v := DigitsValue(s[..|s| - 1]);
      assert v + 1 <= Pow10(|s| - 1);
      v * 10 + d
  }
}
