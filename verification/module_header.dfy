/**
  Module identification: the first `IT` + four digits code in the report text,
  followed by optional whitespace, a dash, optional whitespace and a name that
  runs up to the next line break or dash. The pattern is
  `(IT\d{4})\s*-\s*([^\n\-]+)`, searched with `re.search`; both groups are then
  stripped. Without a match the code and the name are both "Unknown".
 */
module ModuleHeader {
  import opened Options
  import opened Chars

  const Unknown: string := "Unknown"

  datatype ModuleInfo = ModuleInfo(code: string, name: string)

  /** `IT\d{4}`. */
  predicate IsModuleCode(w: string) {
    |w| == 6 && w[..2] == "IT" && AllDigits(w[2..])
  }

  /** The class `[^\n\-]` of the name group. */
  predicate IsNameChar(c: char) { c != '\n' && c != '-' }

  /** Positions of one match: the code is `s[start..start + 6]`, the name group `s[nameStart..nameEnd]`. */
  datatype ModuleSpan = ModuleSpan(start: nat, dash: nat, nameStart: nat, nameEnd: nat)

  /** The pattern matches `s[t.start..t.nameEnd]` with the groups at `t` (any way, greedy or not). */
  ghost predicate ModuleShape(s: string, t: ModuleSpan) {
    && t.start + 6 <= t.dash < t.nameStart < t.nameEnd <= |s|
    && IsModuleCode(s[t.start..t.start + 6])
    && AllSpaces(s[t.start + 6..t.dash])
    && s[t.dash] == '-'
    && AllSpaces(s[t.dash + 1..t.nameStart])
    && AllOf(s[t.nameStart..t.nameEnd], IsNameChar)
  }

  /**
    Where the name group starts: `\s*` first takes the whole whitespace run
    `[lo, hi)` and gives characters back until `[^\n\-]` can match, so the
    start is the largest position in `[lo, hi]` holding a name character.
   */
  function LastNameStart(s: string, lo: nat, hi: nat): (r: Option<nat>)
    requires lo <= hi <= |s|
    ensures r.Some? ==> lo <= r.value <= hi && r.value < |s| && IsNameChar(s[r.value])
    ensures r.Some? ==> forall q :: r.value < q <= hi && q < |s| ==> !IsNameChar(s[q])
    ensures r.None? ==> forall q :: lo <= q <= hi && q < |s| ==> !IsNameChar(s[q])
    decreases hi - lo
  {
    if hi < |s| && IsNameChar(s[hi]) then Some(hi)
    else if hi == lo then None
    else LastNameStart(s, lo, hi - 1)
  }

  /** The position-based reading of a match: each run of the pattern given by its bounds. */
  lemma ModuleShapeOfRuns(s: string, t: ModuleSpan)
    requires t.start + 6 <= t.dash < t.nameStart < t.nameEnd <= |s|
    requires IsModuleCode(s[t.start..t.start + 6]) && s[t.dash] == '-'
    requires AllIn(s, t.start + 6, t.dash, IsSpace) && AllIn(s, t.dash + 1, t.nameStart, IsSpace)
    requires AllIn(s, t.nameStart, t.nameEnd, IsNameChar)
    ensures ModuleShape(s, t)
  {
    AllInSlice(s, t.start + 6, t.dash, IsSpace);
    AllInSlice(s, t.dash + 1, t.nameStart, IsSpace);
    AllInSlice(s, t.nameStart, t.nameEnd, IsNameChar);
  }

  /** The match attempt of the module pattern at position `i`. */
  function MatchModuleAt(s: string, i: nat): (r: Option<ModuleSpan>)
    requires i <= |s|
    ensures r.Some? ==> r.value.start == i && ModuleShape(s, r.value)
    ensures r.Some? ==> r.value.nameEnd == |s| || !IsNameChar(s[r.value.nameEnd])
    ensures r.Some? ==> forall q :: r.value.nameStart < q < |s| && AllSpaces(s[r.value.dash + 1..q]) ==> !IsNameChar(s[q])
  {
    if i + 6 <= |s| && IsModuleCode(s[i..i + 6]) then
      var dash := RunEnd(s, i + 6, IsSpace);
      if dash < |s| && s[dash] == '-' then
        var w := RunEnd(s, dash + 1, IsSpace);
        match LastNameStart(s, dash + 1, w)
        case None => None
        case Some(p) =>
          FoundSpan(s, i, dash, p);
          Some(ModuleSpan(i, dash, p, RunEnd(s, p, IsNameChar)))
      else None
    else None
  }

  /** The span the match attempt builds from its greedy runs has the shape of a match. */
  lemma FoundSpan(s: string, i: nat, dash: nat, p: nat)
    requires i + 6 <= |s| && IsModuleCode(s[i..i + 6])
    requires dash == RunEnd(s, i + 6, IsSpace) && dash < |s| && s[dash] == '-'
    requires LastNameStart(s, dash + 1, RunEnd(s, dash + 1, IsSpace)) == Some(p)
    ensures p < |s|
    ensures ModuleShape(s, ModuleSpan(i, dash, p, RunEnd(s, p, IsNameChar)))
    ensures forall q :: p < q < |s| && AllSpaces(s[dash + 1..q]) ==> !IsNameChar(s[q])
  {
    NoLaterNameStart(s, dash + 1, p);
    var e := RunEnd(s, p, IsNameChar);
    assert p < e;
    assert AllIn(s, i + 6, dash, IsSpace);
    assert AllIn(s, dash + 1, p, IsSpace);
    assert AllIn(s, p, e, IsNameChar);
    ModuleShapeOfRuns(s, ModuleSpan(i, dash, p, e));
  }

  /** A whitespace run that fills `s[from..p]` reaches at least `p`. */
  lemma SpaceRunReaches(s: string, from: nat, p: nat)
    requires from <= p <= |s| && AllSpaces(s[from..p])
    ensures RunEnd(s, from, IsSpace) >= p
  {
    AllInSlice(s, from, p, IsSpace);
  }

  /**
    The whitespace run after the dash gives back characters only as far as
    the last name character inside it: no position past that one, reached
    over whitespace alone, holds a name character.
   */
  lemma NoLaterNameStart(s: string, from: nat, p: nat)
    requires from <= |s|
    requires LastNameStart(s, from, RunEnd(s, from, IsSpace)) == Some(p)
    ensures forall q :: p < q < |s| && AllSpaces(s[from..q]) ==> !IsNameChar(s[q])
  {
    forall q | p < q < |s| && AllSpaces(s[from..q]) ensures !IsNameChar(s[q]) {
      SpaceRunReaches(s, from, q);
    }
  }

  /** Every way the pattern can match at a position is found by the match attempt there. */
  lemma MatchModuleAtComplete(s: string, t: ModuleSpan)
    requires ModuleShape(s, t)
    ensures MatchModuleAt(s, t.start).Some?
  {
    DashFound(s, t);
    NameFound(s, t);
  }

  /** The whitespace run after the code ends at the dash. */
  lemma DashFound(s: string, t: ModuleSpan)
    requires ModuleShape(s, t)
    ensures RunEnd(s, t.start + 6, IsSpace) == t.dash
  {
    SpaceRunReaches(s, t.start + 6, t.dash);
    assert !IsSpace('-');
    RunEndIs(s, t.start + 6, t.dash, IsSpace);
  }

  /** Some name character follows the dash within the whitespace run after it, or right at its end. */
  lemma NameFound(s: string, t: ModuleSpan)
    requires ModuleShape(s, t)
    ensures LastNameStart(s, t.dash + 1, RunEnd(s, t.dash + 1, IsSpace)).Some?
  {
    var w := RunEnd(s, t.dash + 1, IsSpace);
    SpaceRunReaches(s, t.dash + 1, t.nameStart);
    assert IsNameChar(s[t.nameStart]) by {
      assert s[t.nameStart..t.nameEnd][0] == s[t.nameStart];
    }
  }

  /** `re.search` from position `i`: the first position where the match attempt succeeds. */
  function FindModule(s: string, i: nat): (r: Option<ModuleSpan>)
    requires i <= |s|
    ensures r.Some? ==> i <= r.value.start <= |s| && MatchModuleAt(s, r.value.start) == r
    ensures forall p :: i <= p <= |s| && (r.None? || p < r.value.start) ==> MatchModuleAt(s, p).None?
    decreases |s| - i
  {
    var m := MatchModuleAt(s, i);
    if m.Some? then m
    else if i == |s| then None
    else FindModule(s, i + 1)
  }

  /** A module code has no surrounding whitespace, so stripping it changes nothing. */
  lemma StripModuleCode(w: string)
    requires IsModuleCode(w)
    ensures Strip(w) == w
  {
    assert w[0] == 'I' && !IsSpace(w[0]);
    assert LStrip(w) == w;
    assert w[2..][3] == w[5];
    assert IsDigit(w[5]) && !IsSpace(w[5]);
  }

  /** The stripped groups of a match: the code is already free of whitespace. */
  function InfoOf(text: string, t: ModuleSpan): (m: ModuleInfo)
    requires ModuleShape(text, t)
    ensures m.code == text[t.start..t.start + 6] && IsModuleCode(m.code)
    ensures m.name == Strip(text[t.nameStart..t.nameEnd])
  {
    var code := text[t.start..t.start + 6];
    StripModuleCode(code);
    ModuleInfo(Strip(code), Strip(text[t.nameStart..t.nameEnd]))
  }

  /** The module code and name of the report, or the "Unknown" sentinel pair. */
  function Identify(text: string): (m: ModuleInfo)
    ensures m.code == Unknown || IsModuleCode(m.code)
    ensures m.code == Unknown ==> m.name == Unknown
  {
    match FindModule(text, 0)
    case None => ModuleInfo(Unknown, Unknown)
    case Some(t) => InfoOf(text, t)
  }

  /** The sentinel is returned exactly when the pattern matches nowhere in the text. */
  lemma IdentifyUnknownIff(text: string)
    ensures Identify(text).code == Unknown <==> forall t :: !ModuleShape(text, t)
  {
    var r := FindModule(text, 0);
    if r.None? {
      forall t | ModuleShape(text, t) ensures false {
        MatchModuleAtComplete(text, t);
      }
    } else {
      assert ModuleShape(text, r.value);
      assert IsModuleCode(Identify(text).code);
    }
  }

  /** `re.search` finds a match whenever the pattern matches somewhere, and none starts earlier than the one it finds. */
  lemma FindModuleLeftmost(text: string, t: ModuleSpan)
    requires ModuleShape(text, t)
    ensures FindModule(text, 0).Some? && FindModule(text, 0).value.start <= t.start
  {
    MatchModuleAtComplete(text, t);
  }

  /** With a match, the code is the matched `IT` + four digits and the name the stripped name group. */
  lemma IdentifyFound(text: string, r: ModuleSpan)
    requires FindModule(text, 0) == Some(r)
    ensures Identify(text) == ModuleInfo(text[r.start..r.start + 6], Strip(text[r.nameStart..r.nameEnd]))
  {
    assert ModuleShape(text, r);
  }
}
