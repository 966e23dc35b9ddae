/**
  The record pattern of the marks table and `re.findall` over it:

    \d+\s+(IT\s?\d{2}\s?\d{4}\s?\d{2})\s+(\d{1,3}(?:\.\d{1,2})?)\s+([A-Z\+\-]+)\s+(Pass|Fail|IC)

  Every piece of this pattern can match in one way only: each run is followed
  by a character outside its class (digits, whitespace and grade characters
  are separated by whitespace, the identifier is followed by whitespace), so
  backtracking never finds a second split. The matcher below therefore takes
  maximal runs, and MatchRecordAtComplete proves that it finds every match the
  declarative RecordShape admits. `\s` also matches line breaks, so one record
  may span several lines of the text.
 */
module RecordScan {
  import opened Options
  import opened Chars
  import opened Students

  /** The class `[A-Z\+\-]` of the grade group. */
  predicate IsGradeChar(c: char) { 'A' <= c <= 'Z' || c == '+' || c == '-' }

  /** Digits, grade characters and the start of an identifier are not whitespace. */
  lemma NotSpace(c: char)
    requires IsDigit(c) || IsGradeChar(c)
    ensures !IsSpace(c)
  {
  }

  /** Whitespace is neither a digit nor a grade character. */
  lemma SpaceIsNot(c: char)
    requires IsSpace(c)
    ensures !IsDigit(c) && !IsGradeChar(c)
  {
  }

  /** Consecutive digit groups in `s[p..e]`, each preceded by an optional whitespace character: `\s?\d{n}` per group. */
  ghost predicate GroupsAt(s: string, p: nat, e: nat, groups: seq<nat>)
    requires p <= e <= |s|
    decreases |groups|
  {
    if groups == [] then p == e
    else
      var n := groups[0];
      || (p + n <= e && AllIn(s, p, p + n, IsDigit) && GroupsAt(s, p + n, e, groups[1..]))
      || (p + 1 + n <= e && IsSpace(s[p]) && AllIn(s, p + 1, p + 1 + n, IsDigit) && GroupsAt(s, p + 1 + n, e, groups[1..]))
  }

  const IdGroups: seq<nat> := [2, 4, 2]

  /** The registration-number group `IT\s?\d{2}\s?\d{4}\s?\d{2}` occupies `s[a..b]`. */
  ghost predicate RawIdAt(s: string, a: nat, b: nat)
    requires a <= b <= |s|
  {
    a + 2 <= b && s[a] == 'I' && s[a + 1] == 'T' && GroupsAt(s, a + 2, b, IdGroups)
  }

  /** The token `w` is a registration number as the pattern matches it. */
  ghost predicate IsRawId(w: string) {
    RawIdAt(w, 0, |w|)
  }

  /** Digit groups keep their shape when the text around them is cut away. */
  lemma {:induction false} GroupsAtSlice(s: string, a: nat, p: nat, e: nat, b: nat, groups: seq<nat>)
    requires a <= p <= e <= b <= |s| && GroupsAt(s, p, e, groups)
    ensures GroupsAt(s[a..b], p - a, e - a, groups)
    decreases |groups|
  {
    var w := s[a..b];
    assert forall k :: p <= k < e ==> w[k - a] == s[k];
    if groups != [] {
      var n := groups[0];
      if p + n <= e && AllIn(s, p, p + n, IsDigit) && GroupsAt(s, p + n, e, groups[1..]) {
        GroupsAtSlice(s, a, p + n, e, b, groups[1..]);
      } else {
        GroupsAtSlice(s, a, p + 1 + n, e, b, groups[1..]);
      }
    }
  }

  lemma RawIdSlice(s: string, a: nat, b: nat)
    requires a <= b <= |s| && RawIdAt(s, a, b)
    ensures IsRawId(s[a..b])
  {
    GroupsAtSlice(s, a, a + 2, b, b, IdGroups);
  }

  /** `k` integer digits, a point and one or two fraction digits. */
  predicate FractionShape(w: string, k: nat) {
    k < |w| && w[k] == '.' && AllDigits(w[..k]) && 2 <= |w| - k <= 3 && AllDigits(w[k + 1..])
  }

  /** The CA-mark group `\d{1,3}(?:\.\d{1,2})?`. */
  predicate IsCaToken(w: string) {
    || (1 <= |w| <= 3 && AllDigits(w))
    || FractionShape(w, 1) || FractionShape(w, 2) || FractionShape(w, 3)
  }

  /** `\d+\s+` and the registration-number group: the ordinal ends at `ordEnd`, the group is `[idStart, idEnd)`. */
  datatype Head = Head(ordEnd: nat, idStart: nat, idEnd: nat)

  /** `\s+` and the CA-mark group `[caStart, caEnd)`. */
  datatype Mark = Mark(caStart: nat, caEnd: nat)

  /** `\s+`, the grade group `[gradeStart, gradeEnd)`, `\s+` and the status token ending at `end`. */
  datatype Tail = Tail(gradeStart: nat, gradeEnd: nat, statusStart: nat, status: Status, end: nat)

  /** Positions of one match of the whole pattern. */
  datatype RecordSpan = RecordSpan(start: nat, head: Head, mark: Mark, tail: Tail)

  ghost predicate HeadShape(s: string, start: nat, h: Head) {
    && start < h.ordEnd < h.idStart <= h.idEnd <= |s|
    && AllIn(s, start, h.ordEnd, IsDigit)
    && AllIn(s, h.ordEnd, h.idStart, IsSpace)
    && RawIdAt(s, h.idStart, h.idEnd)
  }

  ghost predicate MarkShape(s: string, from: nat, m: Mark) {
    && from < m.caStart < m.caEnd <= |s|
    && AllIn(s, from, m.caStart, IsSpace)
    && IsCaToken(s[m.caStart..m.caEnd])
  }

  ghost predicate TailShape(s: string, from: nat, u: Tail) {
    && from < u.gradeStart < u.gradeEnd < u.statusStart
    && u.end == u.statusStart + |StatusText(u.status)| <= |s|
    && AllIn(s, from, u.gradeStart, IsSpace)
    && AllIn(s, u.gradeStart, u.gradeEnd, IsGradeChar)
    && AllIn(s, u.gradeEnd, u.statusStart, IsSpace)
    && s[u.statusStart..u.end] == StatusText(u.status)
  }

  /** The pattern matches `s[t.start..t.tail.end]` with its pieces at the positions `t` records. */
  ghost predicate RecordShape(s: string, t: RecordSpan) {
    && HeadShape(s, t.start, t.head)
    && MarkShape(s, t.head.idEnd, t.mark)
    && TailShape(s, t.mark.caEnd, t.tail)
  }

  /** Where the digit groups starting at `p` end, taking each optional whitespace when it is there. */
  function DigitGroupsEnd(s: string, p: nat, groups: seq<nat>): (r: Option<nat>)
    requires p <= |s|
    ensures r.Some? ==> p <= r.value <= |s|
    decreases |groups|
  {
    if groups == [] then Some(p)
    else
      var q := if p < |s| && IsSpace(s[p]) then p + 1 else p;
      var n := groups[0];
      if q + n <= |s| && AllIn(s, q, q + n, IsDigit) then DigitGroupsEnd(s, q + n, groups[1..])
      else None
  }

  /** The end `DigitGroupsEnd` returns closes digit groups, each preceded by an optional whitespace. */
  lemma {:induction false} DigitGroupsEndSound(s: string, p: nat, groups: seq<nat>)
    requires p <= |s|
    ensures DigitGroupsEnd(s, p, groups).Some? ==> GroupsAt(s, p, DigitGroupsEnd(s, p, groups).value, groups)
    decreases |groups|
  {
    if groups != [] {
      var q := if p < |s| && IsSpace(s[p]) then p + 1 else p;
      var n := groups[0];
      if q + n <= |s| && AllIn(s, q, q + n, IsDigit) {
        DigitGroupsEndSound(s, q + n, groups[1..]);
      }
    }
  }

  /** Every group has at least one digit. */
  predicate Positive(groups: seq<nat>) {
    groups == [] || (groups[0] > 0 && Positive(groups[1..]))
  }

  lemma {:induction false} DigitGroupsEndComplete(s: string, p: nat, e: nat, groups: seq<nat>)
    requires p <= e <= |s| && GroupsAt(s, p, e, groups)
    requires Positive(groups)
    ensures DigitGroupsEnd(s, p, groups) == Some(e)
    decreases |groups|
  {
    if groups != [] {
      var n := groups[0];
      if p + n <= e && AllIn(s, p, p + n, IsDigit) && GroupsAt(s, p + n, e, groups[1..]) {
        DigitGroupsEndDigit(s, p, groups);
        DigitGroupsEndComplete(s, p + n, e, groups[1..]);
      } else {
        DigitGroupsEndSpace(s, p, groups);
        DigitGroupsEndComplete(s, p + 1 + n, e, groups[1..]);
      }
    }
  }

  /** A group that starts with a digit is read without a whitespace before it. */
  lemma DigitGroupsEndDigit(s: string, p: nat, groups: seq<nat>)
    requires groups != [] && groups[0] > 0 && p + groups[0] <= |s| && AllIn(s, p, p + groups[0], IsDigit)
    ensures DigitGroupsEnd(s, p, groups) == DigitGroupsEnd(s, p + groups[0], groups[1..])
  {
    NotSpace(s[p]);
  }

  /** A group after a whitespace character is read from the next position. */
  lemma DigitGroupsEndSpace(s: string, p: nat, groups: seq<nat>)
    requires groups != [] && p + 1 + groups[0] <= |s| && IsSpace(s[p]) && AllIn(s, p + 1, p + 1 + groups[0], IsDigit)
    ensures DigitGroupsEnd(s, p, groups) == DigitGroupsEnd(s, p + 1 + groups[0], groups[1..])
  {
  }

  /** The end of the registration-number group starting at `b`. */
  function IdEnd(s: string, b: nat): (r: Option<nat>)
    requires b <= |s|
    ensures r.Some? ==> b + 2 <= r.value <= |s| && RawIdAt(s, b, r.value)
  {
    if b + 2 <= |s| && s[b] == 'I' && s[b + 1] == 'T' then
      DigitGroupsEndSound(s, b + 2, IdGroups);
      DigitGroupsEnd(s, b + 2, IdGroups)
    else None
  }

  /** The ordinal, the whitespace after it and the registration number, from `i`. */
  function MatchHead(s: string, i: nat): (r: Option<Head>)
    requires i <= |s|
    ensures r.Some? ==> HeadShape(s, i, r.value)
  {
    var ordEnd := RunEnd(s, i, IsDigit);
    var idStart := RunEnd(s, ordEnd, IsSpace);
    if ordEnd == i || idStart == ordEnd then None
    else match IdEnd(s, idStart)
    case None => None
    case Some(idEnd) => Some(Head(ordEnd, idStart, idEnd))
  }

  lemma MatchHeadComplete(s: string, i: nat, h: Head)
    requires HeadShape(s, i, h)
    ensures MatchHead(s, i) == Some(h)
  {
    SpaceIsNot(s[h.ordEnd]);
    RunEndIs(s, i, h.ordEnd, IsDigit);
    NotSpace(s[h.idStart]);
    RunEndIs(s, h.ordEnd, h.idStart, IsSpace);
    IdEndComplete(s, h.idStart, h.idEnd);
  }

  lemma IdEndComplete(s: string, b: nat, e: nat)
    requires b <= e <= |s| && RawIdAt(s, b, e)
    ensures IdEnd(s, b) == Some(e)
  {
    assert IdGroups[1..][1..][1..] == [];
    DigitGroupsEndComplete(s, b + 2, e, IdGroups);
  }

  /**
    The end of the CA-mark group starting at `d`: a digit run of one to three
    digits, then, when a point follows, a run of one or two fraction digits.
    Any other shape cannot be followed by the `\s+` that comes next.
   */
  function CaEnd(s: string, d: nat): (r: Option<nat>)
    requires d <= |s|
    ensures r.Some? ==> d < r.value <= |s| && IsCaToken(s[d..r.value])
  {
    var e := RunEnd(s, d, IsDigit);
    if e == d || e - d > 3 then None
    else if e < |s| && s[e] == '.' then
      var g := RunEnd(s, e + 1, IsDigit);
      if 1 <= g - (e + 1) <= 2 then
        CaFraction(s, d, e, g);
        Some(g)
      else None
    else
      AllInSlice(s, d, e, IsDigit);
      Some(e)
  }

  lemma CaFraction(s: string, d: nat, e: nat, g: nat)
    requires d < e < g <= |s| && e - d <= 3 && 2 <= g - e <= 3 && s[e] == '.'
    requires AllIn(s, d, e, IsDigit) && AllIn(s, e + 1, g, IsDigit)
    ensures IsCaToken(s[d..g])
  {
    var w := s[d..g];
    assert w[..e - d] == s[d..e] && w[e - d + 1..] == s[e + 1..g] && w[e - d] == s[e];
    AllInSlice(s, d, e, IsDigit);
    AllInSlice(s, e + 1, g, IsDigit);
    assert FractionShape(w, e - d);
  }

  lemma CaEndComplete(s: string, d: nat, e: nat)
    requires d < e < |s| && IsCaToken(s[d..e]) && IsSpace(s[e])
    ensures CaEnd(s, d) == Some(e)
  {
    var w := s[d..e];
    if 1 <= |w| <= 3 && AllDigits(w) {
      AllInSlice(s, d, e, IsDigit);
      RunEndIs(s, d, e, IsDigit);
    } else {
      var k := if FractionShape(w, 1) then 1 else if FractionShape(w, 2) then 2 else 3;
      CaEndFraction(s, d, e, k);
    }
  }

  /** A CA token with `k` integer digits and a fraction, followed by whitespace, is the one CaEnd finds. */
  lemma CaEndFraction(s: string, d: nat, e: nat, k: nat)
    requires d < e < |s| && 1 <= k <= 3 && FractionShape(s[d..e], k) && IsSpace(s[e])
    ensures CaEnd(s, d) == Some(e)
  {
    var w := s[d..e];
    assert w[..k] == s[d..d + k] && w[k] == s[d + k] && w[k + 1..] == s[d + k + 1..e];
    AllInSlice(s, d, d + k, IsDigit);
    RunEndIs(s, d, d + k, IsDigit);
    AllInSlice(s, d + k + 1, e, IsDigit);
    RunEndIs(s, d + k + 1, e, IsDigit);
  }

  /** The whitespace and the CA mark after the registration number, from `from`. */
  function MatchMark(s: string, from: nat): (r: Option<Mark>)
    requires from <= |s|
    ensures r.Some? ==> MarkShape(s, from, r.value)
  {
    var caStart := RunEnd(s, from, IsSpace);
    if caStart == from then None
    else match CaEnd(s, caStart)
    case None => None
    case Some(caEnd) => Some(Mark(caStart, caEnd))
  }

  lemma CaTokenStartsWithDigit(w: string)
    requires IsCaToken(w)
    ensures |w| > 0 && IsDigit(w[0])
  {
    if !(1 <= |w| <= 3 && AllDigits(w)) {
      var k := if FractionShape(w, 1) then 1 else if FractionShape(w, 2) then 2 else 3;
      assert w[..k][0] == w[0];
    }
  }

  /** Completeness of MatchMark when a whitespace character follows the mark, as `\s+` then demands. */
  lemma MatchMarkComplete(s: string, from: nat, m: Mark)
    requires MarkShape(s, from, m) && m.caEnd < |s| && IsSpace(s[m.caEnd])
    ensures MatchMark(s, from) == Some(m)
  {
    CaTokenStartsWithDigit(s[m.caStart..m.caEnd]);
    assert s[m.caStart] == s[m.caStart..m.caEnd][0];
    RunEndIs(s, from, m.caStart, IsSpace);
    CaEndComplete(s, m.caStart, m.caEnd);
  }

  /** The status alternation `(Pass|Fail|IC)` at `k`. */
  function StatusAt(s: string, k: nat): (r: Option<Status>)
    requires k <= |s|
    ensures r.Some? ==> k + |StatusText(r.value)| <= |s| && s[k..k + |StatusText(r.value)|] == StatusText(r.value)
  {
    if k + 4 <= |s| && s[k..k + 4] == "Pass" then Some(Pass)
    else if k + 4 <= |s| && s[k..k + 4] == "Fail" then Some(Fail)
    else if k + 2 <= |s| && s[k..k + 2] == "IC" then Some(IC)
    else None
  }

  /** The whitespace, grade, whitespace and status after the CA mark, from `from`. */
  function MatchTail(s: string, from: nat): (r: Option<Tail>)
    requires from <= |s|
    ensures r.Some? ==> TailShape(s, from, r.value)
  {
    var gradeStart := RunEnd(s, from, IsSpace);
    var gradeEnd := RunEnd(s, gradeStart, IsGradeChar);
    var statusStart := RunEnd(s, gradeEnd, IsSpace);
    if gradeStart == from || gradeEnd == gradeStart || statusStart == gradeEnd then None
    else match StatusAt(s, statusStart)
    case None => None
    case Some(st) => Some(Tail(gradeStart, gradeEnd, statusStart, st, statusStart + |StatusText(st)|))
  }

  /** Where a status word is written, `StatusAt` reads that status; its first letter is not whitespace. */
  lemma StatusAtComplete(s: string, k: nat, st: Status)
    requires k + |StatusText(st)| <= |s| && s[k..k + |StatusText(st)|] == StatusText(st)
    ensures StatusAt(s, k) == Some(st) && !IsSpace(s[k])
  {
    assert s[k] == s[k..k + |StatusText(st)|][0];
  }

  lemma MatchTailComplete(s: string, from: nat, u: Tail)
    requires TailShape(s, from, u)
    ensures MatchTail(s, from) == Some(u)
  {
    NotSpace(s[u.gradeStart]);
    RunEndIs(s, from, u.gradeStart, IsSpace);
    SpaceIsNot(s[u.gradeEnd]);
    RunEndIs(s, u.gradeStart, u.gradeEnd, IsGradeChar);
    StatusAtComplete(s, u.statusStart, u.status);
    RunEndIs(s, u.gradeEnd, u.statusStart, IsSpace);
  }

  /** The match attempt of the record pattern at position `i`. */
  function MatchRecordAt(s: string, i: nat): (r: Option<RecordSpan>)
    requires i <= |s|
    ensures r.Some? ==> r.value.start == i && RecordShape(s, r.value)
  {
    match MatchHead(s, i)
    case None => None
    case Some(h) =>
      match MatchMark(s, h.idEnd)
      case None => None
      case Some(m) =>
        match MatchTail(s, m.caEnd)
        case None => None
        case Some(u) => Some(RecordSpan(i, h, m, u))
  }

  /** Every way the pattern can match at a position is the one the match attempt finds there. */
  lemma MatchRecordAtComplete(s: string, t: RecordSpan)
    requires RecordShape(s, t)
    ensures MatchRecordAt(s, t.start) == Some(t)
  {
    MatchHeadComplete(s, t.start, t.head);
    assert IsSpace(s[t.mark.caEnd]);
    MatchMarkComplete(s, t.head.idEnd, t.mark);
    MatchTailComplete(s, t.mark.caEnd, t.tail);
  }

  /** Position `p` lies inside one of the matches `r`. */
  ghost predicate Covered(r: seq<RecordSpan>, p: nat) {
    exists k :: 0 <= k < |r| && r[k].start <= p < r[k].tail.end
  }

  /** Matches in text order, each ending before the next starts. */
  predicate Ordered(r: seq<RecordSpan>) {
    forall k :: 0 <= k < |r| - 1 ==> r[k].tail.end <= r[k + 1].start
  }

  /** A match attempt at position `i` of a text of length `n` yields a non-empty match starting at `i`. */
  ghost predicate Advances(n: nat, attempt: nat -> Option<RecordSpan>) {
    forall i: nat :: i <= n && attempt(i).Some? ==> attempt(i).value.start == i < attempt(i).value.tail.end <= n
  }

  /**
    The scanning loop of `re.findall` over a text of length `n`, given the
    match attempt at each position: try the pattern at `pos`; after a match,
    resume where it ended, otherwise one position further on.
   */
  function Scan(n: nat, pos: nat, attempt: nat -> Option<RecordSpan>): seq<RecordSpan>
    requires pos <= n && Advances(n, attempt)
    decreases n - pos
  {
    match attempt(pos)
    case Some(t) => [t] + Scan(n, t.tail.end, attempt)
    case None => if pos == n then [] else Scan(n, pos + 1, attempt)
  }

  /** Each element of the scan is the match found at its own start, at or after `pos`. */
  lemma {:induction false} ScanSound(n: nat, pos: nat, attempt: nat -> Option<RecordSpan>)
    requires pos <= n && Advances(n, attempt)
    ensures forall k :: 0 <= k < |Scan(n, pos, attempt)| ==>
      var t := Scan(n, pos, attempt)[k]; pos <= t.start <= n && attempt(t.start) == Some(t)
    decreases n - pos
  {
    var m := attempt(pos);
    if m.Some? {
      ScanSound(n, m.value.tail.end, attempt);
      assert Scan(n, pos, attempt) == [m.value] + Scan(n, m.value.tail.end, attempt);
    } else if pos < n {
      ScanSound(n, pos + 1, attempt);
    }
  }

  /** The matches of a scan come in text order and do not overlap. */
  lemma {:induction false} ScanOrdered(n: nat, pos: nat, attempt: nat -> Option<RecordSpan>)
    requires pos <= n && Advances(n, attempt)
    ensures Ordered(Scan(n, pos, attempt))
    decreases n - pos
  {
    var m := attempt(pos);
    if m.Some? {
      var t := m.value;
      var rest := Scan(n, t.tail.end, attempt);
      ScanOrdered(n, t.tail.end, attempt);
      ScanSound(n, t.tail.end, attempt);
      assert Scan(n, pos, attempt) == [t] + rest;
    } else if pos < n {
      ScanOrdered(n, pos + 1, attempt);
    }
  }

  /** A scan misses nothing: a position from `pos` on outside every match has no match. */
  lemma {:induction false} ScanMissesNone(n: nat, pos: nat, attempt: nat -> Option<RecordSpan>, p: nat)
    requires pos <= p <= n && Advances(n, attempt)
    requires !Covered(Scan(n, pos, attempt), p)
    ensures attempt(p).None?
    decreases n - pos
  {
    var r := Scan(n, pos, attempt);
    var m := attempt(pos);
    if m.Some? {
      var t := m.value;
      var rest := Scan(n, t.tail.end, attempt);
      assert r == [t] + rest;
      assert r[0] == t;
      assert !(r[0].start <= p < r[0].tail.end);
      forall k | 0 <= k < |rest| ensures !(rest[k].start <= p < rest[k].tail.end) {
        assert r[k + 1] == rest[k];
      }
      ScanMissesNone(n, t.tail.end, attempt, p);
    } else if p > pos {
      ScanMissesNone(n, pos + 1, attempt, p);
    }
  }

  /** The match attempts of the record pattern on `s`. */
  function Attempt(s: string): (attempt: nat -> Option<RecordSpan>)
    ensures Advances(|s|, attempt)
  {
    (i: nat) => if i <= |s| then MatchRecordAt(s, i) else None
  }

  /** `re.findall` of the record pattern over `s`: the matches in text order. */
  function FindAll(s: string): seq<RecordSpan> {
    Scan(|s|, 0, Attempt(s))
  }

  /**
    What `re.findall` returns: every element is the match at its own start, the
    matches come in text order without overlapping, and no position outside
    them starts a match.
   */
  lemma FindAllSpec(s: string)
    ensures forall k :: 0 <= k < |FindAll(s)| ==> RecordShape(s, FindAll(s)[k])
    ensures forall k :: 0 <= k < |FindAll(s)| ==>
      FindAll(s)[k].start <= |s| && MatchRecordAt(s, FindAll(s)[k].start) == Some(FindAll(s)[k])
    ensures Ordered(FindAll(s))
    ensures forall p :: 0 <= p <= |s| && !Covered(FindAll(s), p) ==> MatchRecordAt(s, p).None?
  {
    var attempt := Attempt(s);
    ScanSound(|s|, 0, attempt);
    ScanOrdered(|s|, 0, attempt);
    forall p | 0 <= p <= |s| && !Covered(FindAll(s), p) ensures MatchRecordAt(s, p).None? {
      ScanMissesNone(|s|, 0, attempt, p);
    }
  }

  /** The four groups of a match, as `re.findall` returns them. */
  datatype RawMatch = RawMatch(regNo: string, caPercent: string, grade: string, status: Status)

  function Groups(s: string, t: RecordSpan): (m: RawMatch)
    requires RecordShape(s, t)
    ensures IsRawId(m.regNo) && IsCaToken(m.caPercent)
  {
    RawIdSlice(s, t.head.idStart, t.head.idEnd);
    RawMatch(s[t.head.idStart..t.head.idEnd], s[t.mark.caStart..t.mark.caEnd],
             s[t.tail.gradeStart..t.tail.gradeEnd], t.tail.status)
  }

  /** `re.findall(pattern, text)`: the group tuples of all matches, in text order. */
  function FindAllGroups(text: string): (ms: seq<RawMatch>)
    ensures |ms| == |FindAll(text)|
    ensures forall k :: 0 <= k < |ms| ==> IsRawId(ms[k].regNo) && IsCaToken(ms[k].caPercent)
  {
    var spans := FindAll(text);
    FindAllSpec(text);
    seq(|spans|, k requires 0 <= k < |spans| => Groups(text, spans[k]))
  }

  /** There is no match at all exactly when the pattern matches nowhere in the text. */
  lemma FindAllEmptyIff(text: string)
    ensures FindAll(text) == [] <==> forall t :: !RecordShape(text, t)
  {
    var r := FindAll(text);
    FindAllSpec(text);
    if r == [] {
      forall t | RecordShape(text, t) ensures false {
        assert !Covered(r, t.start);
        MatchRecordAtComplete(text, t);
      }
    } else {
      assert RecordShape(text, r[0]);
    }
  }
}
