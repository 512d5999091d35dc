/**
 * `parseNaturalLanguage`: the speech transcript is searched with three
 * regular expressions of the same shape,
 *
 *     LABEL[：:\s]+([^FORBIDDEN]+?)(?=\s*STOP1|\s*STOP2|$)
 *
 * and the trimmed captures are laid out as the three-line task template.
 * A `Rule` holds the three parameters of one expression. `Matches` is what
 * the expression accepts, `MatchAtStart` and `Find` compute the match that
 * the backtracking matcher reports, and the lemmas connect the two.
 */
module Transcript {
  import opened Wrappers
  import opened Strings

  /** The separator class `[：:\s]` that follows a label. */
  predicate IsSep(c: char) {
    c == '：' || c == ':' || IsSpace(c)
  }

  /** One expression: the label, the characters the capture may not contain, and the words the lookahead stops at. */
  datatype Rule = Rule(name: string, forbidden: set<char>, stops: seq<string>)

  const TitleRule := Rule("タイトル", {'担', '当', '期', '間'}, ["担当", "期間"])
  const AssigneeRule := Rule("担当", {'タ', 'イ', 'ト', 'ル', '期', '間'}, ["タイトル", "期間"])
  const PeriodRule := Rule("期間", {'タ', 'イ', 'ト', 'ル', '担', '当'}, ["タイトル", "担当"])

  /**
   * What the three expressions have in common and the proofs rely on: no
   * forbidden character is a separator, and every stop word is non-empty
   * and starts with a forbidden character.
   */
  predicate WellFormed(r: Rule) {
    && |r.name| > 0
    && (forall c :: c in r.forbidden ==> !IsSep(c))
    && (forall i :: 0 <= i < |r.stops| ==> |r.stops[i]| > 0 && r.stops[i][0] in r.forbidden)
  }

  lemma RulesWellFormed()
    ensures WellFormed(TitleRule) && WellFormed(AssigneeRule) && WellFormed(PeriodRule)
  {
    RuleWellFormed(TitleRule);
    RuleWellFormed(AssigneeRule);
    RuleWellFormed(PeriodRule);
  }

  lemma RuleWellFormed(r: Rule)
    requires r in {TitleRule, AssigneeRule, PeriodRule}
    ensures WellFormed(r)
  {
    assert |r.name| > 0;
    assert forall c :: c in r.forbidden ==> !IsSep(c);
    assert forall i :: 0 <= i < |r.stops| ==> |r.stops[i]| > 0 && r.stops[i][0] in r.forbidden;
  }

  /** A stop word of `r` occurs in `s` at `k`. */
  predicate StopAt(r: Rule, s: string, k: int) {
    exists i :: 0 <= i < |r.stops| && OccursAt(s, r.stops[i], k)
  }

  // ----- What the expression accepts -----

  /** The lookahead `(?=\s*STOP1|\s*STOP2|$)` succeeds at `c`: the end of the input (there is no multiline flag), or whitespace and then a stop word. */
  ghost predicate LookaheadHolds(r: Rule, s: string, c: int) {
    && 0 <= c <= |s|
    && (c == |s| || exists k :: c <= k <= |s| && (forall m :: c <= m < k ==> IsSpace(s[m])) && StopAt(r, s, k))
  }

  /** The expression matches with the label at `a`, the separators up to `e` and the capture `s[e..c]`. */
  ghost predicate Matches(r: Rule, s: string, a: int, e: int, c: int) {
    && OccursAt(s, r.name, a)
    && a + |r.name| < e < c <= |s|
    && (forall m :: a + |r.name| <= m < e ==> IsSep(s[m]))
    && (forall m :: e <= m < c ==> s[m] !in r.forbidden)
    && LookaheadHolds(r, s, c)
  }

  /**
   * The match that `String.prototype.match` reports: the leftmost start;
   * there, the longest separator run (`+` is greedy) that leaves a capture;
   * then the shortest capture (`+?` is lazy).
   */
  ghost predicate Preferred(r: Rule, s: string, a: int, e: int, c: int) {
    && Matches(r, s, a, e, c)
    && forall a', e', c' :: Matches(r, s, a', e', c') ==> a < a' || (a == a' && (e' < e || (e' == e && c <= c')))
  }

  // ----- The match, computed -----

  /** The end of the run of separators that starts at `from`. */
  function SepRunFrom(s: string, from: nat): (n: nat)
    requires from <= |s|
    decreases |s| - from
    ensures from <= n <= |s|
    ensures n == |s| || !IsSep(s[n])
  {
    if from < |s| && IsSep(s[from]) then SepRunFrom(s, from + 1) else from
  }

  /** Everything the separator run covers is a separator. */
  lemma {:induction false} SepRunIsSep(s: string, from: nat)
    requires from <= |s|
    decreases |s| - from
    ensures forall k :: from <= k < SepRunFrom(s, from) ==> IsSep(s[k])
  {
    if from < |s| && IsSep(s[from]) {
      SepRunIsSep(s, from + 1);
    }
  }

  /** The first index at or after `from` that holds a forbidden character, or the end. */
  function FirstForbidden(r: Rule, s: string, from: nat): (n: nat)
    requires from <= |s|
    decreases |s| - from
    ensures from <= n <= |s|
    ensures n == |s| || s[n] in r.forbidden
  {
    if from < |s| && s[from] !in r.forbidden then FirstForbidden(r, s, from + 1) else from
  }

  /** No forbidden character comes before the first one. */
  lemma {:induction false} AllowedBeforeForbidden(r: Rule, s: string, from: nat)
    requires from <= |s|
    decreases |s| - from
    ensures forall k :: from <= k < FirstForbidden(r, s, from) ==> s[k] !in r.forbidden
  {
    if from < |s| && s[from] !in r.forbidden {
      AllowedBeforeForbidden(r, s, from + 1);
    }
  }

  /** The lookahead, decided: whitespace is skipped greedily, then a stop word must follow. */
  function Lookahead(r: Rule, s: string, c: nat): bool
    requires c <= |s|
  {
    c == |s| || StopAt(r, s, SpaceRunFrom(s, c))
  }

  /** The least `c` in `[lo, hi]` where the lookahead succeeds. */
  function FirstLookahead(r: Rule, s: string, lo: nat, hi: nat): (c: Option<nat>)
    requires hi <= |s|
    decreases hi - lo
    ensures c.Some? ==> lo <= c.value <= hi && Lookahead(r, s, c.value)
  {
    if lo > hi then None
    else if Lookahead(r, s, lo) then Some(lo)
    else FirstLookahead(r, s, lo + 1, hi)
  }

  /** `FirstLookahead` finds the least such position, and finds none only when there is none. */
  lemma {:induction false} FirstLookaheadLeast(r: Rule, s: string, lo: nat, hi: nat)
    requires hi <= |s|
    decreases hi - lo
    ensures FirstLookahead(r, s, lo, hi).Some? ==> forall x :: lo <= x < FirstLookahead(r, s, lo, hi).value ==> !Lookahead(r, s, x)
    ensures FirstLookahead(r, s, lo, hi).None? ==> forall x :: lo <= x <= hi ==> !Lookahead(r, s, x)
  {
    if lo <= hi && !Lookahead(r, s, lo) {
      FirstLookaheadLeast(r, s, lo + 1, hi);
    }
  }

  /**
   * The separator end and capture end of a match whose separators start at
   * `p`. With `b` the end of the separator run and `f` the first forbidden
   * character after it, the capture starts at `b` when the lookahead
   * succeeds somewhere in `(b, f]`. Otherwise the matcher gives one
   * separator back to the capture, which then ends at `b`; giving back more
   * cannot help, since the lookahead can only succeed before `b` when it
   * succeeds at `b`.
   */
  function Capture(r: Rule, s: string, p: nat): (m: Option<(nat, nat)>)
    requires p <= |s|
    ensures m.Some? ==> p < m.value.0 < m.value.1 <= |s|
  {
    var b := SepRunFrom(s, p);
    if b == p then None
    else
      match FirstLookahead(r, s, b + 1, FirstForbidden(r, s, b))
      case Some(c) => Some((b, c))
      case None => if b - p >= 2 && Lookahead(r, s, b) then Some((b - 1, b)) else None
  }

  /** The separator end and capture end of the match with the label at `a`. */
  function MatchAtStart(r: Rule, s: string, a: nat): (m: Option<(nat, nat)>)
    ensures m.Some? ==> a + |r.name| < m.value.0 < m.value.1 <= |s|
  {
    if OccursAt(s, r.name, a) then Capture(r, s, a + |r.name|) else None
  }

  /** The leftmost match at or after `from`: its start, separator end and capture end. */
  function FindFrom(r: Rule, s: string, from: nat): (m: Option<(nat, nat, nat)>)
    decreases |s| + 1 - from
    ensures m.Some? ==> from <= m.value.0 && m.value.1 < m.value.2 <= |s|
  {
    if from > |s| then None
    else match MatchAtStart(r, s, from)
      case Some(m) => Some((from, m.0, m.1))
      case None => FindFrom(r, s, from + 1)
  }

  /** `text.match(expression)`. */
  function Find(r: Rule, s: string): Option<(nat, nat, nat)> {
    FindFrom(r, s, 0)
  }

  // ----- The reformatter -----

  /** The trimmed capture, or the empty string when the expression does not match. */
  function Part(r: Rule, s: string): string {
    match Find(r, s)
    case None => ""
    case Some(m) => Trim(s[m.1..m.2])
  }

  /** The three-line task template. */
  function Template(title: string, assignee: string, period: string): string {
    "タイトル：" + title + "\n担当：" + assignee + "\n期間：" + period
  }

  /** `parseNaturalLanguage`. */
  function ParseNaturalLanguage(text: string): string {
    Template(Part(TitleRule, text), Part(AssigneeRule, text), Part(PeriodRule, text))
  }

  // ----- The lookahead -----

  /** A stop word at `k` starts with a forbidden character, which is not whitespace. */
  lemma StopStartsWithForbidden(r: Rule, s: string, k: int)
    requires WellFormed(r) && StopAt(r, s, k)
    ensures 0 <= k < |s| && s[k] in r.forbidden && !IsSep(s[k])
  {
    var i :| 0 <= i < |r.stops| && OccursAt(s, r.stops[i], k);
    var w := r.stops[i];
    assert s[k..k + |w|][0] == s[k];
  }

  /** The decided lookahead is the lookahead of the expression. */
  lemma LookaheadCorrect(r: Rule, s: string, c: nat)
    requires WellFormed(r) && c <= |s|
    ensures Lookahead(r, s, c) <==> LookaheadHolds(r, s, c)
  {
    SpaceRunFromIsSpace(s, c);
    if c < |s| && LookaheadHolds(r, s, c) {
      var k :| c <= k <= |s| && (forall m :: c <= m < k ==> IsSpace(s[m])) && StopAt(r, s, k);
      StopStartsWithForbidden(r, s, k);
      assert SpaceRunFrom(s, c) == k;
    }
  }

  /**
   * Inside a run of separators that ends at `b`, the lookahead can only
   * succeed at `x` by skipping whitespace up to a stop word at `b`, so it
   * succeeds at `b` too.
   */
  lemma LookaheadInsideSepRun(r: Rule, s: string, x: nat, b: nat)
    requires WellFormed(r) && x < b <= |s|
    requires forall m :: x <= m < b ==> IsSep(s[m])
    requires b == |s| || !IsSep(s[b])
    requires Lookahead(r, s, x)
    ensures Lookahead(r, s, b)
  {
    var k := SpaceRunFrom(s, x);
    StopStartsWithForbidden(r, s, k);
    SpaceRunFromIsSpace(s, x);
    assert k == b;
    assert SpaceRunFrom(s, b) == b;
  }

  // ----- The computed match is the preferred one -----

  /** Separators on `[p, e)`, a capture `s[e..c]` without forbidden characters, and the decided lookahead at `c`. */
  predicate SepsThenCapture(r: Rule, s: string, p: nat, e: nat, c: nat) {
    && p < e < c <= |s|
    && (forall m :: p <= m < e ==> IsSep(s[m]))
    && (forall m :: e <= m < c ==> s[m] !in r.forbidden)
    && Lookahead(r, s, c)
  }

  /** `Matches` with the decided lookahead. */
  predicate MatchesDecided(r: Rule, s: string, a: nat, e: nat, c: nat) {
    OccursAt(s, r.name, a) && SepsThenCapture(r, s, a + |r.name|, e, c)
  }

  lemma MatchesDecidedCorrect(r: Rule, s: string, a: int, e: int, c: int)
    requires WellFormed(r)
    ensures Matches(r, s, a, e, c) <==> 0 <= a && 0 <= e && 0 <= c && MatchesDecided(r, s, a, e, c)
  {
    if 0 <= c <= |s| {
      LookaheadCorrect(r, s, c);
    }
  }

  /** What `Capture` reports when it gives one separator back is separators and a capture. */
  lemma CaptureGivenBackSound(r: Rule, s: string, p: nat)
    requires WellFormed(r) && p <= |s|
    requires var b := SepRunFrom(s, p); FirstLookahead(r, s, b + 1, FirstForbidden(r, s, b)).None?
    requires Capture(r, s, p).Some?
    ensures SepsThenCapture(r, s, p, Capture(r, s, p).value.0, Capture(r, s, p).value.1)
  {
    var b := SepRunFrom(s, p);
    SepRunIsSep(s, p);
    assert Capture(r, s, p).value == (b - 1, b);
    assert IsSep(s[b - 1]);
  }

  /** What `Capture` reports when the lookahead succeeds after the separator run is separators and a capture. */
  lemma CaptureAfterRunSound(r: Rule, s: string, p: nat)
    requires p <= |s|
    requires var b := SepRunFrom(s, p); FirstLookahead(r, s, b + 1, FirstForbidden(r, s, b)).Some?
    requires Capture(r, s, p).Some?
    ensures SepsThenCapture(r, s, p, Capture(r, s, p).value.0, Capture(r, s, p).value.1)
  {
    var b := SepRunFrom(s, p);
    SepRunIsSep(s, p);
    AllowedBeforeForbidden(r, s, b);
  }

  /** What `Capture` reports is separators and a capture. */
  lemma CaptureSound(r: Rule, s: string, p: nat)
    requires WellFormed(r) && p <= |s| && Capture(r, s, p).Some?
    ensures SepsThenCapture(r, s, p, Capture(r, s, p).value.0, Capture(r, s, p).value.1)
  {
    var b := SepRunFrom(s, p);
    if FirstLookahead(r, s, b + 1, FirstForbidden(r, s, b)).Some? {
      CaptureAfterRunSound(r, s, p);
    } else {
      CaptureGivenBackSound(r, s, p);
    }
  }

  /** A match reported with the label at `a` is the capture after the label. */
  lemma MatchAtStartIsCapture(r: Rule, s: string, a: nat)
    requires MatchAtStart(r, s, a).Some?
    ensures OccursAt(s, r.name, a) && a + |r.name| <= |s|
    ensures MatchAtStart(r, s, a) == Capture(r, s, a + |r.name|)
  {
  }

  /** What `MatchAtStart` reports is a match. */
  lemma MatchAtStartSound(r: Rule, s: string, a: nat)
    requires WellFormed(r) && MatchAtStart(r, s, a).Some?
    ensures MatchesDecided(r, s, a, MatchAtStart(r, s, a).value.0, MatchAtStart(r, s, a).value.1)
  {
    MatchAtStartIsCapture(r, s, a);
    CaptureSound(r, s, a + |r.name|);
  }

  /** The matcher's order: `m` comes before, or is, the match `(a, e, c)`. */
  predicate NoLaterThan(m: (nat, nat, nat), a: int, e: int, c: int) {
    m.0 < a || (m.0 == a && (e < m.1 || (e == m.1 && m.2 <= c)))
  }

  /** The separators of a match end no later than the separator run, which is not empty. */
  lemma SepRunCovers(s: string, p: nat, e: nat)
    requires p < e <= |s| && forall m :: p <= m < e ==> IsSep(s[m])
    ensures p < e <= SepRunFrom(s, p)
  {
    assert SepRunFrom(s, p) == SepRunFrom(s, p + 1);
  }

  /** Separators and a capture that use the whole separator run: `Capture` reports the same start and a capture no longer. */
  lemma CapturePreferredAtRunEnd(r: Rule, s: string, p: nat, c: nat)
    requires p <= |s| && SepsThenCapture(r, s, p, SepRunFrom(s, p), c)
    ensures Capture(r, s, p).Some?
    ensures Capture(r, s, p).value.0 == SepRunFrom(s, p) && Capture(r, s, p).value.1 <= c
  {
    var b := SepRunFrom(s, p);
    var f := FirstForbidden(r, s, b);
    assert c <= f;
    FirstLookaheadLeast(r, s, b + 1, f);
  }

  /** Separators that stop inside the separator run: `Capture` reports a later separator end, or the same one and a capture no longer. */
  lemma CapturePreferredInsideRun(r: Rule, s: string, p: nat, e: nat, c: nat)
    requires WellFormed(r) && p <= |s| && SepsThenCapture(r, s, p, e, c) && e < SepRunFrom(s, p)
    ensures Capture(r, s, p).Some?
    ensures var m := Capture(r, s, p).value; e < m.0 || (e == m.0 && m.1 <= c)
  {
    var b := SepRunFrom(s, p);
    var f := FirstForbidden(r, s, b);
    FirstLookaheadLeast(r, s, b + 1, f);
    if b < c {
      assert c <= f;
    } else if c < b {
      SepRunIsSep(s, p);
      LookaheadInsideSepRun(r, s, c, b);
    }
  }

  /** Every match with the label at `a` comes after, or is, what `MatchAtStart` reports. */
  lemma MatchAtStartPreferred(r: Rule, s: string, a: nat, e: nat, c: nat)
    requires WellFormed(r) && MatchesDecided(r, s, a, e, c)
    ensures MatchAtStart(r, s, a).Some?
    ensures NoLaterThan((a, MatchAtStart(r, s, a).value.0, MatchAtStart(r, s, a).value.1), a, e, c)
  {
    var p := a + |r.name|;
    SepRunCovers(s, p, e);
    if e == SepRunFrom(s, p) {
      CapturePreferredAtRunEnd(r, s, p, c);
    } else {
      CapturePreferredInsideRun(r, s, p, e, c);
    }
  }

  /** `m` is a match at or after `from` and comes before every other one there. */
  ghost predicate FirstFrom(r: Rule, s: string, from: nat, m: (nat, nat, nat)) {
    && from <= m.0
    && MatchesDecided(r, s, m.0, m.1, m.2)
    && forall a: nat, e: nat, c: nat :: from <= a && MatchesDecided(r, s, a, e, c) ==> NoLaterThan(m, a, e, c)
  }

  /** There is no match at or after `from`. */
  ghost predicate NoneFrom(r: Rule, s: string, from: nat) {
    forall a: nat, e: nat, c: nat :: from <= a ==> !MatchesDecided(r, s, a, e, c)
  }

  /** A match with the label at `from` is the first match at or after `from`. */
  lemma FirstAtStart(r: Rule, s: string, from: nat)
    requires WellFormed(r) && MatchAtStart(r, s, from).Some?
    ensures var mm := MatchAtStart(r, s, from).value; FirstFrom(r, s, from, (from, mm.0, mm.1))
  {
    MatchAtStartSound(r, s, from);
    var mm := MatchAtStart(r, s, from).value;
    forall a: nat, e: nat, c: nat | from <= a && MatchesDecided(r, s, a, e, c)
      ensures NoLaterThan((from, mm.0, mm.1), a, e, c)
    {
      if a == from {
        MatchAtStartPreferred(r, s, a, e, c);
      }
    }
  }

  /** When `MatchAtStart` reports nothing, the expression has no match with the label at `from`. */
  lemma NoneAtStart(r: Rule, s: string, from: nat)
    requires WellFormed(r) && MatchAtStart(r, s, from).None?
    ensures forall e: nat, c: nat :: !MatchesDecided(r, s, from, e, c)
  {
    forall e: nat, c: nat
      ensures !MatchesDecided(r, s, from, e, c)
    {
      if MatchesDecided(r, s, from, e, c) {
        MatchAtStartPreferred(r, s, from, e, c);
      }
    }
  }

  /** `FindFrom` reports the first match at or after `from`, and nothing exactly when there is none. */
  lemma {:induction false} FindFromCorrect(r: Rule, s: string, from: nat)
    requires WellFormed(r)
    decreases |s| + 1 - from
    ensures FindFrom(r, s, from).Some? ==> FirstFrom(r, s, from, FindFrom(r, s, from).value)
    ensures FindFrom(r, s, from).None? ==> NoneFrom(r, s, from)
  {
    if from <= |s| {
      if MatchAtStart(r, s, from).Some? {
        FirstAtStart(r, s, from);
      } else {
        FindFromCorrect(r, s, from + 1);
        NoneAtStart(r, s, from);
        if FindFrom(r, s, from + 1).Some? {
          FirstFromStep(r, s, from, FindFrom(r, s, from + 1).value);
        } else {
          NoneFromStep(r, s, from);
        }
      }
    }
  }

  /** With no match at `from`, the first match after `from` is the first at or after it. */
  lemma FirstFromStep(r: Rule, s: string, from: nat, m: (nat, nat, nat))
    requires forall e: nat, c: nat :: !MatchesDecided(r, s, from, e, c)
    requires FirstFrom(r, s, from + 1, m)
    ensures FirstFrom(r, s, from, m)
  {
  }

  /** With no match at `from` and none after it, there is none at or after it. */
  lemma NoneFromStep(r: Rule, s: string, from: nat)
    requires forall e: nat, c: nat :: !MatchesDecided(r, s, from, e, c)
    requires NoneFrom(r, s, from + 1)
    ensures NoneFrom(r, s, from)
  {
  }

  /**
   * `Find` reports exactly the preferred match of the expression, and
   * reports nothing exactly when the expression matches nowhere.
   */
  lemma FindIsPreferred(r: Rule, s: string)
    requires WellFormed(r)
    ensures Find(r, s).Some? ==> var m := Find(r, s).value; Preferred(r, s, m.0, m.1, m.2)
    ensures Find(r, s).None? <==> forall a, e, c :: !Matches(r, s, a, e, c)
  {
    FindFromCorrect(r, s, 0);
    forall a, e, c
      ensures Matches(r, s, a, e, c) <==> 0 <= a && 0 <= e && 0 <= c && MatchesDecided(r, s, a, e, c)
    {
      MatchesDecidedCorrect(r, s, a, e, c);
    }
  }

  // ----- Properties of the reformatter -----

  /** The capture that `Find` reports contains no forbidden character. */
  lemma FindCaptureAllowed(r: Rule, s: string)
    requires WellFormed(r) && Find(r, s).Some?
    ensures var m := Find(r, s).value; forall k :: m.1 <= k < m.2 ==> s[k] !in r.forbidden
  {
    FindFromCorrect(r, s, 0);
    var m := Find(r, s).value;
    assert MatchesDecided(r, s, m.0, m.1, m.2);
  }

  /** Trimming keeps a string free of the characters it was free of. */
  lemma TrimAvoids(cap: string, forbidden: set<char>)
    requires forall k :: 0 <= k < |cap| ==> cap[k] !in forbidden
    ensures forall k :: 0 <= k < |Trim(cap)| ==> Trim(cap)[k] !in forbidden
  {
    TrimIsSlice(cap);
    var i := SpaceRunFrom(cap, 0);
    forall k | 0 <= k < |Trim(cap)|
      ensures Trim(cap)[k] !in forbidden
    {
      assert Trim(cap)[k] == cap[i + k];
    }
  }

  /** Each part is trimmed and contains none of its expression's forbidden characters. */
  lemma PartClean(r: Rule, s: string)
    requires WellFormed(r)
    ensures var v := Part(r, s);
      && Trim(v) == v
      && (v == [] || (!IsSpace(v[0]) && !IsSpace(v[|v| - 1])))
      && forall k :: 0 <= k < |v| ==> v[k] !in r.forbidden
  {
    match Find(r, s)
    case None =>
    case Some(m) =>
      var cap := s[m.1..m.2];
      FindCaptureAllowed(r, s);
      assert forall k :: 0 <= k < |cap| ==> cap[k] == s[m.1 + k];
      TrimAvoids(cap, r.forbidden);
      TrimmedEnds(cap);
      TrimIdempotent(cap);
  }

  /**
   * Whatever the transcript, the result is the template filled with three
   * trimmed parts; the title has none of 担, 当, 期, 間, the assignee none of
   * タ, イ, ト, ル, 期, 間, and the period none of タ, イ, ト, ル, 担, 当.
   */
  lemma ParseShape(text: string)
    ensures exists title, assignee, period ::
      && ParseNaturalLanguage(text) == Template(title, assignee, period)
      && Trim(title) == title && Trim(assignee) == assignee && Trim(period) == period
      && (forall k :: 0 <= k < |title| ==> title[k] !in TitleRule.forbidden)
      && (forall k :: 0 <= k < |assignee| ==> assignee[k] !in AssigneeRule.forbidden)
      && (forall k :: 0 <= k < |period| ==> period[k] !in PeriodRule.forbidden)
  {
    RulesWellFormed();
    var title, assignee, period := Part(TitleRule, text), Part(AssigneeRule, text), Part(PeriodRule, text);
    PartClean(TitleRule, text);
    PartClean(AssigneeRule, text);
    PartClean(PeriodRule, text);
    assert ParseNaturalLanguage(text) == Template(title, assignee, period);
  }

  // ----- Reformatting a reformatted text -----

  /** A part that survives a second pass: no forbidden characters, no leading separator, no trailing whitespace. */
  predicate Clean(r: Rule, v: string) {
    && (forall k :: 0 <= k < |v| ==> v[k] !in r.forbidden)
    && (v == [] || (!IsSep(v[0]) && !IsSpace(v[|v| - 1])))
  }

  /** `s` does not contain `ch`. */
  predicate Lacks(s: string, ch: char) {
    forall k :: 0 <= k < |s| ==> s[k] != ch
  }

  /** No match starts where the label leaves no room for a separator. */
  lemma {:induction false} NoRoomNoMatch(r: Rule, s: string, from: nat)
    requires from + |r.name| >= |s|
    decreases |s| + 1 - from
    ensures FindFrom(r, s, from) == None
  {
    if from <= |s| {
      NoRoomNoMatch(r, s, from + 1);
    }
  }

  /** An occurrence of a non-empty word starts with the word's first character. */
  lemma OccursAtHead(s: string, w: string, j: int)
    ensures OccursAt(s, w, j) && |w| > 0 ==> s[j] == w[0]
  {
    if OccursAt(s, w, j) && |w| > 0 {
      assert s[j..j + |w|][0] == s[j];
    }
  }

  /** Starts before the first occurrence of the label's first character are skipped. */
  lemma {:induction false} SkipToLabel(r: Rule, s: string, from: nat, a: nat)
    requires |r.name| > 0 && from <= a <= |s|
    requires forall k :: from <= k < a ==> s[k] != r.name[0]
    decreases a - from
    ensures FindFrom(r, s, from) == FindFrom(r, s, a)
  {
    if from < a {
      OccursAtHead(s, r.name, from);
      SkipToLabel(r, s, from + 1, a);
    }
  }

  /** A separator and then a non-empty clean part: the separator run is the one character, and no forbidden character comes before the part's end. */
  lemma CleanValueBounds(r: Rule, s: string, p: nat, v: string)
    requires Clean(r, v) && v != [] && p + 1 + |v| <= |s|
    requires IsSep(s[p]) && s[p + 1..p + 1 + |v|] == v
    ensures SepRunFrom(s, p) == p + 1
    ensures FirstForbidden(r, s, p + 1) >= p + 1 + |v|
  {
    var b := p + 1;
    assert s[b] == v[0];
    forall k | b <= k < b + |v|
      ensures s[k] !in r.forbidden
    {
      assert s[k] == v[k - b];
    }
  }

  /** Inside a clean part the lookahead fails: whitespace there is followed by a character of the part, which starts no stop word. */
  lemma NoLookaheadInside(r: Rule, s: string, b: nat, v: string)
    requires WellFormed(r) && Clean(r, v) && v != [] && b + |v| <= |s|
    requires s[b..b + |v|] == v
    ensures forall x :: b + 1 <= x < b + |v| ==> !Lookahead(r, s, x)
  {
    var q := b + |v|;
    assert s[q - 1] == v[|v| - 1];
    forall x | b + 1 <= x < q
      ensures !Lookahead(r, s, x)
    {
      var y := SpaceRunFrom(s, x);
      SpaceRunFromIsSpace(s, x);
      assert s[y] == v[y - b];
      if StopAt(r, s, y) {
        StopStartsWithForbidden(r, s, y);
      }
    }
  }

  /** At the end of the text, or before whitespace and a stop word, the lookahead succeeds. */
  lemma LookaheadAtBoundary(r: Rule, s: string, q: nat)
    requires WellFormed(r) && q <= |s|
    requires q == |s| || (IsSpace(s[q]) && StopAt(r, s, q + 1))
    ensures Lookahead(r, s, q)
  {
    if q < |s| {
      StopStartsWithForbidden(r, s, q + 1);
      assert SpaceRunFrom(s, q + 1) == q + 1;
      assert SpaceRunFrom(s, q) == q + 1;
    }
  }

  /**
   * A separator at `p`, a non-empty clean part ending at `q`, then the end
   * or whitespace and a stop word: the capture is the part.
   */
  lemma CaptureCleanValue(r: Rule, s: string, p: nat, v: string)
    requires WellFormed(r) && Clean(r, v) && v != [] && p + 1 + |v| <= |s|
    requires IsSep(s[p]) && s[p + 1..p + 1 + |v|] == v
    requires var q := p + 1 + |v|; q == |s| || (IsSpace(s[q]) && StopAt(r, s, q + 1))
    ensures Capture(r, s, p) == Some((p + 1, p + 1 + |v|))
  {
    var b := p + 1;
    var q := b + |v|;
    CleanValueBounds(r, s, p, v);
    NoLookaheadInside(r, s, b, v);
    LookaheadAtBoundary(r, s, q);
    FirstLookaheadIs(r, s, b + 1, FirstForbidden(r, s, b), q);
  }

  /**
   * The label at `a`, a separator, a non-empty clean part ending at `q`,
   * then the end or whitespace and a stop word: the capture is the part.
   */
  lemma MatchCleanValue(r: Rule, s: string, a: nat, v: string)
    requires WellFormed(r) && OccursAt(s, r.name, a) && Clean(r, v) && v != []
    requires a + |r.name| + 1 + |v| <= |s|
    requires IsSep(s[a + |r.name|])
    requires s[a + |r.name| + 1..a + |r.name| + 1 + |v|] == v
    requires var q := a + |r.name| + 1 + |v|; q == |s| || (IsSpace(s[q]) && StopAt(r, s, q + 1))
    ensures MatchAtStart(r, s, a) == Some((a + |r.name| + 1, a + |r.name| + 1 + |v|))
  {
    CaptureCleanValue(r, s, a + |r.name|, v);
  }

  /** The least position in `[lo, hi]` where the lookahead succeeds is what `FirstLookahead` finds. */
  lemma {:induction false} FirstLookaheadIs(r: Rule, s: string, lo: nat, hi: nat, c: nat)
    requires lo <= c <= hi <= |s| && Lookahead(r, s, c)
    requires forall x :: lo <= x < c ==> !Lookahead(r, s, x)
    decreases c - lo
    ensures FirstLookahead(r, s, lo, hi) == Some(c)
  {
    if lo < c {
      FirstLookaheadIs(r, s, lo + 1, hi, c);
    }
  }

  /** The label at `a`, a separator, whitespace and a stop word: the capture is the whitespace character. */
  lemma MatchEmptyBeforeStop(r: Rule, s: string, a: nat)
    requires WellFormed(r) && OccursAt(s, r.name, a)
    requires a + |r.name| + 2 < |s|
    requires IsSep(s[a + |r.name|]) && IsSpace(s[a + |r.name| + 1])
    requires StopAt(r, s, a + |r.name| + 2)
    ensures var b := a + |r.name| + 2; MatchAtStart(r, s, a) == Some((b - 1, b))
  {
    var p := a + |r.name|;
    var b := p + 2;
    StopStartsWithForbidden(r, s, b);
    assert SepRunFrom(s, p + 1) == b;
    assert SepRunFrom(s, p) == b;
    assert FirstForbidden(r, s, b) == b;
    assert SpaceRunFrom(s, b) == b;
  }

  /** A stop word found in a suffix is found in the whole text. */
  lemma StopInSuffix(r: Rule, x: string, y: string, k: nat)
    requires StopAt(r, y, k)
    ensures StopAt(r, x + y, |x| + k)
  {
    var i :| 0 <= i < |r.stops| && OccursAt(y, r.stops[i], k);
    var w := r.stops[i];
    assert (x + y)[|x| + k..|x| + k + |w|] == y[k..k + |w|];
  }

  /**
   * `s` holds the label at `a`, whose first character does not occur
   * before it, then a separator, the part `v`, and then the end of the text
   * or whitespace and a stop word.
   */
  ghost predicate LaidOut(r: Rule, s: string, a: nat, v: string) {
    && |r.name| > 0
    && OccursAt(s, r.name, a)
    && (forall k :: 0 <= k < a ==> s[k] != r.name[0])
    && a + |r.name| + 1 + |v| <= |s|
    && IsSep(s[a + |r.name|])
    && s[a + |r.name| + 1..a + |r.name| + 1 + |v|] == v
    && var q := a + |r.name| + 1 + |v|; q == |s| || (IsSpace(s[q]) && StopAt(r, s, q + 1))
  }

  /** The match `Find` reports for a laid-out non-empty clean part. */
  lemma FindLaidOut(r: Rule, s: string, a: nat, v: string)
    requires WellFormed(r) && Clean(r, v) && v != [] && LaidOut(r, s, a, v)
    ensures var m := (a, a + |r.name| + 1, a + |r.name| + 1 + |v|);
      Find(r, s) == Some(m) && m.1 <= m.2 <= |s| && s[m.1..m.2] == v
  {
    SkipToLabel(r, s, 0, a);
    MatchCleanValue(r, s, a, v);
  }

  /** A laid-out non-empty clean part is read back as it is. */
  lemma PartOfLaidOutValue(r: Rule, s: string, a: nat, v: string)
    requires WellFormed(r) && Clean(r, v) && v != [] && LaidOut(r, s, a, v)
    ensures Part(r, s) == v
  {
    var m := (a, a + |r.name| + 1, a + |r.name| + 1 + |v|);
    FindLaidOut(r, s, a, v);
    TrimFixesTrimmed(v);
    PartFromFind(r, s, m, v);
  }

  /** The part is the capture of the reported match, when trimming leaves that capture as it is. */
  lemma PartFromFind(r: Rule, s: string, m: (nat, nat, nat), v: string)
    requires Find(r, s) == Some(m) && m.1 <= m.2 <= |s| && s[m.1..m.2] == v && Trim(v) == v
    ensures Part(r, s) == v
  {
  }

  /** A label and a separator at the very end of the text give no match, so the part is empty. */
  lemma PartOfLaidOutAtEnd(r: Rule, s: string, a: nat)
    requires LaidOut(r, s, a, []) && a + |r.name| + 1 == |s|
    ensures Part(r, s) == []
  {
    SkipToLabel(r, s, 0, a);
    CaptureAtLastSep(r, s, a + |r.name|);
    NoRoomNoMatch(r, s, a + 1);
    assert FindFrom(r, s, a) == FindFrom(r, s, a + 1);
  }

  /** A separator that ends the text captures nothing: the part after it is empty. */
  lemma CaptureAtLastSep(r: Rule, s: string, p: nat)
    requires p + 1 == |s| && IsSep(s[p])
    ensures Capture(r, s, p) == None
  {
    assert SepRunFrom(s, p + 1) == |s|;
  }

  /** A label and a separator followed by whitespace and a stop word capture the whitespace, which trims to nothing. */
  lemma PartOfLaidOutBeforeStop(r: Rule, s: string, a: nat)
    requires WellFormed(r) && LaidOut(r, s, a, []) && a + |r.name| + 1 < |s|
    ensures Part(r, s) == []
  {
    var b := a + |r.name| + 2;
    SkipToLabel(r, s, 0, a);
    MatchEmptyBeforeStop(r, s, a);
    assert FindFrom(r, s, a) == Some((a, b - 1, b));
    TrimEmptyIffAllSpace(s[b - 1..b]);
  }

  /** Where the pieces of a laid-out text sit. */
  lemma LayoutIndices(pre: string, name: string, sep: char, v: string, tail: string)
    ensures var s := pre + name + [sep] + v + tail; var p := |pre| + |name|;
      && |s| == p + 1 + |v| + |tail|
      && (forall k :: 0 <= k < |pre| ==> s[k] == pre[k])
      && s[|pre|..p] == name
      && s[p] == sep
      && s[p + 1..p + 1 + |v|] == v
      && (tail != [] ==> s[p + 1 + |v|] == tail[0])
  {
    var s := pre + name + [sep] + v + tail;
    var p := |pre| + |name|;
    assert s[|pre|..p] == name;
    assert s[p + 1..p + 1 + |v|] == v;
  }

  /**
   * A text laid out as `pre`, the label, a separator, a clean part `v`, and
   * then the end or whitespace and a stop word: when the label's first
   * character does not occur in `pre`, the part read back is `v`.
   */
  lemma PartOfLayout(r: Rule, pre: string, sep: char, v: string, tail: string)
    requires WellFormed(r) && IsSep(sep) && Clean(r, v) && Lacks(pre, r.name[0])
    requires tail == [] || (IsSpace(tail[0]) && StopAt(r, tail, 1))
    ensures Part(r, pre + r.name + [sep] + v + tail) == v
  {
    var s := pre + r.name + [sep] + v + tail;
    LayoutIndices(pre, r.name, sep, v, tail);
    if tail != [] {
      StopInSuffix(r, pre + r.name + [sep] + v, tail, 1);
    }
    assert LaidOut(r, s, |pre|, v);
    if v != [] {
      PartOfLaidOutValue(r, s, |pre|, v);
    } else if tail == [] {
      PartOfLaidOutAtEnd(r, s, |pre|);
    } else {
      PartOfLaidOutBeforeStop(r, s, |pre|);
    }
  }

  /** A string built from two strings without `ch` has no `ch`. */
  lemma LacksAppend(x: string, y: string, ch: char)
    requires Lacks(x, ch) && Lacks(y, ch)
    ensures Lacks(x + y, ch)
  {
    forall k | 0 <= k < |x + y|
      ensures (x + y)[k] != ch
    {
      if k >= |x| {
        assert (x + y)[k] == y[k - |x|];
      }
    }
  }

  /** The title line of the template is read back as the title. */
  lemma TitlePart(title: string, assignee: string, period: string)
    requires Clean(TitleRule, title)
    ensures Part(TitleRule, Template(title, assignee, period)) == title
  {
    RuleWellFormed(TitleRule);
    var tail := "\n担当：" + assignee + "\n期間：" + period;
    assert Template(title, assignee, period) == [] + TitleRule.name + ['：'] + title + tail;
    assert OccursAt(tail, TitleRule.stops[0], 1);
    PartOfLayout(TitleRule, [], '：', title, tail);
  }

  /** The assignee line of the template is read back as the assignee, since no 担 comes before it. */
  lemma AssigneePart(title: string, assignee: string, period: string)
    requires Clean(TitleRule, title) && Clean(AssigneeRule, assignee)
    ensures Part(AssigneeRule, Template(title, assignee, period)) == assignee
  {
    RuleWellFormed(AssigneeRule);
    var pre := "タイトル：" + title + "\n";
    var tail := "\n期間：" + period;
    assert Template(title, assignee, period) == pre + AssigneeRule.name + ['：'] + assignee + tail;
    LacksAppend("タイトル：", title, '担');
    LacksAppend("タイトル：" + title, "\n", '担');
    assert OccursAt(tail, AssigneeRule.stops[1], 1);
    PartOfLayout(AssigneeRule, pre, '：', assignee, tail);
  }

  /** The period line of the template is read back as the period, since no 期 comes before it. */
  lemma PeriodPart(title: string, assignee: string, period: string)
    requires Clean(TitleRule, title) && Clean(AssigneeRule, assignee) && Clean(PeriodRule, period)
    ensures Part(PeriodRule, Template(title, assignee, period)) == period
  {
    RuleWellFormed(PeriodRule);
    var pre := "タイトル：" + title + "\n担当：" + assignee + "\n";
    assert Template(title, assignee, period) == pre + PeriodRule.name + ['：'] + period + [];
    LacksAppend("タイトル：", title, '期');
    LacksAppend("タイトル：" + title, "\n担当：", '期');
    LacksAppend("タイトル：" + title + "\n担当：", assignee, '期');
    LacksAppend("タイトル：" + title + "\n担当：" + assignee, "\n", '期');
    PartOfLayout(PeriodRule, pre, '：', period, []);
  }

  /**
   * Reformatting is idempotent on what it produces from clean parts: a
   * template whose parts are trimmed and free of the forbidden characters is
   * reformatted to itself.
   */
  lemma ReformatIsIdentity(title: string, assignee: string, period: string)
    requires Clean(TitleRule, title) && Clean(AssigneeRule, assignee) && Clean(PeriodRule, period)
    ensures ParseNaturalLanguage(Template(title, assignee, period)) == Template(title, assignee, period)
  {
    TitlePart(title, assignee, period);
    AssigneePart(title, assignee, period);
    PeriodPart(title, assignee, period);
  }

  /** The spoken request the voice input hands over: spaces for separators. */
  const Spoken := "タイトル API実装 担当 石鍋 期間 今日から3日"

  lemma SpokenTitle()
    ensures Part(TitleRule, Spoken) == "API実装"
  {
    RuleWellFormed(TitleRule);
    var tail := " 担当 石鍋 期間 今日から3日";
    assert Spoken == [] + TitleRule.name + [' '] + "API実装" + tail;
    assert OccursAt(tail, TitleRule.stops[0], 1);
    PartOfLayout(TitleRule, [], ' ', "API実装", tail);
  }

  lemma SpokenAssignee()
    ensures Part(AssigneeRule, Spoken) == "石鍋"
  {
    RuleWellFormed(AssigneeRule);
    var pre := "タイトル API実装 ";
    var tail := " 期間 今日から3日";
    assert Spoken == pre + AssigneeRule.name + [' '] + "石鍋" + tail;
    assert OccursAt(tail, AssigneeRule.stops[1], 1);
    PartOfLayout(AssigneeRule, pre, ' ', "石鍋", tail);
  }

  lemma SpokenPeriod()
    ensures Part(PeriodRule, Spoken) == "今日から3日"
  {
    RuleWellFormed(PeriodRule);
    var pre := "タイトル API実装 担当 石鍋 ";
    assert Spoken == pre + PeriodRule.name + [' '] + "今日から3日" + [];
    PartOfLayout(PeriodRule, pre, ' ', "今日から3日", []);
  }

  /** The spoken request is reformatted into the three-line template. */
  lemma SpokenExample()
    ensures ParseNaturalLanguage(Spoken) == Template("API実装", "石鍋", "今日から3日")
  {
    SpokenTitle();
    SpokenAssignee();
    SpokenPeriod();
  }
}
