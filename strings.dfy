/**
 * String helpers shared by the backend and the frontend models: substring
 * search (Python's `re`/`in`, JavaScript's `includes`) and JavaScript's
 * whitespace class and `trim`.
 */
module Strings {
  import opened Wrappers

  /** `sub` occurs in `s` starting at index `j`. */
  predicate OccursAt(s: string, sub: string, j: int) {
    0 <= j && j + |sub| <= |s| && forall i :: 0 <= i < |sub| ==> s[j + i] == sub[i]
  }

  /** `s` starts with `prefix`. */
  predicate StartsWith(s: string, prefix: string) {
    |prefix| <= |s| && s[..|prefix|] == prefix
  }

  /** The first index at or after `from` where `sub` occurs in `s`. */
  function IndexFrom(s: string, sub: string, from: nat): (r: Option<nat>)
    decreases |s| - from
    ensures r.Some? ==> from <= r.value && OccursAt(s, sub, r.value)
    ensures r.Some? ==> forall j :: from <= j < r.value ==> !OccursAt(s, sub, j)
    ensures r.None? ==> forall j :: from <= j ==> !OccursAt(s, sub, j)
  {
    if from + |sub| > |s| then None
    else if s[from..from + |sub|] == sub then Some(from)
    else IndexFrom(s, sub, from + 1)
  }

  /** The first index where `sub` occurs in `s`, as `str.find` / `indexOf`. */
  function IndexOf(s: string, sub: string): (r: Option<nat>)
    ensures r.Some? ==> OccursAt(s, sub, r.value) && forall j :: 0 <= j < r.value ==> !OccursAt(s, sub, j)
    ensures r.None? ==> forall j :: !OccursAt(s, sub, j)
  {
    IndexFrom(s, sub, 0)
  }

  /** JavaScript's `s.includes(sub)`. */
  function Contains(s: string, sub: string): (b: bool)
    ensures b <==> exists j :: OccursAt(s, sub, j)
  {
    IndexOf(s, sub).Some?
  }

  /**
   * JavaScript's whitespace: the characters of the regular-expression class
   * `\s`, which are also the characters `String.prototype.trim` removes
   * (WhiteSpace and LineTerminator of ECMA-262).
   */
  predicate IsSpace(c: char) {
    || ('\t' <= c <= '\r') || c == ' ' || c == '\U{00A0}' || c == '\U{1680}'
    || ('\U{2000}' <= c <= '\U{200A}') || c == '\U{2028}' || c == '\U{2029}' || c == '\U{202F}'
    || c == '\U{205F}' || c == '\U{3000}' || c == '\U{FEFF}'
  }

  /** Every character of `s` is whitespace. */
  predicate AllSpace(s: string) {
    forall k :: 0 <= k < |s| ==> IsSpace(s[k])
  }

  /** The end of the run of whitespace in `s` that starts at `from`. */
  function SpaceRunFrom(s: string, from: nat): (n: nat)
    requires from <= |s|
    decreases |s| - from
    ensures from <= n <= |s|
    ensures n == |s| || !IsSpace(s[n])
  {
    if from < |s| && IsSpace(s[from]) then SpaceRunFrom(s, from + 1) else from
  }

  /** The run that starts at `from` is whitespace throughout. */
  lemma {:induction false} SpaceRunFromIsSpace(s: string, from: nat)
    requires from <= |s|
    decreases |s| - from
    ensures forall k :: from <= k < SpaceRunFrom(s, from) ==> IsSpace(s[k])
  {
    if from < |s| && IsSpace(s[from]) {
      SpaceRunFromIsSpace(s, from + 1);
    }
  }

  /** The start of the run of whitespace in `s` that ends at `to`. */
  function SpaceRunTo(s: string, to: nat): (n: nat)
    requires to <= |s|
    ensures n <= to
    ensures n == 0 || !IsSpace(s[n - 1])
  {
    if 0 < to && IsSpace(s[to - 1]) then SpaceRunTo(s, to - 1) else to
  }

  /** The run that ends at `to` is whitespace throughout. */
  lemma {:induction false} SpaceRunToIsSpace(s: string, to: nat)
    requires to <= |s|
    ensures forall k :: SpaceRunTo(s, to) <= k < to ==> IsSpace(s[k])
  {
    if 0 < to && IsSpace(s[to - 1]) {
      SpaceRunToIsSpace(s, to - 1);
    }
  }

  /** `s` without its leading whitespace. */
  function TrimStart(s: string): (r: string)
    ensures |r| <= |s| && r == s[|s| - |r|..]
    ensures r == [] || !IsSpace(r[0])
  {
    s[SpaceRunFrom(s, 0)..]
  }

  /** `s` without its trailing whitespace. */
  function TrimEnd(s: string): (r: string)
    ensures |r| <= |s| && r == s[..|r|]
    ensures r == [] || !IsSpace(r[|r| - 1])
  {
    s[..SpaceRunTo(s, |s|)]
  }

  /** What the two trims remove is whitespace. */
  lemma TrimsRemoveSpace(s: string)
    ensures AllSpace(s[..|s| - |TrimStart(s)|])
    ensures AllSpace(s[|TrimEnd(s)|..])
  {
    SpaceRunFromIsSpace(s, 0);
    SpaceRunToIsSpace(s, |s|);
  }

  /** JavaScript's `s.trim()`. */
  function Trim(s: string): string {
    TrimEnd(TrimStart(s))
  }

  /** Trimming removes only whitespace, so a trimmed string is empty exactly when `s` is all whitespace. */
  lemma TrimEmptyIffAllSpace(s: string)
    ensures Trim(s) == [] <==> AllSpace(s)
  {
    var t := TrimStart(s);
    if Trim(s) == [] {
      TrimsRemoveSpace(s);
      TrimsRemoveSpace(t);
      assert t[0..] == t;
      assert t == [];
      assert s[..|s|] == s;
    } else {
      assert TrimEnd(t)[0] == t[0];
    }
  }

  /** A trimmed string neither starts nor ends with whitespace. */
  lemma TrimmedEnds(s: string)
    ensures var r := Trim(s); r == [] || (!IsSpace(r[0]) && !IsSpace(r[|r| - 1]))
  {
    var t := TrimStart(s);
    if TrimEnd(t) != [] {
      assert TrimEnd(t)[0] == t[0];
    }
  }

  /** A string that neither starts nor ends with whitespace is its own trim. */
  lemma TrimFixesTrimmed(s: string)
    requires s == [] || (!IsSpace(s[0]) && !IsSpace(s[|s| - 1]))
    ensures Trim(s) == s
  {
    if s != [] {
      assert TrimStart(s) == s;
      assert TrimEnd(s) == s;
    }
  }

  /** Trimming twice is trimming once. */
  lemma TrimIdempotent(s: string)
    ensures Trim(Trim(s)) == Trim(s)
  {
    TrimmedEnds(s);
    TrimFixesTrimmed(Trim(s));
  }

  /**
   * The trimmed string is the slice of `s` that starts after its leading
   * whitespace, and what is cut off before and after that slice is
   * whitespace.
   */
  lemma TrimIsSlice(s: string)
    ensures SpaceRunFrom(s, 0) + |Trim(s)| <= |s|
    ensures Trim(s) == s[SpaceRunFrom(s, 0)..SpaceRunFrom(s, 0) + |Trim(s)|]
    ensures AllSpace(s[..SpaceRunFrom(s, 0)])
    ensures AllSpace(s[SpaceRunFrom(s, 0) + |Trim(s)|..])
  {
    var i := SpaceRunFrom(s, 0);
    var t := s[i..];
    assert TrimStart(s) == t;
    var r := TrimEnd(t);
    assert r == t[..|r|];
    assert t[..|r|] == s[i..i + |r|];
    assert AllSpace(s[..i]) by {
      SpaceRunFromIsSpace(s, 0);
      AllSpaceSlice(s, 0, i);
      assert s[..i] == s[0..i];
    }
    assert AllSpace(s[i + |r|..]) by {
      SpaceRunToIsSpace(t, |t|);
      forall k | i + |r| <= k < |s|
        ensures IsSpace(s[k])
      {
        assert s[k] == t[k - i];
      }
      AllSpaceSlice(s, i + |r|, |s|);
      assert s[i + |r|..] == s[i + |r|..|s|];
    }
  }

  /** A slice of characters that are each whitespace is all whitespace. */
  lemma AllSpaceSlice(s: string, from: nat, to: nat)
    requires from <= to <= |s|
    requires forall k :: from <= k < to ==> IsSpace(s[k])
    ensures AllSpace(s[from..to])
  {
    forall k | 0 <= k < to - from
      ensures IsSpace(s[from..to][k])
    {
      assert s[from..to][k] == s[from + k];
    }
  }

  /** JavaScript's `s.slice(-n)` for `n > 0`: the last `n` characters, or all of `s` when it is shorter. */
  function Last(s: string, n: nat): (r: string)
    ensures |r| == if |s| < n then |s| else n
    ensures r == s[|s| - |r|..]
  {
    if |s| < n then s else s[|s| - n..]
  }
}
