/**
 * PHP's `strtr($str, $replace_pairs)` with an array of pairs, the builtin that
 * `interpolate` in src/ProcessLogger.php ends with: one left-to-right pass that
 * at each position replaces the longest key found there and resumes after it,
 * so replaced text is never scanned again, and copies a character unchanged
 * where no key starts. An empty key never matches.
 */
module Translate {
  import opened Wrappers

  /**
   * The length of the longest key of `pairs` that is a non-empty prefix of
   * `s`, trying the lengths from `bound` downwards.
   */
  function LongestMatch(s: string, pairs: map<string, string>, bound: nat): (r: Option<nat>)
    requires bound <= |s|
    ensures r.Some? ==> 0 < r.value <= bound && s[..r.value] in pairs
    ensures r.Some? ==> forall m :: r.value < m <= bound ==> s[..m] !in pairs
    ensures r.None? ==> forall m :: 0 < m <= bound ==> s[..m] !in pairs
    decreases bound
  {
    if bound == 0 then None
    else if s[..bound] in pairs then Some(bound)
    else LongestMatch(s, pairs, bound - 1)
  }

  /** The longest key at the head of `s`, if any key is a prefix of `s`. */
  function MatchAtHead(s: string, pairs: map<string, string>): Option<nat> {
    LongestMatch(s, pairs, |s|)
  }

  /** `strtr` with an array of replacement pairs. */
  function Strtr(s: string, pairs: map<string, string>): string
    decreases |s|
  {
    if s == [] then []
    else match MatchAtHead(s, pairs)
      case Some(n) => pairs[s[..n]] + Strtr(s[n..], pairs)
      case None => [s[0]] + Strtr(s[1..], pairs)
  }

  /** No key occurs anywhere in `s`. */
  ghost predicate NoKeyIn(s: string, pairs: map<string, string>) {
    forall i, j :: 0 <= i < j <= |s| ==> s[i..j] !in pairs
  }

  /** No key occurrence in `x + y` starts inside `x` and ends inside `y`. */
  ghost predicate NoStraddle(x: string, y: string, pairs: map<string, string>) {
    forall i, j :: 0 <= i < |x| < j <= |x| + |y| ==> (x + y)[i..j] !in pairs
  }

  /** Two inputs that agree on their first `bound` characters have the same longest match up to `bound`. */
  lemma {:induction false} LongestMatchAgrees(s: string, t: string, pairs: map<string, string>, bound: nat)
    requires bound <= |s| && bound <= |t| && s[..bound] == t[..bound]
    ensures LongestMatch(s, pairs, bound) == LongestMatch(t, pairs, bound)
    decreases bound
  {
    if bound > 0 {
      assert s[..bound - 1] == s[..bound][..bound - 1];
      assert t[..bound - 1] == t[..bound][..bound - 1];
      LongestMatchAgrees(s, t, pairs, bound - 1);
    }
  }

  /** Search lengths at which no key matches can be skipped. */
  lemma {:induction false} LongestMatchSkip(s: string, pairs: map<string, string>, bound: nat, low: nat)
    requires low <= bound <= |s|
    requires forall m :: low < m <= bound ==> s[..m] !in pairs
    ensures LongestMatch(s, pairs, bound) == LongestMatch(s, pairs, low)
    decreases bound
  {
    if bound > low {
      LongestMatchSkip(s, pairs, bound - 1, low);
    }
  }

  /** When no key straddles the boundary, the match at the head of `x + y` is the match at the head of `x`. */
  lemma HeadMatchOfConcat(x: string, y: string, pairs: map<string, string>)
    requires x != []
    requires NoStraddle(x, y, pairs)
    ensures MatchAtHead(x + y, pairs) == MatchAtHead(x, pairs)
  {
    var s := x + y;
    forall m | |x| < m <= |s|
      ensures s[..m] !in pairs
    {
      assert s[0..m] == s[..m];
    }
    LongestMatchSkip(s, pairs, |s|, |x|);
    assert s[..|x|] == x[..|x|];
    LongestMatchAgrees(s, x, pairs, |x|);
  }

  /** Dropping a prefix of `x` keeps the boundary free of straddling keys. */
  lemma NoStraddleSuffix(x: string, y: string, pairs: map<string, string>, n: nat)
    requires n <= |x|
    requires NoStraddle(x, y, pairs)
    ensures NoStraddle(x[n..], y, pairs)
  {
    var x' := x[n..];
    forall i, j | 0 <= i < |x'| < j <= |x'| + |y|
      ensures (x' + y)[i..j] !in pairs
    {
      assert (x' + y)[i..j] == (x + y)[n + i..n + j];
    }
  }

  /**
   * `strtr` of a concatenation is the concatenation of the results when no
   * key occurrence crosses the boundary: the pass reaches the boundary
   * exactly, without carrying anything over.
   */
  lemma {:induction false} StrtrConcat(x: string, y: string, pairs: map<string, string>)
    requires NoStraddle(x, y, pairs)
    ensures Strtr(x + y, pairs) == Strtr(x, pairs) + Strtr(y, pairs)
    decreases |x|
  {
    if x == [] {
      assert x + y == y;
    } else {
      var s := x + y;
      HeadMatchOfConcat(x, y, pairs);
      match MatchAtHead(x, pairs)
      case Some(n) =>
        assert s[..n] == x[..n];
        assert s[n..] == x[n..] + y;
        NoStraddleSuffix(x, y, pairs, n);
        StrtrConcat(x[n..], y, pairs);
      case None =>
        assert s[1..] == x[1..] + y;
        NoStraddleSuffix(x, y, pairs, 1);
        StrtrConcat(x[1..], y, pairs);
    }
  }

  /** Text in which no key occurs comes out unchanged. */
  lemma {:induction false} StrtrNoKey(s: string, pairs: map<string, string>)
    requires NoKeyIn(s, pairs)
    ensures Strtr(s, pairs) == s
    decreases |s|
  {
    if s != [] {
      assert forall m :: 0 < m <= |s| ==> s[..m] == s[0..m];
      assert MatchAtHead(s, pairs).None?;
      forall i, j | 0 <= i < j <= |s[1..]|
        ensures s[1..][i..j] !in pairs
      {
        assert s[1..][i..j] == s[i + 1..j + 1];
      }
      StrtrNoKey(s[1..], pairs);
    }
  }

  /** With no replacement pairs `strtr` is the identity. */
  lemma StrtrNoPairs(s: string)
    ensures Strtr(s, map[]) == s
  {
    StrtrNoKey(s, map[]);
  }
}
