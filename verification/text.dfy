/**
 * The string builtins `flush` in src/ProcessLogger.php relies on:
 * `implode("\n", ...)` to assemble the report, and the double `rtrim` that
 * strips the trailing zeros of the memory figure. `Split` is the matching
 * `explode("\n", ...)`, used to state what the report's lines are.
 */
module Text {

  /** `implode("\n", lines)`. */
  function Join(lines: seq<string>): string {
    if |lines| == 0 then ""
    else if |lines| == 1 then lines[0]
    else lines[0] + "\n" + Join(lines[1..])
  }

  /** `explode("\n", s)`: the pieces between newlines, always at least one. */
  function Split(s: string): (r: seq<string>)
    ensures |r| >= 1
    decreases |s|
  {
    if s == [] then [""]
    else if s[0] == '\n' then [""] + Split(s[1..])
    else
      var rest := Split(s[1..]);
      [[s[0]] + rest[0]] + rest[1..]
  }

  /** A line holds no newline. */
  predicate SingleLine(line: string) {
    '\n' !in line
  }

  lemma {:induction false} SplitSingleLine(a: string)
    requires SingleLine(a)
    ensures Split(a) == [a]
    decreases |a|
  {
    if a != [] {
      assert a[1..] + [] == a[1..];
      SplitSingleLine(a[1..]);
      assert [a[0]] + a[1..] == a;
    }
  }

  lemma {:induction false} SplitAfterLine(a: string, b: string)
    requires SingleLine(a)
    ensures Split(a + "\n" + b) == [a] + Split(b)
    decreases |a|
  {
    var s := a + "\n" + b;
    if a == [] {
      assert s == "\n" + b;
      assert s[1..] == b;
    } else {
      assert s[1..] == a[1..] + "\n" + b;
      SplitAfterLine(a[1..], b);
      assert [a[0]] + a[1..] == a;
    }
  }

  /** Splitting a joined list of single lines gives the lines back. */
  lemma {:induction false} SplitJoin(lines: seq<string>)
    requires |lines| >= 1
    requires forall i :: 0 <= i < |lines| ==> SingleLine(lines[i])
    ensures Split(Join(lines)) == lines
    decreases |lines|
  {
    if |lines| == 1 {
      SplitSingleLine(lines[0]);
    } else {
      SplitAfterLine(lines[0], Join(lines[1..]));
      SplitJoin(lines[1..]);
      assert [lines[0]] + lines[1..] == lines;
    }
  }

  /** The joined text starts with the first line and ends with the last. */
  lemma {:induction false} JoinEnds(lines: seq<string>)
    requires |lines| >= 1
    ensures Join(lines)[..|lines[0]|] == lines[0]
    ensures |Join(lines)| >= |lines[|lines| - 1]|
    ensures Join(lines)[|Join(lines)| - |lines[|lines| - 1]|..] == lines[|lines| - 1]
    decreases |lines|
  {
    if |lines| > 1 {
      JoinEnds(lines[1..]);
      var rest := Join(lines[1..]);
      var s := lines[0] + "\n" + rest;
      assert s[..|lines[0]|] == lines[0];
      assert s[|s| - |rest|..] == rest;
      var last := lines[|lines| - 1];
      assert rest[|rest| - |last|..] == s[|s| - |last|..];
    }
  }

  /** PHP `rtrim($s, $c)` for a single character: drop every trailing `c`. */
  function RTrim(s: string, c: char): (r: string)
    ensures |r| <= |s| && r == s[..|r|]
    ensures r == [] || r[|r| - 1] != c
    ensures forall i :: |r| <= i < |s| ==> s[i] == c
    decreases |s|
  {
    if s != [] && s[|s| - 1] == c then RTrim(s[..|s| - 1], c) else s
  }

  /** `rtrim(rtrim($number, '0'), '.')`: a fixed-point number without trailing zeros or a bare point. */
  function TrimDecimal(number: string): string {
    RTrim(RTrim(number, '0'), '.')
  }

  /** Every character of `s` is a zero. */
  predicate AllZeros(s: string) {
    forall i :: 0 <= i < |s| ==> s[i] == '0'
  }

  /**
   * On a number of the form `whole.fraction` (what `number_format` gives),
   * trimming keeps the whole part intact: a fraction of zeros disappears with
   * its point, and otherwise the fraction loses exactly its trailing zeros.
   */
  lemma TrimDecimalFixedPoint(whole: string, fraction: string)
    requires '.' !in whole && '.' !in fraction
    ensures AllZeros(fraction) ==> TrimDecimal(whole + "." + fraction) == whole
    ensures !AllZeros(fraction) ==>
      exists j :: 0 < j <= |fraction|
        && fraction[j - 1] != '0' && AllZeros(fraction[j..])
        && TrimDecimal(whole + "." + fraction) == whole + "." + fraction[..j]
  {
    var s := whole + "." + fraction;
    var t := RTrim(s, '0');
    assert s[|whole|] == '.';
    if AllZeros(fraction) {
      assert |t| == |whole| + 1;
      assert t == whole + ".";
      assert t[..|whole|] == whole;
      assert RTrim(t, '.') == RTrim(whole, '.');
      if whole != [] {
        assert whole[|whole| - 1] != '.' by {
          assert whole[|whole| - 1] in whole;
        }
      }
    } else {
      var i :| 0 <= i < |fraction| && fraction[i] != '0';
      assert s[|whole| + 1 + i] == fraction[i];
      var j := |t| - |whole| - 1;
      assert 0 < j <= |fraction|;
      assert t == whole + "." + fraction[..j];
      assert t[|t| - 1] == fraction[j - 1];
      forall k | 0 <= k < |fraction[j..]|
        ensures fraction[j..][k] == '0'
      {
        assert s[|t| + k] == fraction[j + k];
      }
    }
  }
}
