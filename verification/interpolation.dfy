/**
 * Placeholder interpolation (`interpolate` in src/ProcessLogger.php): every
 * context entry `key => value` becomes the replacement pair
 * `"{key}" => string form of value`, and the message is passed once through
 * `strtr` with those pairs.
 */
module Interpolation {
  import opened Wrappers
  import opened Translate

  /**
   * A context value. `Scalar` holds a string, number, boolean or null already
   * in the form PHP's string cast gives it; `Array` is a PHP array; `Object`
   * is an object, with the result of its `__toString` when it has one. `D`
   * stands for the contents, which only the debug dump looks at.
   */
  datatype Value<D> = Scalar(text: string) | Array(items: D) | Object(state: D, toString: Option<string>)

  /** The value can be cast to a string: it is not an array, and if an object then one with `__toString`. */
  predicate Castable<D>(v: Value<D>) {
    !v.Array? && (!v.Object? || v.toString.Some?)
  }

  /**
   * The replacement text of a value: its string cast when it has one, and
   * otherwise `dump(v)`, which stands for `var_export($val, true)`.
   */
  function Stringify<D>(v: Value<D>, dump: Value<D> -> string): string {
    if Castable(v) then
      if v.Scalar? then v.text else v.toString.value
    else
      dump(v)
  }

  /**
   * Only values without a string cast go through the debug dump: the text of a
   * castable value does not depend on `dump` at all.
   */
  lemma StringifyChoice<D>(v: Value<D>, dump: Value<D> -> string, dump': Value<D> -> string)
    ensures Castable(v) ==> Stringify(v, dump) == Stringify(v, dump')
    ensures !Castable(v) ==> Stringify(v, dump) == dump(v)
    ensures v.Scalar? ==> Stringify(v, dump) == v.text
    ensures v.Object? && v.toString.Some? ==> Stringify(v, dump) == v.toString.value
  {
  }

  /** The placeholder written for a context key. */
  function Brace(key: string): string {
    "{" + key + "}"
  }

  lemma BraceInjective(a: string, b: string)
    ensures Brace(a) == Brace(b) ==> a == b
  {
    if Brace(a) == Brace(b) {
      assert a == Brace(a)[1..|Brace(a)| - 1];
    }
  }

  /** The replacement pairs built from a context: one pair per key, and no others. */
  function Placeholders<D>(ctx: map<string, Value<D>>, dump: Value<D> -> string): (r: map<string, string>)
    ensures forall k :: k in ctx ==> Brace(k) in r && r[Brace(k)] == Stringify(ctx[k], dump)
    ensures forall p :: p in r ==> exists k :: k in ctx && p == Brace(k)
    ensures forall k :: Brace(k) in r ==> k in ctx
  {
    forall a, b | a in ctx && b in ctx && Brace(a) == Brace(b)
      ensures a == b
    {
      BraceInjective(a, b);
    }
    var r := map k | k in ctx :: Brace(k) := Stringify(ctx[k], dump);
    assert forall k :: Brace(k) in r ==> k in ctx by {
      forall k | Brace(k) in r
        ensures k in ctx
      {
        var k' :| k' in ctx && Brace(k') == Brace(k);
        BraceInjective(k, k');
      }
    }
    r
  }

  /** `interpolate($message, $context)`. */
  function Interpolate<D>(message: string, ctx: map<string, Value<D>>, dump: Value<D> -> string): string {
    Strtr(message, Placeholders(ctx, dump))
  }

  /** A key holds no brace characters. */
  predicate BraceFree(key: string) {
    forall j :: 0 <= j < |key| ==> key[j] != '{' && key[j] != '}'
  }

  /** Every key of the pairs begins with an opening brace. */
  ghost predicate KeysOpenWithBrace(pairs: map<string, string>) {
    forall p :: p in pairs ==> |p| > 0 && p[0] == '{'
  }

  /** Every key of the pairs is `{`, then brace-free text, then `}`. */
  ghost predicate KeysArePlaceholders(pairs: map<string, string>) {
    forall p :: p in pairs ==>
      && |p| >= 2 && p[0] == '{' && p[|p| - 1] == '}'
      && forall j :: 0 < j < |p| - 1 ==> p[j] != '{' && p[j] != '}'
  }

  lemma PlaceholdersOpenWithBrace<D>(ctx: map<string, Value<D>>, dump: Value<D> -> string)
    ensures KeysOpenWithBrace(Placeholders(ctx, dump))
  {
  }

  lemma PlaceholdersShaped<D>(ctx: map<string, Value<D>>, dump: Value<D> -> string)
    requires forall k :: k in ctx ==> BraceFree(k)
    ensures KeysArePlaceholders(Placeholders(ctx, dump))
  {
    forall p | p in Placeholders(ctx, dump)
      ensures |p| >= 2 && p[0] == '{' && p[|p| - 1] == '}'
      ensures forall j :: 0 < j < |p| - 1 ==> p[j] != '{' && p[j] != '}'
    {
      var k :| k in ctx && p == Brace(k);
      assert forall j :: 0 < j < |p| - 1 ==> p[j] == k[j - 1];
    }
  }

  /** Text without an opening brace is copied through unchanged: no key can start in it. */
  lemma {:induction false} StrtrLiteralPrefix(t: string, y: string, pairs: map<string, string>)
    requires KeysOpenWithBrace(pairs)
    requires '{' !in t
    ensures Strtr(t + y, pairs) == t + Strtr(y, pairs)
    decreases |t|
  {
    if t == [] {
      assert t + y == y;
    } else {
      var s := t + y;
      assert forall m :: 0 < m <= |s| ==> s[..m][0] == t[0];
      assert MatchAtHead(s, pairs).None?;
      assert s[1..] == t[1..] + y;
      StrtrLiteralPrefix(t[1..], y, pairs);
    }
  }

  /** With placeholder-shaped keys, no key occurrence crosses into text that starts with `{`. */
  lemma NoStraddleBeforeBrace(x: string, y: string, pairs: map<string, string>)
    requires KeysArePlaceholders(pairs)
    requires y == [] || y[0] == '{'
    ensures NoStraddle(x, y, pairs)
  {
    forall i, j | 0 <= i < |x| < j <= |x| + |y|
      ensures (x + y)[i..j] !in pairs
    {
      var p := (x + y)[i..j];
      assert p[|x| - i] == y[0];
    }
  }

  /**
   * A placeholder `{k}` with a brace-free `k` at the head of the text is
   * replaced by its value when `{k}` is a key and kept verbatim when it is
   * not; the pass then carries on after it.
   */
  lemma StrtrPlaceholderHead(k: string, y: string, pairs: map<string, string>)
    requires KeysArePlaceholders(pairs)
    requires BraceFree(k)
    ensures Strtr(Brace(k) + y, pairs)
         == (if Brace(k) in pairs then pairs[Brace(k)] else Brace(k)) + Strtr(y, pairs)
  {
    var s := Brace(k) + y;
    var n := |k| + 2;
    assert s[..n] == Brace(k);
    forall m | 0 < m <= |s| && m != n
      ensures s[..m] !in pairs
    {
      var p := s[..m];
      if m < n && m >= 2 {
        assert p[m - 1] == k[m - 2];
      } else if m > n {
        assert p[n - 1] == '}';
      }
    }
    LongestMatchSkip(s, pairs, |s|, n);
    assert s[n..] == y;
    if Brace(k) !in pairs {
      assert MatchAtHead(s, pairs).None?;
      assert s[1..] == (k + "}") + y;
      StrtrLiteralPrefix(k + "}", y, pairs);
      assert Brace(k) == "{" + (k + "}");
    }
  }

  /** With an empty context the message is returned unchanged. */
  lemma InterpolateEmptyContext<D>(message: string, dump: Value<D> -> string)
    ensures Interpolate(message, map[], dump) == message
  {
    assert Placeholders(map[], dump) == map[];
    StrtrNoPairs(message);
  }

  /** Text before the first `{` is copied unchanged, whatever the context holds. */
  lemma InterpolateLiteral<D>(t: string, rest: string, ctx: map<string, Value<D>>, dump: Value<D> -> string)
    requires '{' !in t
    ensures Interpolate(t + rest, ctx, dump) == t + Interpolate(rest, ctx, dump)
  {
    PlaceholdersOpenWithBrace(ctx, dump);
    StrtrLiteralPrefix(t, rest, Placeholders(ctx, dump));
  }

  /**
   * With brace-free context keys, every occurrence of a placeholder `{k}`
   * (`k` brace-free) is replaced by the string of `ctx[k]` when `k` is in the
   * context and left as it is when it is not, and the text on either side is
   * interpolated independently: replacements are never rescanned and do not
   * depend on their neighbours.
   */
  lemma InterpolatePlaceholder<D>(before: string, k: string, after: string,
                                  ctx: map<string, Value<D>>, dump: Value<D> -> string)
    requires forall key :: key in ctx ==> BraceFree(key)
    requires BraceFree(k)
    ensures Interpolate(before + Brace(k) + after, ctx, dump)
         == Interpolate(before, ctx, dump)
            + (if k in ctx then Stringify(ctx[k], dump) else Brace(k))
            + Interpolate(after, ctx, dump)
  {
    var pairs := Placeholders(ctx, dump);
    PlaceholdersShaped(ctx, dump);
    NoStraddleBeforeBrace(before, Brace(k) + after, pairs);
    assert before + Brace(k) + after == before + (Brace(k) + after);
    StrtrConcat(before, Brace(k) + after, pairs);
    StrtrPlaceholderHead(k, after, pairs);
  }

  /** Literal text followed by one placeholder whose key is in the context. */
  lemma InterpolateOne<D>(lit: string, k: string, v: Value<D>, dump: Value<D> -> string)
    requires '{' !in lit
    requires BraceFree(k)
    ensures Interpolate(lit + Brace(k), map[k := v], dump) == lit + Stringify(v, dump)
  {
    var ctx := map[k := v];
    InterpolatePlaceholder(lit, k, [], ctx, dump);
    assert lit + Brace(k) + [] == lit + Brace(k);
    InterpolateLiteral(lit, [], ctx, dump);
    assert lit + [] == lit;
    assert Interpolate([], ctx, dump) == [];
  }

  /** Literal facts about `"Hello {name}"`: its literal part and placeholder, kept apart so that the example stays cheap to verify. */
  lemma HelloShape()
    ensures "Hello {name}" == "Hello " + Brace("name")
    ensures '{' !in "Hello " && BraceFree("name")
    ensures "Hello " + "World" == "Hello World"
  {
  }

  /** `"Hello {name}"` with `name => "World"` gives `"Hello World"`. */
  lemma ExampleHello<D>(dump: Value<D> -> string)
    ensures Interpolate("Hello {name}", map["name" := Scalar("World")], dump) == "Hello World"
  {
    HelloShape();
    InterpolateOne("Hello ", "name", Scalar("World"), dump);
  }

  /** A placeholder whose key is not in the context stays literally in the text. */
  lemma ExampleMissing<D>(dump: Value<D> -> string)
    ensures Interpolate("{missing}", map[], dump) == "{missing}"
  {
    InterpolateEmptyContext("{missing}", dump);
  }

  /** An array value is rendered by the debug dump. */
  lemma ExampleArray<D>(items: D, dump: Value<D> -> string)
    ensures Interpolate("{x}", map["x" := Array(items)], dump) == dump(Array(items))
  {
    var ctx: map<string, Value<D>> := map["x" := Array(items)];
    assert "{x}" == "" + Brace("x") + "";
    assert Interpolate("", ctx, dump) == "";
    InterpolatePlaceholder("", "x", "", ctx, dump);
  }

  /** A replacement that itself looks like a placeholder is not interpolated again. */
  lemma ExampleNoRescan<D>(dump: Value<D> -> string)
    ensures Interpolate("{a}", map["a" := Scalar("{b}"), "b" := Scalar("x")], dump) == "{b}"
  {
    var ctx: map<string, Value<D>> := map["a" := Scalar("{b}"), "b" := Scalar("x")];
    assert "{a}" == "" + Brace("a") + "";
    assert Interpolate("", ctx, dump) == "";
    InterpolatePlaceholder("", "a", "", ctx, dump);
  }

  /**
   * A message that is exactly one placeholder of the context becomes that
   * value, even when shorter placeholders also match at its start: the longest
   * key wins.
   */
  lemma InterpolateWholePlaceholder<D>(k: string, ctx: map<string, Value<D>>, dump: Value<D> -> string)
    requires k in ctx
    ensures Interpolate(Brace(k), ctx, dump) == Stringify(ctx[k], dump)
  {
    var s := Brace(k);
    var pairs := Placeholders(ctx, dump);
    assert s[..|s|] == s;
    assert MatchAtHead(s, pairs) == Some(|s|);
    assert s[|s|..] == [];
    assert Strtr(s, pairs) == pairs[s] + Strtr([], pairs);
  }

  /** Literal facts about `"{a}{b}"`: it is the placeholder of key `a}{b` and starts with the placeholder of key `a`. */
  lemma LongestShape()
    ensures "{a}{b}" == Brace("a}{b")
    ensures "{a}{b}"[..3] == Brace("a")
  {
  }

  /** In `"{a}{b}"` with keys `a` and `a}{b`, the placeholder `{a}` also matches at the start, but `{a}{b}` is longer and wins. */
  lemma ExampleLongestWins<D>(dump: Value<D> -> string)
    ensures Interpolate("{a}{b}", map["a" := Scalar("1"), "a}{b" := Scalar("2")], dump) == "2"
  {
    LongestShape();
    InterpolateWholePlaceholder("a}{b", map["a" := Scalar("1"), "a}{b" := Scalar("2")], dump);
  }
}
