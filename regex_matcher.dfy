/**
 * The test suite's matcher of token patterns against lists: a token is a
 * symbol to be matched once (`Single`), any number of times (`ZeroOrMore`)
 * or at least once (`OneOrMore`); the `match` of the symbols is a parameter.
 *
 * `Matches` is the matcher as written; `MatchesFixed` is the matcher with
 * its two defects corrected, and `Accepts` is the reference meaning of a
 * pattern (each token takes a chunk of the data). The stress test's
 * generated inputs are accepted by both matchers.
 */
module RegexMatcher {

  datatype Token<T> = Single(symbol: T) | ZeroOrMore(symbol: T) | OneOrMore(symbol: T)

  // ---------------------------------------------------------------------------
  // Reference meaning

  /** A chunk of the data fits a token: every element matches its symbol, in a count the token allows. */
  ghost predicate ChunkFits<T>(t: Token<T>, chunk: seq<T>, m: (T, T) -> bool)
  {
    && (forall k :: 0 <= k < |chunk| ==> m(t.symbol, chunk[k]))
    && match t
       case Single(_) => |chunk| == 1
       case ZeroOrMore(_) => true
       case OneOrMore(_) => |chunk| >= 1
  }

  /** The data splits into one fitting chunk per token, in order. */
  ghost predicate Accepts<T>(p: seq<Token<T>>, d: seq<T>, m: (T, T) -> bool)
    decreases |p|
  {
    if p == [] then d == []
    else exists k :: 0 <= k <= |d| && ChunkFits(p[0], d[..k], m) && Accepts(p[1..], d[k..], m)
  }

  // ---------------------------------------------------------------------------
  // The matcher as written

  /**
   * `matches(pattern, data)`. Every call drops the head of the pattern or of
   * the data, so the sum of the lengths decreases.
   */
  predicate Matches<T>(p: seq<Token<T>>, d: seq<T>, m: (T, T) -> bool)
    decreases |p| + |d|
  {
    if p == [] then d == []
    else if d == [] then false
    else match p[0]
      case Single(s) => m(s, d[0]) && Matches(p[1..], d[1..], m)
      case ZeroOrMore(s) =>
        if m(s, d[0]) then Matches(p, d[1..], m) || Matches(p[1..], d[1..], m)
        else Matches(p[1..], d, m)
      case OneOrMore(s) => m(s, d[0]) && (Matches(p, d[1..], m) || Matches(p[1..], d[1..], m))
  }

  /** The empty pattern matches exactly the empty list. */
  lemma MatchesEmptyPattern<T>(d: seq<T>, m: (T, T) -> bool)
    ensures Matches([], d, m) <==> d == []
  {
  }

  /** A non-empty pattern never matches the empty list, even one made only of `ZeroOrMore` tokens. */
  lemma MatchesEmptyData<T>(p: seq<Token<T>>, m: (T, T) -> bool)
    requires p != []
    ensures !Matches(p, [], m)
  {
  }

  /** Whatever the matcher as written accepts, the reference meaning accepts. */
  lemma {:induction false} MatchesSound<T>(p: seq<Token<T>>, d: seq<T>, m: (T, T) -> bool)
    requires Matches(p, d, m)
    ensures MatchesFixed(p, d, m)
    decreases |p| + |d|
  {
    if p != [] {
      match p[0]
      case Single(s) =>
        MatchesSound(p[1..], d[1..], m);
      case ZeroOrMore(s) =>
        if m(s, d[0]) {
          if Matches(p, d[1..], m) {
            MatchesSound(p, d[1..], m);
          } else {
            MatchesSound(p[1..], d[1..], m);
            assert MatchesFixed(p, d[1..], m);
          }
        } else {
          MatchesSound(p[1..], d, m);
        }
      case OneOrMore(s) =>
        if Matches(p, d[1..], m) {
          MatchesSound(p, d[1..], m);
        } else {
          MatchesSound(p[1..], d[1..], m);
        }
    }
  }

  /** As written, a lone `ZeroOrMore` token does not match the empty list, which its meaning accepts. */
  lemma MatchesRejectsEmptyStar()
    ensures var p := [ZeroOrMore('a')];
      !Matches(p, [], (x: char, y: char) => x == y)
      && Accepts(p, [], (x: char, y: char) => x == y)
  {
    var m := (x: char, y: char) => x == y;
    var p := [ZeroOrMore('a')];
    assert ChunkFits(p[0], [], m);
    assert Accepts(p[1..], [][0..], m);
  }

  /** As written, "a*a" does not match "a": once the symbol matches, the `ZeroOrMore` token is never skipped. */
  lemma MatchesRejectsStarBeforeSame()
    ensures var p := [ZeroOrMore('a'), Single('a')];
      !Matches(p, ['a'], (x: char, y: char) => x == y)
      && Accepts(p, ['a'], (x: char, y: char) => x == y)
  {
    var m := (x: char, y: char) => x == y;
    var p := [ZeroOrMore('a'), Single('a')];
    assert !Matches(p[1..], [], m);
    assert ChunkFits(p[0], ['a'][..0], m);
    assert ChunkFits(p[1], ['a'][..1], m);
    assert Accepts(p[2..], ['a'][1..], m);
    assert Accepts(p[1..], ['a'], m);
  }

  // ---------------------------------------------------------------------------
  // The matcher corrected

  /**
   * `matches` with the intended meaning: an exhausted list still matches
   * `ZeroOrMore` tokens, and a `ZeroOrMore` token may be skipped even when
   * its symbol matches.
   */
  predicate MatchesFixed<T>(p: seq<Token<T>>, d: seq<T>, m: (T, T) -> bool)
    decreases |p| + |d|
  {
    if p == [] then d == []
    else match p[0]
      case Single(s) => d != [] && m(s, d[0]) && MatchesFixed(p[1..], d[1..], m)
      case ZeroOrMore(s) =>
        MatchesFixed(p[1..], d, m) || (d != [] && m(s, d[0]) && MatchesFixed(p, d[1..], m))
      case OneOrMore(s) =>
        d != [] && m(s, d[0]) && (MatchesFixed(p, d[1..], m) || MatchesFixed(p[1..], d[1..], m))
  }

  /** A fitting chunk of a repeating token grows by one matching element in front. */
  lemma ChunkFitsCons<T>(t: Token<T>, d: seq<T>, k: nat, m: (T, T) -> bool)
    requires !t.Single? && 0 < |d| && k < |d|
    requires m(t.symbol, d[0]) && ChunkFits(t, d[1..][..k], m)
    ensures ChunkFits(t, d[..k + 1], m)
  {
    var whole, tail := d[..k + 1], d[1..][..k];
    assert forall j :: 1 <= j < k + 1 ==> whole[j] == tail[j - 1];
  }

  /** A fitting chunk of a repeating token longer than one element loses its first element and still fits. */
  lemma ChunkFitsTail<T>(t: Token<T>, d: seq<T>, k: nat, m: (T, T) -> bool)
    requires !t.Single? && 1 <= k <= |d|
    requires ChunkFits(t, d[..k], m)
    requires t.OneOrMore? ==> k >= 2
    ensures ChunkFits(t, d[1..][..k - 1], m)
  {
    var whole, tail := d[..k], d[1..][..k - 1];
    assert forall j :: 0 <= j < k - 1 ==> tail[j] == whole[j + 1];
  }

  /** The corrected matcher accepts exactly what the pattern means. */
  lemma {:induction false} MatchesFixedIsAccepts<T>(p: seq<Token<T>>, d: seq<T>, m: (T, T) -> bool)
    ensures MatchesFixed(p, d, m) <==> Accepts(p, d, m)
    decreases |p| + |d|
  {
    if p != [] {
      FixedToAccepts(p, d, m);
      AcceptsToFixed(p, d, m);
    }
  }

  lemma {:induction false} FixedToAccepts<T>(p: seq<Token<T>>, d: seq<T>, m: (T, T) -> bool)
    requires p != []
    ensures MatchesFixed(p, d, m) ==> Accepts(p, d, m)
    decreases |p| + |d|, 0
  {
    if MatchesFixed(p, d, m) {
      match p[0]
      case Single(s) =>
        MatchesFixedIsAccepts(p[1..], d[1..], m);
        assert ChunkFits(p[0], d[..1], m);
      case ZeroOrMore(s) =>
        if MatchesFixed(p[1..], d, m) {
          MatchesFixedIsAccepts(p[1..], d, m);
          assert ChunkFits(p[0], d[..0], m) && d[0..] == d;
        } else {
          MatchesFixedIsAccepts(p, d[1..], m);
          var k :| 0 <= k <= |d[1..]| && ChunkFits(p[0], d[1..][..k], m) && Accepts(p[1..], d[1..][k..], m);
          ChunkFitsCons(p[0], d, k, m);
          assert d[k + 1..] == d[1..][k..];
        }
      case OneOrMore(s) =>
        if MatchesFixed(p, d[1..], m) {
          MatchesFixedIsAccepts(p, d[1..], m);
          var k :| 0 <= k <= |d[1..]| && ChunkFits(p[0], d[1..][..k], m) && Accepts(p[1..], d[1..][k..], m);
          ChunkFitsCons(p[0], d, k, m);
          assert d[k + 1..] == d[1..][k..];
        } else {
          MatchesFixedIsAccepts(p[1..], d[1..], m);
          assert ChunkFits(p[0], d[..1], m);
        }
    }
  }

  lemma {:induction false} AcceptsToFixed<T>(p: seq<Token<T>>, d: seq<T>, m: (T, T) -> bool)
    requires p != []
    ensures Accepts(p, d, m) ==> MatchesFixed(p, d, m)
    decreases |p| + |d|, 0
  {
    if Accepts(p, d, m) {
      var k :| 0 <= k <= |d| && ChunkFits(p[0], d[..k], m) && Accepts(p[1..], d[k..], m);
      if k == 0 {
        MatchesFixedIsAccepts(p[1..], d, m);
        assert d[0..] == d;
      } else {
        assert d[..k][0] == d[0];
        if p[0].Single? || (p[0].OneOrMore? && k == 1) {
          MatchesFixedIsAccepts(p[1..], d[1..], m);
          assert d[k..] == d[1..];
        } else {
          ChunkFitsTail(p[0], d, k, m);
          assert d[1..][k - 1..] == d[k..];
          assert Accepts(p, d[1..], m);
          MatchesFixedIsAccepts(p, d[1..], m);
        }
      }
    }
  }

  /** Whatever the matcher as written accepts, the pattern means. */
  lemma MatchesImpliesAccepts<T>(p: seq<Token<T>>, d: seq<T>, m: (T, T) -> bool)
    requires Matches(p, d, m)
    ensures Accepts(p, d, m)
  {
    MatchesSound(p, d, m);
    MatchesFixedIsAccepts(p, d, m);
  }

  // ---------------------------------------------------------------------------
  // Pattern strings

  /** `MatchableStr`: a string symbol, matching an equal string. */
  datatype MatchableStr = MatchableStr(value: string)

  function MatchStr(a: MatchableStr, b: MatchableStr): bool
  {
    a == b
  }

  /** `str2Matchable` as a function: a character followed by '*' or '+' gives a repeating token and consumes the quantifier. */
  function ParsePattern(s: string): (r: seq<Token<MatchableStr>>)
    ensures |r| <= |s|
    decreases |s|
  {
    if s == [] then []
    else if |s| >= 2 && s[1] == '*' then [ZeroOrMore(MatchableStr([s[0]]))] + ParsePattern(s[2..])
    else if |s| >= 2 && s[1] == '+' then [OneOrMore(MatchableStr([s[0]]))] + ParsePattern(s[2..])
    else [Single(MatchableStr([s[0]]))] + ParsePattern(s[1..])
  }

  /** `str2Matchable(str)`. */
  method Str2Matchable(str: string) returns (res: seq<Token<MatchableStr>>)
    ensures res == ParsePattern(str)
  {
    res := [];
    var i := 0;
    while i <= |str| - 1
      invariant 0 <= i <= |str|
      invariant res + ParsePattern(str[i..]) == ParsePattern(str)
    {
      ghost var rest := str[i..];
      assert rest[0] == str[i];
      if i < |str| - 1 && str[i + 1] == '*' {
        var t := ZeroOrMore(MatchableStr([str[i]]));
        assert rest[1] == '*' && rest[2..] == str[i + 2..];
        assert ParsePattern(rest) == [t] + ParsePattern(str[i + 2..]);
        assert (res + [t]) + ParsePattern(str[i + 2..]) == res + ([t] + ParsePattern(str[i + 2..]));
        res := res + [t];
        i := i + 2;
      } else if i < |str| - 1 && str[i + 1] == '+' {
        var t := OneOrMore(MatchableStr([str[i]]));
        assert rest[1] == '+' && rest[2..] == str[i + 2..];
        assert ParsePattern(rest) == [t] + ParsePattern(str[i + 2..]);
        assert (res + [t]) + ParsePattern(str[i + 2..]) == res + ([t] + ParsePattern(str[i + 2..]));
        res := res + [t];
        i := i + 2;
      } else {
        var t := Single(MatchableStr([str[i]]));
        assert rest[1..] == str[i + 1..];
        assert ParsePattern(rest) == [t] + ParsePattern(str[i + 1..]);
        assert (res + [t]) + ParsePattern(str[i + 1..]) == res + ([t] + ParsePattern(str[i + 1..]));
        res := res + [t];
        i := i + 1;
      }
    }
  }

  /** The pattern text a token list stands for. */
  function Render(ts: seq<Token<MatchableStr>>): string
  {
    if ts == [] then ""
    else
      var t := ts[0];
      t.symbol.value
      + (match t case Single(_) => "" case ZeroOrMore(_) => "*" case OneOrMore(_) => "+")
      + Render(ts[1..])
  }

  /** Parsing loses nothing: rendering the parsed tokens gives back the text. */
  lemma {:induction false} RenderParsePattern(s: string)
    ensures Render(ParsePattern(s)) == s
    decreases |s|
  {
    if s != [] {
      if |s| >= 2 && (s[1] == '*' || s[1] == '+') {
        RenderParsePattern(s[2..]);
        assert s == [s[0]] + [s[1]] + s[2..];
      } else {
        RenderParsePattern(s[1..]);
        assert s == [s[0]] + s[1..];
      }
    }
  }

  /** Tokens over single characters other than the quantifiers survive rendering and parsing. */
  predicate PlainSymbols(ts: seq<Token<MatchableStr>>)
  {
    forall i :: 0 <= i < |ts| ==> |ts[i].symbol.value| == 1 && ts[i].symbol.value[0] != '*' && ts[i].symbol.value[0] != '+'
  }

  lemma {:induction false} ParsePatternRender(ts: seq<Token<MatchableStr>>)
    requires PlainSymbols(ts)
    ensures ParsePattern(Render(ts)) == ts
    decreases |ts|
  {
    if ts != [] {
      var t := ts[0];
      var tail := Render(ts[1..]);
      assert PlainSymbols(ts[1..]) by {
        assert forall i :: 0 <= i < |ts[1..]| ==> ts[1..][i] == ts[i + 1];
      }
      ParsePatternRender(ts[1..]);
      var c := t.symbol.value[0];
      assert t.symbol.value == [c];
      match t
      case Single(_) =>
        var s := [c] + tail;
        assert Render(ts) == s;
        assert s[1..] == tail;
        if |s| >= 2 {
          assert s[1] == tail[0];
          assert tail[0] == ts[1].symbol.value[0];
        }
      case ZeroOrMore(_) =>
        var s := [c] + "*" + tail;
        assert Render(ts) == s;
        assert s[2..] == tail;
      case OneOrMore(_) =>
        var s := [c] + "+" + tail;
        assert Render(ts) == s;
        assert s[2..] == tail;
    }
  }

  // ---------------------------------------------------------------------------
  // The stress test's inputs

  /** `generatePattern`: each skeleton letter followed by '*' where `star` says so, else '+'. */
  function GeneratePattern(skeleton: seq<char>, star: seq<bool>): string
    requires |star| == |skeleton|
  {
    if skeleton == [] then ""
    else [skeleton[0], if star[0] then '*' else '+'] + GeneratePattern(skeleton[1..], star[1..])
  }

  function Repeat(c: char, n: nat): string
  {
    if n == 0 then "" else [c] + Repeat(c, n - 1)
  }

  /** `generateString`: each skeleton letter repeated `counts` times. */
  function GenerateString(skeleton: seq<char>, counts: seq<nat>): string
    requires |counts| == |skeleton|
  {
    if skeleton == [] then "" else Repeat(skeleton[0], counts[0]) + GenerateString(skeleton[1..], counts[1..])
  }

  /** `str.map { MatchableStr(it.toString()) }`. */
  function Symbols(s: string): (r: seq<MatchableStr>)
    ensures |r| == |s| && forall i :: 0 <= i < |s| ==> r[i] == MatchableStr([s[i]])
  {
    seq(|s|, i requires 0 <= i < |s| => MatchableStr([s[i]]))
  }

  /** The tokens a generated pattern parses into. */
  function SkeletonTokens(skeleton: seq<char>, star: seq<bool>): seq<Token<MatchableStr>>
    requires |star| == |skeleton|
  {
    if skeleton == [] then []
    else var sym := MatchableStr([skeleton[0]]);
      [if star[0] then ZeroOrMore(sym) else OneOrMore(sym)] + SkeletonTokens(skeleton[1..], star[1..])
  }

  lemma {:induction false} ParseGeneratedPattern(skeleton: seq<char>, star: seq<bool>)
    requires |star| == |skeleton|
    ensures ParsePattern(GeneratePattern(skeleton, star)) == SkeletonTokens(skeleton, star)
    decreases |skeleton|
  {
    if skeleton != [] {
      ParseGeneratedPattern(skeleton[1..], star[1..]);
      var s := GeneratePattern(skeleton, star);
      assert s[2..] == GeneratePattern(skeleton[1..], star[1..]);
    }
  }

  /** A chunk of matching elements in front of accepted data is taken by a repeating head token. */
  lemma {:induction false} MatchesChunk<T>(t: Token<T>, p: seq<Token<T>>, chunk: seq<T>, d: seq<T>, m: (T, T) -> bool)
    requires !t.Single? && |chunk| >= 1
    requires forall k :: 0 <= k < |chunk| ==> m(t.symbol, chunk[k])
    requires Matches(p, d, m)
    ensures Matches([t] + p, chunk + d, m)
    decreases |chunk|
  {
    var all := chunk + d;
    assert ([t] + p)[1..] == p;
    if |chunk| == 1 {
      assert all[1..] == d;
    } else {
      MatchesChunk(t, p, chunk[1..], d, m);
      assert all[1..] == chunk[1..] + d;
    }
  }

  lemma {:induction false} SymbolsConcat(a: string, b: string)
    ensures Symbols(a + b) == Symbols(a) + Symbols(b)
  {
  }

  /**
   * The stress test's claim on the matcher as written: a pattern generated
   * from a skeleton of letters matches the data that repeats each letter at
   * least once, and so does the corrected matcher.
   */
  lemma {:induction false} StressInputsMatch(skeleton: seq<char>, star: seq<bool>, counts: seq<nat>)
    requires |star| == |skeleton| && |counts| == |skeleton|
    requires forall i :: 0 <= i < |counts| ==> counts[i] >= 1
    ensures Matches(ParsePattern(GeneratePattern(skeleton, star)), Symbols(GenerateString(skeleton, counts)), MatchStr)
    ensures MatchesFixed(ParsePattern(GeneratePattern(skeleton, star)), Symbols(GenerateString(skeleton, counts)), MatchStr)
    decreases |skeleton|
  {
    ParseGeneratedPattern(skeleton, star);
    StressTokensMatch(skeleton, star, counts);
    MatchesSound(SkeletonTokens(skeleton, star), Symbols(GenerateString(skeleton, counts)), MatchStr);
  }

  lemma {:induction false} StressTokensMatch(skeleton: seq<char>, star: seq<bool>, counts: seq<nat>)
    requires |star| == |skeleton| && |counts| == |skeleton|
    requires forall i :: 0 <= i < |counts| ==> counts[i] >= 1
    ensures Matches(SkeletonTokens(skeleton, star), Symbols(GenerateString(skeleton, counts)), MatchStr)
    decreases |skeleton|
  {
    if skeleton != [] {
      StressTokensMatch(skeleton[1..], star[1..], counts[1..]);
      var sym := MatchableStr([skeleton[0]]);
      var t := if star[0] then ZeroOrMore(sym) else OneOrMore(sym);
      var chunk := Repeat(skeleton[0], counts[0]);
      RepeatIs(skeleton[0], counts[0]);
      SymbolsConcat(chunk, GenerateString(skeleton[1..], counts[1..]));
      MatchesChunk(t, SkeletonTokens(skeleton[1..], star[1..]), Symbols(chunk), Symbols(GenerateString(skeleton[1..], counts[1..])), MatchStr);
    }
  }

  lemma {:induction false} RepeatIs(c: char, n: nat)
    ensures |Repeat(c, n)| == n && forall i :: 0 <= i < n ==> Repeat(c, n)[i] == c
  {
    if n > 0 {
      RepeatIs(c, n - 1);
    }
  }
}
