/**
 * String helpers shared by the formatting code: Kotlin's decimal rendering of
 * integers, `String.replace(Char, Char)`, `endsWith`, `split(String)` and
 * `joinToString`, and newline-terminated line blocks.
 */
module Text {
  import opened Wrappers

  // ---------------------------------------------------------------------------
  // Decimal rendering of integers ("$n" in Kotlin)

  predicate IsDigit(c: char) { '0' <= c <= '9' }

  predicate AllDigits(s: string) { forall i :: 0 <= i < |s| ==> IsDigit(s[i]) }

  function DigitChar(d: nat): (c: char)
    requires d < 10
    ensures IsDigit(c) && (c as int) - ('0' as int) == d
  {
    (('0' as int) + d) as char
  }

  function NatToString(n: nat): (r: string)
    ensures |r| > 0 && AllDigits(r)
    ensures n < 10 <==> |r| == 1
    decreases n
  {
    if n < 10 then [DigitChar(n)] else NatToString(n / 10) + [DigitChar(n % 10)]
  }

  /** The value of a non-empty string of decimal digits. */
  function DigitsValue(s: string): nat
    requires AllDigits(s)
  {
    if s == [] then 0
    else DigitsValue(s[..|s| - 1]) * 10 + ((s[|s| - 1] as int) - ('0' as int))
  }

  lemma {:induction false} NatToStringRoundTrip(n: nat)
    ensures DigitsValue(NatToString(n)) == n
    decreases n
  {
    if n >= 10 {
      NatToStringRoundTrip(n / 10);
      var s := NatToString(n);
      assert s[..|s| - 1] == NatToString(n / 10);
    }
  }

  /** Kotlin's `Int.toString()`: an optional minus sign and the decimal digits. */
  function IntToString(i: int): (r: string)
    ensures |r| > 0
    ensures i < 0 <==> r[0] == '-'
  {
    if i < 0 then "-" + NatToString(-i) else NatToString(i)
  }

  /** Reads back what IntToString writes. */
  function ParseInt(s: string): Option<int>
  {
    if |s| > 1 && s[0] == '-' && AllDigits(s[1..]) then
      var v: int := -(DigitsValue(s[1..]) as int);
      Some(v)
    else if |s| > 0 && AllDigits(s) then Some(DigitsValue(s))
    else None
  }

  lemma {:induction false} IntToStringRoundTrip(i: int)
    ensures ParseInt(IntToString(i)) == Some(i)
  {
    if i < 0 {
      var t := NatToString(-i);
      NatToStringRoundTrip(-i);
      var s := "-" + t;
      assert s == IntToString(i);
      assert s[1..] == t;
      assert |s| > 1 && s[0] == '-';
      assert ParseInt(s) == Some(-(DigitsValue(t) as int));
    } else {
      var t := NatToString(i);
      NatToStringRoundTrip(i);
      assert t[0] != '-' by { assert IsDigit(t[0]); }
      assert ParseInt(t) == Some(DigitsValue(t));
    }
  }

  // ---------------------------------------------------------------------------
  // Character replacement and suffixes

  /** Kotlin's `String.replace(oldChar, newChar)`. */
  function Replace(s: string, from: char, to: char): (r: string)
    ensures |r| == |s|
    ensures forall i :: 0 <= i < |s| ==> r[i] == (if s[i] == from then to else s[i])
  {
    if s == [] then [] else [if s[0] == from then to else s[0]] + Replace(s[1..], from, to)
  }

  lemma ReplaceRemovesAll(s: string, from: char, to: char)
    requires from != to
    ensures from !in Replace(s, from, to)
    ensures Replace(Replace(s, from, to), from, to) == Replace(s, from, to)
  {
    var r := Replace(s, from, to);
    assert forall i :: 0 <= i < |r| ==> r[i] != from;
  }

  predicate EndsWith(s: string, suffix: string)
  {
    |suffix| <= |s| && s[|s| - |suffix|..] == suffix
  }

  // ---------------------------------------------------------------------------
  // split / join

  /**
   * Kotlin's `CharSequence.split(delimiter)` for one literal, non-empty
   * delimiter: the pieces between non-overlapping occurrences found from the
   * left. The result is never empty; an empty string gives `[""]`.
   */
  function Split(s: string, sep: string): (r: seq<string>)
    requires |sep| > 0
    ensures |r| > 0
    decreases |s|
  {
    if |s| < |sep| then [s]
    else if s[..|sep|] == sep then [""] + Split(s[|sep|..], sep)
    else
      var rest := Split(s[1..], sep);
      [[s[0]] + rest[0]] + rest[1..]
  }

  /** `joinToString(sep)` of a non-empty list. */
  function Join(parts: seq<string>, sep: string): string
    requires |parts| > 0
  {
    if |parts| == 1 then parts[0] else parts[0] + sep + Join(parts[1..], sep)
  }

  lemma JoinConsHead(c: char, parts: seq<string>, sep: string)
    requires |parts| > 0
    ensures Join([[c] + parts[0]] + parts[1..], sep) == [c] + Join(parts, sep)
  {
    var q := [[c] + parts[0]] + parts[1..];
    assert q[1..] == parts[1..];
  }

  /** Joining the pieces of a split with the same delimiter gives back the string. */
  lemma {:induction false} JoinSplit(s: string, sep: string)
    requires |sep| > 0
    ensures Join(Split(s, sep), sep) == s
    decreases |s|
  {
    if |s| < |sep| {
    } else if s[..|sep|] == sep {
      var rest := Split(s[|sep|..], sep);
      assert Split(s, sep) == [""] + rest;
      JoinSplit(s[|sep|..], sep);
      JoinSepHead(rest, sep);
      assert s == sep + s[|sep|..];
    } else {
      var rest := Split(s[1..], sep);
      assert Split(s, sep) == [[s[0]] + rest[0]] + rest[1..];
      JoinSplit(s[1..], sep);
      JoinConsHead(s[0], rest, sep);
      assert s == [s[0]] + s[1..];
    }
  }

  lemma JoinSepHead(parts: seq<string>, sep: string)
    requires |parts| > 0
    ensures Join([""] + parts, sep) == sep + Join(parts, sep)
  {
    assert ([""] + parts)[1..] == parts;
  }

  /** `sep` occurs in `s` starting at position `i`. */
  predicate SepAt(s: string, i: int, sep: string)
  {
    0 <= i && i + |sep| <= |s| && s[i..i + |sep|] == sep
  }

  /** No occurrence of `sep` starts at any of the first `n` positions of `s`. */
  predicate NoSepStartsBefore(s: string, n: int, sep: string)
  {
    forall i :: 0 <= i < n ==> !SepAt(s, i, sep)
  }

  /** `sep` does not occur in `s`. */
  predicate Free(s: string, sep: string)
  {
    NoSepStartsBefore(s, |s|, sep)
  }

  /** Shifting a string by one character shifts every occurrence. */
  lemma SepAtTail(s: string, i: int, sep: string)
    requires |s| > 0 && 0 <= i
    ensures SepAt(s[1..], i, sep) <==> SepAt(s, i + 1, sep)
  {
    if i + |sep| <= |s[1..]| {
      assert s[1..][i..i + |sep|] == s[i + 1..i + 1 + |sep|];
    }
  }

  /** Splitting right after a piece `p` in which no delimiter starts (not even one overlapping the delimiter after it). */
  lemma {:induction false} SplitAfterPiece(p: string, sep: string, t: string)
    requires |sep| > 0
    requires NoSepStartsBefore(p + sep, |p|, sep)
    ensures Split(p + sep + t, sep) == [p] + Split(t, sep)
    decreases |p|
  {
    var s := p + sep + t;
    if p == [] {
      assert s[..|sep|] == sep;
      assert s[|sep|..] == t;
    } else {
      assert s[..|sep|] != sep by {
        assert !SepAt(p + sep, 0, sep);
        assert s[..|sep|] == (p + sep)[0..|sep|];
      }
      assert s[1..] == p[1..] + sep + t;
      assert (p + sep)[1..] == p[1..] + sep;
      forall i | 0 <= i < |p[1..]|
        ensures !SepAt(p[1..] + sep, i, sep)
      {
        SepAtTail(p + sep, i, sep);
      }
      SplitAfterPiece(p[1..], sep, t);
      assert [p[0]] + p[1..] == p;
    }
  }

  /** A string in which the delimiter never occurs is one piece. */
  lemma {:induction false} SplitPiece(p: string, sep: string)
    requires |sep| > 0 && Free(p, sep)
    ensures Split(p, sep) == [p]
    decreases |p|
  {
    if |p| >= |sep| {
      assert !SepAt(p, 0, sep);
      assert p[..|sep|] == p[0..|sep|];
      forall i | 0 <= i < |p[1..]|
        ensures !SepAt(p[1..], i, sep)
      {
        SepAtTail(p, i, sep);
      }
      SplitPiece(p[1..], sep);
      assert [p[0]] + p[1..] == p;
    }
  }

  /** Every piece but the last may be followed by the delimiter without a new occurrence starting inside it. */
  predicate Separable(parts: seq<string>, sep: string)
  {
    && (forall i :: 0 <= i < |parts| - 1 ==> NoSepStartsBefore(parts[i] + sep, |parts[i]|, sep))
    && (|parts| > 0 ==> Free(parts[|parts| - 1], sep))
  }

  /** Splitting the join of separable pieces gives back the pieces. */
  lemma {:induction false} SplitJoin(parts: seq<string>, sep: string)
    requires |parts| > 0 && |sep| > 0
    requires Separable(parts, sep)
    ensures Split(Join(parts, sep), sep) == parts
    decreases |parts|
  {
    if |parts| == 1 {
      SplitPiece(parts[0], sep);
    } else {
      assert Separable(parts[1..], sep) by {
        forall i | 0 <= i < |parts[1..]| - 1
          ensures NoSepStartsBefore(parts[1..][i] + sep, |parts[1..][i]|, sep)
        {
          assert parts[1..][i] == parts[i + 1];
        }
      }
      SplitJoin(parts[1..], sep);
      SplitAfterPiece(parts[0], sep, Join(parts[1..], sep));
    }
  }

  /** A one-character delimiter cannot start inside a piece that does not contain it. */
  lemma CharSeparable(p: string, c: char)
    requires c !in p
    ensures NoSepStartsBefore(p + [c], |p|, [c]) && Free(p, [c])
  {
    forall k | 0 <= k < |p|
      ensures !SepAt(p + [c], k, [c]) && !SepAt(p, k, [c])
    {
      assert (p + [c])[k..k + 1][0] == p[k];
      if k + 1 <= |p| { assert p[k..k + 1][0] == p[k]; }
    }
  }

  /** `joinToString(sep)` of any list: the empty list gives "". */
  function JoinToString(parts: seq<string>, sep: string): string
  {
    if parts == [] then "" else Join(parts, sep)
  }

  /** Joining two non-empty lists is joining each and putting the delimiter between. */
  lemma {:induction false} JoinAppend(a: seq<string>, b: seq<string>, sep: string)
    requires |a| > 0 && |b| > 0
    ensures Join(a + b, sep) == Join(a, sep) + sep + Join(b, sep)
    decreases |a|
  {
    if |a| > 1 {
      JoinAppend(a[1..], b, sep);
      assert (a + b)[1..] == a[1..] + b;
    } else {
      assert (a + b)[1..] == b;
    }
  }

  /** Lines without a newline, joined by newlines, split back into the same lines. */
  lemma SplitLines(lines: seq<string>)
    requires |lines| > 0
    requires forall i :: 0 <= i < |lines| ==> '\n' !in lines[i]
    ensures Split(Join(lines, "\n"), "\n") == lines
  {
    forall i | 0 <= i < |lines|
      ensures NoSepStartsBefore(lines[i] + "\n", |lines[i]|, "\n") && Free(lines[i], "\n")
    {
      CharSeparable(lines[i], '\n');
    }
    SplitJoin(lines, "\n");
  }

  // ---------------------------------------------------------------------------
  // Newline-terminated blocks of lines

  /** Each line followed by '\n', in order. */
  function Terminated(lines: seq<string>): string
  {
    if lines == [] then "" else lines[0] + "\n" + Terminated(lines[1..])
  }

  /** A block of newline-free lines splits back into exactly those lines plus the empty tail. */
  lemma {:induction false} SplitTerminated(lines: seq<string>)
    requires forall i :: 0 <= i < |lines| ==> '\n' !in lines[i]
    ensures Split(Terminated(lines), "\n") == lines + [""]
    decreases |lines|
  {
    if lines == [] {
    } else {
      SplitTerminated(lines[1..]);
      CharSeparable(lines[0], '\n');
      SplitAfterPiece(lines[0], "\n", Terminated(lines[1..]));
      assert lines == [lines[0]] + lines[1..];
    }
  }
}
