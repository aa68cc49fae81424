/**
 * Character and string primitives used by the turn engine: the fixed
 * white-space set shared by `Trim` and the regex class `\s`, ASCII digits
 * and case folding, `String.Split(char)`, `Trim`, decimal rendering of
 * integers (C# string interpolation) and its inverse.
 */
module Strings {

  datatype Option<T> = None | Some(value: T)

  /** White space for `Trim` and `\s`: the ASCII subset of .NET's set. */
  predicate IsSpace(c: char) {
    c == ' ' || c == '\t' || c == '\n' || c == '\r' || c == '\U{0B}' || c == '\U{0C}'
  }

  /** `\d`, restricted to ASCII digits. */
  predicate IsDigit(c: char) {
    '0' <= c <= '9'
  }

  function DigitValue(c: char): (d: nat)
    requires IsDigit(c)
    ensures d < 10
  {
    (c as int) - ('0' as int)
  }

  function DigitChar(d: nat): (c: char)
    requires d < 10
    ensures IsDigit(c) && DigitValue(c) == d
  {
    (('0' as int) + d) as char
  }

  /** ASCII case folding, as used by `RegexOptions.IgnoreCase` and `OrdinalIgnoreCase` here. */
  function Lower(c: char): char {
    if 'A' <= c <= 'Z' then ((c as int) + 32) as char else c
  }

  /** `s` starts with `prefix`, comparing characters after case folding. */
  function StartsWithIgnoreCase(s: string, prefix: string): (b: bool)
    ensures b ==> |prefix| <= |s|
    decreases |prefix|
  {
    |prefix| == 0 || (|s| > 0 && Lower(s[0]) == Lower(prefix[0]) && StartsWithIgnoreCase(s[1..], prefix[1..]))
  }

  /** The prefix test compares the first `|prefix|` characters one by one. */
  lemma {:induction false} StartsWithIgnoreCaseMeans(s: string, prefix: string)
    ensures StartsWithIgnoreCase(s, prefix) <==>
      |prefix| <= |s| && forall i :: 0 <= i < |prefix| ==> Lower(s[i]) == Lower(prefix[i])
    decreases |prefix|
  {
    if |prefix| > 0 && |s| > 0 {
      StartsWithIgnoreCaseMeans(s[1..], prefix[1..]);
      if Lower(s[0]) == Lower(prefix[0]) && StartsWithIgnoreCase(s[1..], prefix[1..]) {
        assert forall i :: 1 <= i < |prefix| ==> Lower(s[i]) == Lower(prefix[i]) by {
          forall i | 1 <= i < |prefix| ensures Lower(s[i]) == Lower(prefix[i]) {
            assert s[1..][i - 1] == s[i] && prefix[1..][i - 1] == prefix[i];
          }
        }
      }
      if |prefix| <= |s| && forall i :: 0 <= i < |prefix| ==> Lower(s[i]) == Lower(prefix[i]) {
        forall i | 0 <= i < |prefix| - 1 ensures Lower(s[1..][i]) == Lower(prefix[1..][i]) {
          assert s[1..][i] == s[i + 1] && prefix[1..][i] == prefix[i + 1];
        }
      }
    }
  }

  /** Every text starts with itself. */
  lemma {:induction false} StartsWithItself(prefix: string, rest: string)
    ensures StartsWithIgnoreCase(prefix + rest, prefix)
    decreases |prefix|
  {
    if |prefix| > 0 {
      assert (prefix + rest)[1..] == prefix[1..] + rest;
      StartsWithItself(prefix[1..], rest);
    }
  }

  /** No character of `s` folds to `c`. */
  predicate Avoids(s: string, c: char) {
    forall i :: 0 <= i < |s| ==> Lower(s[i]) != c
  }

  lemma DigitsAvoidLetters(d: string, c: char)
    requires forall i :: 0 <= i < |d| ==> IsDigit(d[i])
    requires !IsDigit(c)
    ensures Avoids(d, c)
  {
  }

  lemma DigitsLack(d: string, c: char)
    requires AllDigits(d) && !IsDigit(c)
    ensures c !in d
  {
  }

  // ---------------------------------------------------------------------
  // White space: `\s*` and `Trim()`
  // ---------------------------------------------------------------------

  /** What `\s*` consumes and `TrimStart()` removes: the longest white-space prefix. */
  function SkipSpaces(s: string): (r: string)
    ensures |r| <= |s| && r == s[|s| - |r|..]
    ensures forall i :: 0 <= i < |s| - |r| ==> IsSpace(s[i])
    ensures r == [] || !IsSpace(r[0])
    decreases |s|
  {
    if |s| > 0 && IsSpace(s[0]) then SkipSpaces(s[1..]) else s
  }

  /** What `TrimEnd()` leaves: `s` without its longest white-space suffix. */
  function DropTrailingSpaces(s: string): (r: string)
    ensures |r| <= |s| && r == s[..|r|]
    ensures forall i :: |r| <= i < |s| ==> IsSpace(s[i])
    ensures r == [] || !IsSpace(r[|r| - 1])
    decreases |s|
  {
    if |s| > 0 && IsSpace(s[|s| - 1]) then DropTrailingSpaces(s[..|s| - 1]) else s
  }

  /** `String.Trim()` over the white-space set above. */
  function Trim(s: string): (r: string)
    ensures r == [] || (!IsSpace(r[0]) && !IsSpace(r[|r| - 1]))
    ensures |r| <= |s|
  {
    var t := SkipSpaces(s);
    var r := DropTrailingSpaces(t);
    assert r == [] ==> t == [];
    r
  }

  /**
   * What `Trim` removes: the result is a middle part of `s`, and everything
   * cut off before and after it is white space.
   */
  lemma TrimMeans(s: string)
    ensures exists a, b :: (0 <= a <= b <= |s| && Trim(s) == s[a..b] &&
      (forall i :: 0 <= i < a ==> IsSpace(s[i])) && (forall i :: b <= i < |s| ==> IsSpace(s[i])))
  {
    var a, b := TrimCuts(s);
  }

  /** Where `Trim` cuts: after the leading white space and before the trailing white space. */
  lemma TrimCuts(s: string) returns (a: nat, b: nat)
    ensures a <= b <= |s| && Trim(s) == s[a..b]
    ensures forall i :: 0 <= i < a ==> IsSpace(s[i])
    ensures forall i :: b <= i < |s| ==> IsSpace(s[i])
  {
    var t := SkipSpaces(s);
    var r := DropTrailingSpaces(t);
    a := |s| - |t|;
    b := a + |r|;
    assert Trim(s) == s[a..b] by {
      assert t == s[a..];
    }
    assert forall i :: b <= i < |s| ==> IsSpace(s[i]) by {
      forall i | b <= i < |s| ensures IsSpace(s[i]) {
        assert s[i] == t[i - a];
      }
    }
  }

  lemma SkipSpacesOfNonSpace(s: string)
    requires s == [] || !IsSpace(s[0])
    ensures SkipSpaces(s) == s
  {
  }

  lemma {:induction false} TrimOfTrimmed(s: string)
    requires s == [] || (!IsSpace(s[0]) && !IsSpace(s[|s| - 1]))
    ensures Trim(s) == s
  {
    SkipSpacesOfNonSpace(s);
  }

  lemma {:induction false} TrimAfterSpace(s: string)
    requires s != [] && !IsSpace(s[0]) && !IsSpace(s[|s| - 1])
    ensures Trim(" " + s) == s
  {
    assert (" " + s)[1..] == s;
    SkipSpacesOfNonSpace(s);
  }

  /** A text with no white space at either end is its own trim, even after one leading space. */
  lemma TrimOfUnpadded(s: string)
    requires s != [] && !IsSpace(s[0]) && !IsSpace(s[|s| - 1])
    ensures Trim(s) == s && Trim(" " + s) == s
  {
    TrimOfTrimmed(s);
    TrimAfterSpace(s);
  }

  // ---------------------------------------------------------------------
  // `String.Split(char)`
  // ---------------------------------------------------------------------

  /** Inverse of `Split`: the pieces glued back together with the separator. */
  function Join(parts: seq<string>, sep: char): string
    requires |parts| >= 1
  {
    if |parts| == 1 then parts[0] else parts[0] + [sep] + Join(parts[1..], sep)
  }

  /**
   * `String.Split(sep)`: every occurrence of `sep` ends a piece, so there is
   * one piece more than there are separators, and empty pieces are kept.
   */
  function Split(s: string, sep: char): (parts: seq<string>)
    ensures |parts| >= 1
    ensures forall i :: 0 <= i < |parts| ==> sep !in parts[i]
    decreases |s|
  {
    if |s| == 0 then [""]
    else
      var rest := Split(s[1..], sep);
      if s[0] == sep then [""] + rest
      else [[s[0]] + rest[0]] + rest[1..]
  }

  /** Joining the pieces with the separator gives back the text, and there is one piece per separator plus one. */
  lemma {:induction false} SplitJoin(s: string, sep: char)
    ensures Join(Split(s, sep), sep) == s
    ensures |Split(s, sep)| == 1 + CountOf(s, sep)
    decreases |s|
  {
    if |s| > 0 {
      var rest := Split(s[1..], sep);
      SplitJoin(s[1..], sep);
      if s[0] == sep {
        JoinEmptyHead(rest, sep);
        assert s == [sep] + s[1..];
      } else {
        JoinExtendedHead(s[0], rest, sep);
        assert s == [s[0]] + s[1..];
      }
    }
  }

  lemma JoinEmptyHead(r: seq<string>, sep: char)
    requires |r| >= 1
    ensures Join([""] + r, sep) == [sep] + Join(r, sep)
  {
    assert ([""] + r)[1..] == r;
    assert ([""] + r)[0] == "";
  }

  lemma JoinExtendedHead(c: char, r: seq<string>, sep: char)
    requires |r| >= 1
    ensures Join([[c] + r[0]] + r[1..], sep) == [c] + Join(r, sep)
  {
    var parts := [[c] + r[0]] + r[1..];
    if |r| > 1 {
      assert parts[1..] == r[1..];
      assert Join(parts, sep) == ([c] + r[0]) + [sep] + Join(r[1..], sep);
    }
  }

  /** Splitting the joined pieces gives them back, when no piece holds the separator. */
  lemma {:induction false} SplitOfJoin(parts: seq<string>, sep: char)
    requires |parts| >= 1
    requires forall i :: 0 <= i < |parts| ==> sep !in parts[i]
    ensures Split(Join(parts, sep), sep) == parts
    decreases |parts|
  {
    if |parts| == 1 {
      SplitWithoutSeparator(parts[0], sep);
    } else {
      SplitOfJoin(parts[1..], sep);
      SplitAtSeparator(parts[0], Join(parts[1..], sep), sep);
      assert [parts[0]] + parts[1..] == parts;
    }
  }

  /** A non-empty text with no white space at either end, as `Trim` leaves it. */
  predicate Unpadded(s: string) {
    s != [] && !IsSpace(s[0]) && !IsSpace(s[|s| - 1])
  }

  /** `Select(p => p.Trim())`. */
  function TrimAll(pieces: seq<string>): (parts: seq<string>)
    ensures |parts| == |pieces|
    decreases |pieces|
  {
    if |pieces| == 0 then [] else [Trim(pieces[0])] + TrimAll(pieces[1..])
  }

  /** Each part is its piece trimmed. */
  lemma {:induction false} TrimAllMeans(pieces: seq<string>)
    ensures forall i :: 0 <= i < |pieces| ==> TrimAll(pieces)[i] == Trim(pieces[i])
    decreases |pieces|
  {
    if |pieces| > 0 {
      var tail := pieces[1..];
      TrimAllMeans(tail);
      assert TrimAll(pieces) == [Trim(pieces[0])] + TrimAll(tail);
      forall i | 1 <= i < |pieces| ensures TrimAll(pieces)[i] == Trim(pieces[i]) {
        assert tail[i - 1] == pieces[i];
      }
    }
  }

  function CountOf(s: string, c: char): nat
    decreases |s|
  {
    if |s| == 0 then 0 else (if s[0] == c then 1 else 0) + CountOf(s[1..], c)
  }

  lemma {:induction false} SplitWithoutSeparator(s: string, sep: char)
    requires sep !in s
    ensures Split(s, sep) == [s]
    decreases |s|
  {
    if |s| > 0 {
      SplitWithoutSeparator(s[1..], sep);
      assert [s[0]] + s[1..] == s;
    }
  }

  lemma {:induction false} SplitAtSeparator(a: string, b: string, sep: char)
    requires sep !in a
    ensures Split(a + [sep] + b, sep) == [a] + Split(b, sep)
    decreases |a|
  {
    var s := a + [sep] + b;
    if |a| == 0 {
      assert s[1..] == b;
    } else {
      assert s[1..] == a[1..] + [sep] + b;
      SplitAtSeparator(a[1..], b, sep);
      assert [a[0]] + a[1..] == a;
    }
  }

  // ---------------------------------------------------------------------
  // Decimal numerals: `\d+`, `int.Parse` and `$"{n}"`
  // ---------------------------------------------------------------------

  predicate AllDigits(d: string) {
    forall i :: 0 <= i < |d| ==> IsDigit(d[i])
  }

  /** The longest digit prefix: what a greedy `\d+` or `\d*` consumes. */
  function DigitPrefix(s: string): (d: string)
    ensures |d| <= |s| && d == s[..|d|]
    ensures AllDigits(d)
    ensures |d| == |s| || !IsDigit(s[|d|])
    decreases |s|
  {
    if |s| > 0 && IsDigit(s[0]) then [s[0]] + DigitPrefix(s[1..]) else []
  }

  /** The value of a numeral, most significant digit first (`int.Parse` without overflow). */
  function DigitsValue(d: string): nat
    requires AllDigits(d)
    decreases |d|
  {
    if |d| == 0 then 0 else 10 * DigitsValue(d[..|d| - 1]) + DigitValue(d[|d| - 1])
  }

  /** Decimal rendering of a natural number, without leading zeros. */
  function NatToDecimal(n: nat): (d: string)
    ensures |d| >= 1 && AllDigits(d)
    decreases n
  {
    if n < 10 then [DigitChar(n)] else NatToDecimal(n / 10) + [DigitChar(n % 10)]
  }

  /** Decimal rendering of an integer, `-` first when negative (`$"{i}"` in C#). */
  function IntToDecimal(i: int): (d: string)
    ensures |d| >= 1
  {
    if i < 0 then "-" + NatToDecimal(-i) else NatToDecimal(i)
  }

  lemma {:induction false} DecimalRoundTrip(n: nat)
    ensures DigitsValue(NatToDecimal(n)) == n
    decreases n
  {
    if n >= 10 {
      var d := NatToDecimal(n);
      assert d[..|d| - 1] == NatToDecimal(n / 10);
      DecimalRoundTrip(n / 10);
    }
  }

  lemma {:induction false} DigitPrefixOfNumeral(d: string, rest: string)
    requires AllDigits(d)
    requires rest == [] || !IsDigit(rest[0])
    ensures DigitPrefix(d + rest) == d
    decreases |d|
  {
    if |d| == 0 {
      assert d + rest == rest;
    } else {
      assert (d + rest)[1..] == d[1..] + rest;
      DigitPrefixOfNumeral(d[1..], rest);
      assert [d[0]] + d[1..] == d;
    }
  }

  /** Reads a numeral from the front of `s`: its value and what follows it. */
  function ReadNat(s: string): Option<(nat, string)> {
    var d := DigitPrefix(s);
    if |d| == 0 then None else Some((DigitsValue(d), s[|d|..]))
  }

  /** Reads an optional `-` and a numeral from the front of `s`; the inverse of `IntToDecimal`. */
  function ReadInt(s: string): Option<(int, string)> {
    if |s| > 0 && s[0] == '-' then
      match ReadNat(s[1..])
      case None => None
      case Some((n, rest)) => Some((-(n as int), rest))
    else
      match ReadNat(s)
      case None => None
      case Some((n, rest)) => Some((n as int, rest))
  }

  lemma ReadIntOfDecimal(i: int, rest: string)
    requires rest == [] || !IsDigit(rest[0])
    ensures ReadInt(IntToDecimal(i) + rest) == Some((i, rest))
  {
    var n: nat := if i < 0 then -i else i;
    var d := NatToDecimal(n);
    DecimalRoundTrip(n);
    NumeralBody(d, rest);
    if i < 0 {
      ReadAfterMinus(d, rest);
    } else {
      assert (d + rest)[0] == d[0];
    }
  }

  lemma ReadAfterMinus(d: string, rest: string)
    ensures ReadInt(("-" + d) + rest) ==
      match ReadNat(d + rest) case None => None case Some((n, r)) => Some((-(n as int), r))
  {
    var s := ("-" + d) + rest;
    assert s[0] == '-';
    assert s[1..] == d + rest;
  }

  lemma NumeralBody(d: string, rest: string)
    requires |d| >= 1 && AllDigits(d)
    requires rest == [] || !IsDigit(rest[0])
    ensures DigitPrefix(d + rest) == d && (d + rest)[|d|..] == rest
  {
    DigitPrefixOfNumeral(d, rest);
  }

  /** Distinct integers render differently. */
  lemma IntToDecimalInjective(i: int, j: int)
    requires IntToDecimal(i) == IntToDecimal(j)
    ensures i == j
  {
    ReadIntOfDecimal(i, "");
    ReadIntOfDecimal(j, "");
    assert IntToDecimal(i) + "" == IntToDecimal(i);
    assert IntToDecimal(j) + "" == IntToDecimal(j);
  }
}
