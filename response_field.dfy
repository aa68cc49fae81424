/**
 * `ExtractResponse`: pulling the `response` string out of the model
 * server's JSON reply by a substring scan, as the game does, and a
 * corrected scan that respects escaped quotes.
 */
module ResponseField {
  import opened Strings

  /** The searched key, `"response":"`, matched ignoring case. */
  const Key: string := "\"response\":\""

  const NoFieldError: string := "Error: No 'response' field in JSON."
  const MalformedError: string := "Error: Malformed JSON 'response' field."

  /** What the scan finds: the field's text, no key, or no closing quote. */
  datatype Extracted = Field(text: string) | NoField | Malformed

  /** `pat` occurs in `s` at index `i`, ignoring case. */
  predicate MatchAt(s: string, pat: string, i: nat) {
    i <= |s| && StartsWithIgnoreCase(s[i..], pat)
  }

  /** `s.IndexOf(pat, from, StringComparison.OrdinalIgnoreCase)`, `None` standing for -1. */
  function IndexOfIgnoreCase(s: string, pat: string, from: nat): (r: Option<nat>)
    requires from <= |s|
    ensures r.Some? ==> from <= r.value && r.value + |pat| <= |s|
    decreases |s| - from
  {
    if MatchAt(s, pat, from) then Some(from)
    else if from == |s| then None
    else IndexOfIgnoreCase(s, pat, from + 1)
  }

  /** The search finds the first match from `from` on, and finds none only when there is none. */
  lemma {:induction false} IndexOfMeans(s: string, pat: string, from: nat)
    requires from <= |s|
    ensures IndexOfIgnoreCase(s, pat, from).Some? ==> MatchAt(s, pat, IndexOfIgnoreCase(s, pat, from).value)
    ensures IndexOfIgnoreCase(s, pat, from).Some? ==>
      forall i :: from <= i < IndexOfIgnoreCase(s, pat, from).value ==> !MatchAt(s, pat, i)
    ensures IndexOfIgnoreCase(s, pat, from).None? <==> forall i :: from <= i <= |s| ==> !MatchAt(s, pat, i)
    decreases |s| - from
  {
    if !MatchAt(s, pat, from) && from < |s| {
      IndexOfMeans(s, pat, from + 1);
    }
  }

  /** `s.Replace(old, new)`: every occurrence of `pattern`, left to right, without overlaps. */
  function ReplaceAll(s: string, pattern: string, replacement: string): string
    requires |pattern| > 0
    decreases |s|
  {
    if |s| < |pattern| then s
    else if s[..|pattern|] == pattern then replacement + ReplaceAll(s[|pattern|..], pattern, replacement)
    else [s[0]] + ReplaceAll(s[1..], pattern, replacement)
  }

  /** The three replacements of `ExtractResponse`, in their order: `\n`, then `\r`, then `\"`. */
  function Unescape(raw: string): string {
    ReplaceAll(ReplaceAll(ReplaceAll(raw, "\\n", "\n"), "\\r", "\r"), "\\\"", "\"")
  }

  /** A text without a backslash is left as it is. */
  lemma {:induction false} ReplaceAllWithout(s: string, pattern: string, replacement: string)
    requires |pattern| > 0 && pattern[0] !in s
    ensures ReplaceAll(s, pattern, replacement) == s
    decreases |s|
  {
    if |s| >= |pattern| {
      assert s[..|pattern|][0] == s[0];
      ReplaceAllWithout(s[1..], pattern, replacement);
      assert [s[0]] + s[1..] == s;
    }
  }

  lemma UnescapePlain(raw: string)
    requires '\\' !in raw
    ensures Unescape(raw) == raw
  {
    ReplaceAllWithout(raw, "\\n", "\n");
    ReplaceAllWithout(raw, "\\r", "\r");
    ReplaceAllWithout(raw, "\\\"", "\"");
  }

  /** An occurrence at the front is replaced, and the rest is replaced after it. */
  lemma ReplaceAllHead(pattern: string, s: string, replacement: string)
    requires |pattern| > 0
    ensures ReplaceAll(pattern + s, pattern, replacement) == replacement + ReplaceAll(s, pattern, replacement)
  {
    var x := pattern + s;
    assert x[..|pattern|] == pattern && x[|pattern|..] == s;
  }

  /** A character that cannot start an occurrence is kept, and the rest is replaced after it. */
  lemma ReplaceAllCons(c: char, s: string, pattern: string, replacement: string)
    requires |pattern| > 0 && c != pattern[0]
    ensures ReplaceAll([c] + s, pattern, replacement) == [c] + ReplaceAll(s, pattern, replacement)
  {
    var x := [c] + s;
    assert x[1..] == s;
    if |x| >= |pattern| {
      assert x[..|pattern|][0] == c;
    }
  }

  /** The same for a whole prefix none of whose characters can start an occurrence. */
  lemma {:induction false} ReplaceAllPlainPrefix(a: string, s: string, pattern: string, replacement: string)
    requires |pattern| > 0 && pattern[0] !in a
    ensures ReplaceAll(a + s, pattern, replacement) == a + ReplaceAll(s, pattern, replacement)
    decreases |a|
  {
    if |a| > 0 {
      assert a + s == [a[0]] + (a[1..] + s);
      ReplaceAllCons(a[0], a[1..] + s, pattern, replacement);
      ReplaceAllPlainPrefix(a[1..], s, pattern, replacement);
      assert [a[0]] + a[1..] == a;
    } else {
      assert a + s == s;
    }
  }

  /** A backslash escape other than the one replaced is kept, both its characters. */
  lemma ReplaceAllOtherEscape(x: char, s: string, pattern: string, replacement: string)
    requires |pattern| == 2 && pattern[0] == '\\' && x != pattern[1] && x != '\\'
    ensures ReplaceAll(['\\', x] + s, pattern, replacement) == ['\\', x] + ReplaceAll(s, pattern, replacement)
  {
    var y := ['\\', x] + s;
    assert y[..2] == ['\\', x] && y[..2] != pattern;
    assert y[1..] == [x] + s;
    ReplaceAllCons(x, s, pattern, replacement);
  }

  // ---------------------------------------------------------------------
  // The scan as written
  // ---------------------------------------------------------------------

  /** Where the field ends: the next `",` from `start`, or, when there is none, the next `"`. */
  function FieldEnd(json: string, start: nat): (r: Option<nat>)
    requires start <= |json|
    ensures r.Some? ==> start <= r.value <= |json|
  {
    match IndexOfIgnoreCase(json, "\",", start)
    case Some(e) => Some(e)
    case None => IndexOfIgnoreCase(json, "\"", start)
  }

  /** A `",` at `i` starts with a `"` at `i`. */
  lemma CommaQuoteIsQuote(s: string, i: nat)
    requires MatchAt(s, "\",", i)
    ensures MatchAt(s, "\"", i)
  {
    StartsWithIgnoreCaseMeans(s[i..], "\",");
    StartsWithIgnoreCaseMeans(s[i..], "\"");
  }

  /**
   * The end rule of the scan as written: the first `",` at or after `start`
   * when there is one; otherwise the first `"`; and no end exactly when no
   * quote follows `start` at all.
   */
  lemma FieldEndMeans(json: string, start: nat)
    requires start <= |json|
    ensures var e := FieldEnd(json, start);
      (exists i :: start <= i <= |json| && MatchAt(json, "\",", i)) ==>
        e.Some? && MatchAt(json, "\",", e.value) && forall i :: start <= i < e.value ==> !MatchAt(json, "\",", i)
    ensures var e := FieldEnd(json, start);
      (forall i :: start <= i <= |json| ==> !MatchAt(json, "\",", i)) && e.Some? ==>
        MatchAt(json, "\"", e.value) && forall i :: start <= i < e.value ==> !MatchAt(json, "\"", i)
    ensures FieldEnd(json, start).None? <==> forall i :: start <= i <= |json| ==> !MatchAt(json, "\"", i)
  {
    IndexOfMeans(json, "\",", start);
    IndexOfMeans(json, "\"", start);
    if forall i :: start <= i <= |json| ==> !MatchAt(json, "\"", i) {
      forall i | start <= i <= |json| ensures !MatchAt(json, "\",", i) {
        if MatchAt(json, "\",", i) {
          CommaQuoteIsQuote(json, i);
        }
      }
    }
  }

  /** The field from `start`, where the key ends, to the end `FieldEnd` finds. */
  function FieldFrom(json: string, start: nat): (e: Extracted)
    requires start <= |json|
    ensures !e.NoField?
  {
    match FieldEnd(json, start)
    case None => Malformed
    case Some(e) => Field(json[start..e])
  }

  /** The field between the key and its end, not yet unescaped. */
  function RawField(json: string): (e: Extracted)
  {
    match IndexOfIgnoreCase(json, Key, 0)
    case None => NoField
    case Some(j) => FieldFrom(json, j + |Key|)
  }

  /** The scan reports no field exactly when the key occurs nowhere, in any letter case. */
  lemma RawFieldNoField(json: string)
    ensures RawField(json).NoField? <==> forall i :: 0 <= i <= |json| ==> !MatchAt(json, Key, i)
  {
    IndexOfMeans(json, Key, 0);
  }

  /** `ExtractResponse(json)`: the unescaped field, or one of the two fixed error texts. */
  function ExtractResponse(json: string): (r: string)
    ensures RawField(json).NoField? ==> r == NoFieldError
    ensures RawField(json).Malformed? ==> r == MalformedError
    ensures RawField(json).Field? ==> r == Unescape(RawField(json).text)
    ensures RawField(json).Field? && '\\' !in RawField(json).text ==> r == RawField(json).text
  {
    match RawField(json)
    case NoField => NoFieldError
    case Malformed => MalformedError
    case Field(raw) =>
      if '\\' !in raw then UnescapePlain(raw); Unescape(raw) else Unescape(raw)
  }

  // ---------------------------------------------------------------------
  // The key search on a longer text
  // ---------------------------------------------------------------------

  lemma {:induction false} StartsWithExtended(x: string, w: string, pat: string)
    requires |pat| <= |x|
    ensures StartsWithIgnoreCase(x + w, pat) == StartsWithIgnoreCase(x, pat)
    decreases |pat|
  {
    if |pat| > 0 {
      assert (x + w)[1..] == x[1..] + w;
      StartsWithExtended(x[1..], w, pat[1..]);
    }
  }

  /** A match found in `s` is still the first match once `s` is extended. */
  lemma {:induction false} IndexOfExtended(s: string, w: string, pat: string, from: nat)
    requires from <= |s| && IndexOfIgnoreCase(s, pat, from).Some?
    ensures IndexOfIgnoreCase(s + w, pat, from) == IndexOfIgnoreCase(s, pat, from)
    decreases |s| - from
  {
    var j := IndexOfIgnoreCase(s, pat, from).value;
    assert |pat| <= |s| - j;
    assert (s + w)[from..] == s[from..] + w;
    StartsWithExtended(s[from..], w, pat);
    if from < j {
      IndexOfExtended(s, w, pat, from + 1);
    }
  }

  /** The key's first occurrence in `p + Key` is the one at the end. */
  predicate KeyFirstAfter(p: string) {
    IndexOfIgnoreCase(p + Key, Key, 0) == Some(|p|)
  }

  lemma KeyFound(p: string, body: string)
    requires KeyFirstAfter(p)
    ensures IndexOfIgnoreCase(p + (Key + body), Key, 0) == Some(|p|)
    ensures (p + (Key + body))[|p| + |Key|..] == body
  {
    PatternFound(p, Key, body);
  }

  lemma PatternFound(p: string, key: string, body: string)
    requires IndexOfIgnoreCase(p + key, key, 0) == Some(|p|)
    ensures IndexOfIgnoreCase(p + (key + body), key, 0) == Some(|p|)
    ensures (p + (key + body))[|p| + |key|..] == body
  {
    assert p + (key + body) == (p + key) + body;
    IndexOfExtended(p + key, body, key, 0);
  }

  lemma LowerOfOther(c: char, d: char)
    requires !('a' <= d <= 'z') && !('A' <= d <= 'Z')
    ensures Lower(c) == d <==> c == d
  {
    if 'A' <= c <= 'Z' {
      assert Lower(c) as int == c as int + 32;
    }
  }

  /** A text that does not start with a quote starts with no pattern that does. */
  lemma NoQuoteAt(x: string, pat: string)
    requires |pat| > 0 && pat[0] == '"' && (|x| == 0 || x[0] != '"')
    ensures !StartsWithIgnoreCase(x, pat)
  {
    if |x| > 0 {
      LowerOfOther(x[0], '"');
    }
  }

  lemma {:induction false} StartsWithLiteral(x: string, pat: string)
    requires |pat| <= |x| && x[..|pat|] == pat
    ensures StartsWithIgnoreCase(x, pat)
    decreases |pat|
  {
    if |pat| > 0 {
      assert x[1..][..|pat| - 1] == pat[1..];
      StartsWithLiteral(x[1..], pat[1..]);
    }
  }

  /** Where there is no quote, no pattern starting with a quote matches. */
  lemma NoMatchWithoutQuote(s: string, pat: string, from: nat, to: nat)
    requires from <= to <= |s| && |pat| > 0 && pat[0] == '"'
    requires forall i :: from <= i < to ==> s[i] != '"'
    ensures forall i :: from <= i < to ==> !MatchAt(s, pat, i)
  {
    forall i | from <= i < to ensures !MatchAt(s, pat, i) {
      assert s[i..][0] == s[i];
      NoQuoteAt(s[i..], pat);
    }
  }

  /** A match with nothing matching before it is what the search finds. */
  lemma {:induction false} FirstMatchAt(s: string, pat: string, from: nat, j: nat)
    requires from <= j <= |s| && MatchAt(s, pat, j)
    requires forall i :: from <= i < j ==> !MatchAt(s, pat, i)
    ensures IndexOfIgnoreCase(s, pat, from) == Some(j)
    decreases j - from
  {
    if from < j {
      FirstMatchAt(s, pat, from + 1, j);
    }
  }

  /** A quote that no comma follows, and no other quote, means no `",` at all. */
  lemma NoCommaQuote(s: string, from: nat, e: nat)
    requires from <= e < |s| && s[e] == '"' && (e + 1 == |s| || s[e + 1] != ',')
    requires forall i :: from <= i < |s| && i != e ==> s[i] != '"'
    ensures IndexOfIgnoreCase(s, "\",", from).None?
  {
    NoMatchWithoutQuote(s, "\",", from, e);
    NoMatchWithoutQuote(s, "\",", e + 1, |s|);
    assert !MatchAt(s, "\",", e) by {
      assert s[e..][1..] == s[e + 1..];
      if e + 1 < |s| {
        assert s[e + 1..][0] == s[e + 1];
        LowerOfOther(s[e + 1], ',');
      }
    }
    NoQuoteAt(s[|s|..], "\",");
    assert !MatchAt(s, "\",", |s|);
    assert forall i :: from <= i <= |s| ==> !MatchAt(s, "\",", i);
    IndexOfMeans(s, "\",", from);
  }

  /**
   * The end search on a field `t` with no quote: it stops at the quote after
   * `t` when a comma follows it, and also when no quote comes later.
   */
  lemma FieldEndAfter(json: string, start: nat, t: string, rest: string)
    requires start <= |json| && json[start..] == t + ("\"" + rest) && '"' !in t
    requires (|rest| > 0 && rest[0] == ',') || '"' !in rest
    ensures FieldEnd(json, start) == Some(start + |t|)
    ensures json[start..start + |t|] == t
  {
    var e := start + |t|;
    var body := t + ("\"" + rest);
    assert forall i :: start <= i < e ==> json[i] == body[i - start] == t[i - start];
    assert json[e..] == "\"" + rest;
    assert json[start..e] == body[..|t|];
    if |rest| > 0 && rest[0] == ',' {
      CommaQuoteEnds(json, start, e);
    } else {
      assert forall i :: e < i < |json| ==> json[i] == rest[i - e - 1];
      LoneQuoteEnds(json, start, e);
    }
  }

  /** With no quote before `e` and `",` at `e`, the end is `e`. */
  lemma CommaQuoteEnds(json: string, start: nat, e: nat)
    requires start <= e && e + 2 <= |json| && json[e] == '"' && json[e + 1] == ','
    requires forall i :: start <= i < e ==> json[i] != '"'
    ensures FieldEnd(json, start) == Some(e)
  {
    NoMatchWithoutQuote(json, "\",", start, e);
    assert json[e..][..2] == "\",";
    StartsWithLiteral(json[e..], "\",");
    FirstMatchAt(json, "\",", start, e);
  }

  /** With `e` the only quote from `start` on and no comma after it, the end is `e`. */
  lemma LoneQuoteEnds(json: string, start: nat, e: nat)
    requires start <= e < |json| && json[e] == '"' && (e + 1 == |json| || json[e + 1] != ',')
    requires forall i :: start <= i < |json| && i != e ==> json[i] != '"'
    ensures FieldEnd(json, start) == Some(e)
  {
    NoCommaQuote(json, start, e);
    NoMatchWithoutQuote(json, "\"", start, e);
    assert json[e..][..1] == "\"";
    StartsWithLiteral(json[e..], "\"");
    FirstMatchAt(json, "\"", start, e);
  }

  /**
   * The scan as written on a field with no quote in it: the text up to the
   * closing quote is the field, whether a comma follows it or, with no quote
   * after it, nothing does.
   */
  lemma RawFieldPlain(p: string, t: string, rest: string)
    requires KeyFirstAfter(p)
    requires '"' !in t
    requires (|rest| > 0 && rest[0] == ',') || '"' !in rest
    ensures RawField(p + (Key + (t + ("\"" + rest)))) == Field(t)
  {
    var body := t + ("\"" + rest);
    var json := p + (Key + body);
    KeyFound(p, body);
    FieldEndAfter(json, |p| + |Key|, t, rest);
    RawFieldAt(json, |p|, |p| + |Key| + |t|);
  }

  lemma RawFieldAt(json: string, j: nat, e: nat)
    requires IndexOfIgnoreCase(json, Key, 0) == Some(j)
    requires j + |Key| <= |json| && FieldEnd(json, j + |Key|) == Some(e)
    ensures j + |Key| <= e <= |json| && RawField(json) == Field(json[j + |Key|..e])
  {
    var start := j + |Key|;
    assert RawField(json) == FieldFrom(json, start);
  }

  /** With no quote and no backslash in the reply, the scan as written returns it unchanged. */
  lemma ExtractResponsePlain(p: string, t: string, rest: string)
    requires KeyFirstAfter(p)
    requires '"' !in t && '\\' !in t
    requires (|rest| > 0 && rest[0] == ',') || '"' !in rest
    ensures ExtractResponse(p + (Key + (t + ("\"" + rest)))) == t
  {
    RawFieldPlain(p, t, rest);
  }

  // ---------------------------------------------------------------------
  // The corrected scan
  // ---------------------------------------------------------------------

  /** The JSON escape for one character: `"`, `\`, line feed and carriage return are escaped. */
  function EscapeChar(c: char): string {
    if c == '"' then "\\\"" else if c == '\\' then "\\\\"
    else if c == '\n' then "\\n" else if c == '\r' then "\\r" else [c]
  }

  /** The body of a JSON string holding `t`. */
  function Escape(t: string): string
    decreases |t|
  {
    if |t| == 0 then "" else EscapeChar(t[0]) + Escape(t[1..])
  }

  /** `Escape` with only the carriage returns escaped: what is left after `\n` is replaced. */
  function EscapeReturns(t: string): string
    decreases |t|
  {
    if |t| == 0 then "" else (if t[0] == '\r' then "\\r" else [t[0]]) + EscapeReturns(t[1..])
  }

  /** The first replacement of `ExtractResponse` turns every escaped line feed back. */
  lemma {:induction false} ReplaceLineFeeds(t: string)
    requires '\\' !in t && '"' !in t
    ensures ReplaceAll(Escape(t), "\\n", "\n") == EscapeReturns(t)
    decreases |t|
  {
    if |t| > 0 {
      var c, x := t[0], Escape(t[1..]);
      ReplaceLineFeeds(t[1..]);
      if c == '\n' {
        ReplaceAllHead("\\n", x, "\n");
      } else if c == '\r' {
        ReplaceAllOtherEscape('r', x, "\\n", "\n");
      } else {
        ReplaceAllCons(c, x, "\\n", "\n");
      }
    }
  }

  /** The second replacement turns every escaped carriage return back. */
  lemma {:induction false} ReplaceReturns(t: string)
    requires '\\' !in t
    ensures ReplaceAll(EscapeReturns(t), "\\r", "\r") == t
    decreases |t|
  {
    if |t| > 0 {
      var c, x := t[0], EscapeReturns(t[1..]);
      ReplaceReturns(t[1..]);
      if c == '\r' {
        ReplaceAllHead("\\r", x, "\r");
      } else {
        ReplaceAllCons(c, x, "\\r", "\r");
      }
      assert [c] + t[1..] == t;
    }
  }

  /** On a reply without backslashes or quotes, the written decoding undoes the JSON escaping. */
  lemma UnescapeEscaped(t: string)
    requires '\\' !in t && '"' !in t
    ensures Unescape(Escape(t)) == t
  {
    ReplaceLineFeeds(t);
    ReplaceReturns(t);
    ReplaceAllWithout(t, "\\\"", "\"");
  }

  /** Only a quote escapes to a text holding a quote. */
  lemma {:induction false} EscapeLacksQuote(t: string)
    requires '"' !in t
    ensures '"' !in Escape(t)
    decreases |t|
  {
    if |t| > 0 {
      EscapeLacksQuote(t[1..]);
    }
  }

  /** The character an escape `\c` stands for; other escapes are kept as written. */
  function DecodeEscape(c: char): string {
    if c == 'n' then "\n" else if c == 'r' then "\r"
    else if c == '"' then "\"" else if c == '\\' then "\\" else ['\\', c]
  }

  /** The text of a JSON string body up to its first quote that no backslash escapes. */
  function ScanString(s: string): Option<string>
    decreases |s|
  {
    if |s| == 0 then None
    else if s[0] == '"' then Some("")
    else if s[0] == '\\' then
      if |s| == 1 then None
      else match ScanString(s[2..])
        case None => None
        case Some(t) => Some(DecodeEscape(s[1]) + t)
    else match ScanString(s[1..])
      case None => None
      case Some(t) => Some([s[0]] + t)
  }

  /** Scanning an escaped text up to its closing quote gives the text back. */
  lemma {:induction false} ScanEscaped(t: string, rest: string)
    ensures ScanString(Escape(t) + ("\"" + rest)) == Some(t)
    decreases |t|
  {
    if |t| == 0 {
      assert Escape(t) + ("\"" + rest) == "\"" + rest;
    } else {
      var c, tail := t[0], Escape(t[1..]) + ("\"" + rest);
      ScanEscaped(t[1..], rest);
      assert Escape(t) + ("\"" + rest) == EscapeChar(c) + tail;
      ScanOne(c, tail, t[1..]);
      assert [c] + t[1..] == t;
    }
  }

  lemma ScanOne(c: char, tail: string, t: string)
    requires ScanString(tail) == Some(t)
    ensures ScanString(EscapeChar(c) + tail) == Some([c] + t)
  {
    var s := EscapeChar(c) + tail;
    if c == '"' || c == '\\' || c == '\n' || c == '\r' {
      assert s[2..] == tail;
    } else {
      assert s[1..] == tail;
    }
  }

  /** The corrected field scan: the field ends at its first unescaped quote. */
  function ReadField(json: string): (e: Extracted)
  {
    match IndexOfIgnoreCase(json, Key, 0)
    case None => NoField
    case Some(j) => ScanFrom(json[j + |Key|..])
  }

  /** The scanned field after the key, or `Malformed` when no unescaped quote ends it. */
  function ScanFrom(body: string): (e: Extracted)
    ensures !e.NoField?
  {
    match ScanString(body)
    case None => Malformed
    case Some(t) => Field(t)
  }

  /** The corrected scan reports no field on the same replies as the scan as written. */
  lemma ReadFieldNoField(json: string)
    ensures ReadField(json).NoField? <==> RawField(json).NoField?
    ensures ReadField(json).NoField? <==> forall i :: 0 <= i <= |json| ==> !MatchAt(json, Key, i)
  {
    RawFieldNoField(json);
  }

  /** `ExtractResponse` with the corrected scan and decoding, and the same two error texts. */
  function ExtractResponseFixed(json: string): (r: string)
    ensures ReadField(json).NoField? ==> r == NoFieldError
    ensures ReadField(json).Malformed? ==> r == MalformedError
    ensures ReadField(json).Field? ==> r == ReadField(json).text
  {
    match ReadField(json)
    case NoField => NoFieldError
    case Malformed => MalformedError
    case Field(t) => t
  }

  /** Whatever the reply text, the corrected scan reads it back from the JSON that carries it. */
  lemma ExtractResponseFixedRoundTrip(p: string, t: string, rest: string)
    requires KeyFirstAfter(p)
    ensures ExtractResponseFixed(p + (Key + (Escape(t) + ("\"" + rest)))) == t
  {
    KeyFound(p, Escape(t) + ("\"" + rest));
    ScanEscaped(t, rest);
  }

  /** In `p + Key` with no quote in `p`, the first occurrence of the key is the one at the end. */
  lemma KeyAfterQuoteless(p: string)
    requires '"' !in p
    ensures KeyFirstAfter(p)
  {
    var s := p + Key;
    assert forall i :: 0 <= i < |p| ==> s[i] == p[i];
    NoMatchWithoutQuote(s, Key, 0, |p|);
    assert s[|p|..] == Key;
    StartsWithSelf(Key);
    FirstMatchAt(s, Key, 0, |p|);
  }

  lemma {:induction false} StartsWithSelf(s: string)
    ensures StartsWithIgnoreCase(s, s)
    decreases |s|
  {
    if |s| > 0 {
      StartsWithSelf(s[1..]);
    }
  }

  lemma {:induction false} EscapeAppend(x: string, y: string)
    ensures Escape(x + y) == Escape(x) + Escape(y)
    decreases |x|
  {
    if |x| > 0 {
      assert (x + y)[1..] == x[1..] + y;
      EscapeAppend(x[1..], y);
      assert (x + y)[0] == x[0];
    } else {
      assert x + y == y;
    }
  }

  /** Text with nothing to escape is its own escape. */
  lemma {:induction false} EscapePlainText(a: string)
    requires '"' !in a && '\\' !in a && '\n' !in a && '\r' !in a
    ensures Escape(a) == a
    decreases |a|
  {
    if |a| > 0 {
      EscapePlainText(a[1..]);
      assert [a[0]] + a[1..] == a;
    }
  }

  /** A text ending in a lone backslash has nothing for `Replace` to replace. */
  lemma {:induction false} ReplaceAllTrailingBackslash(a: string, pattern: string, replacement: string)
    requires |pattern| == 2 && pattern[0] == '\\' && '\\' !in a
    ensures ReplaceAll(a + "\\", pattern, replacement) == a + "\\"
    decreases |a|
  {
    var s := a + "\\";
    if |a| > 0 {
      assert s[1..] == a[1..] + "\\";
      assert s[..2][0] == a[0];
      ReplaceAllTrailingBackslash(a[1..], pattern, replacement);
      assert [s[0]] + s[1..] == s;
    }
  }

  /** `Unescape` leaves a text ending in a lone backslash alone. */
  lemma UnescapeTrailingBackslash(a: string)
    requires '\\' !in a
    ensures Unescape(a + "\\") == a + "\\"
  {
    ReplaceAllTrailingBackslash(a, "\\n", "\n");
    ReplaceAllTrailingBackslash(a, "\\r", "\r");
    ReplaceAllTrailingBackslash(a, "\\\"", "\"");
  }

  /** The JSON string body of `a",b`: `a`, a backslash, the closing-looking quote and comma, then `b` escaped. */
  lemma EscapedQuoteLayout(a: string, b: string, rest: string)
    requires '"' !in a && '\\' !in a && '\n' !in a && '\r' !in a
    ensures Escape(a + ("\"," + b)) + ("\"" + rest) == (a + "\\") + ("\"" + ("," + (Escape(b) + ("\"" + rest))))
  {
    var q, c, bs := "\"", ",", "\\";
    var eb, n := Escape(b), q + rest;
    assert Escape(a + ("\"," + b)) == a + ((bs + q) + (c + eb)) by {
      assert "\"," + b == q + (c + b);
      EscapeAppend(a, q + (c + b));
      EscapeAppend(q, c + b);
      EscapeAppend(c, b);
      EscapePlainText(a);
      assert Escape(q) == bs + q && Escape(c) == c;
    }
    assert (a + ((bs + q) + (c + eb))) + n == (a + bs) + (q + (c + (eb + n))) by {
      Assoc(a, (bs + q) + (c + eb), n);
      Assoc(bs + q, c + eb, n);
      Assoc(bs, q, (c + eb) + n);
      Assoc(c, eb, n);
      Assoc(a, bs, q + (c + (eb + n)));
    }
  }

  lemma Assoc(x: string, y: string, z: string)
    ensures (x + y) + z == x + (y + z)
  {
  }

  lemma ExtractResponseOfField(json: string, raw: string)
    requires RawField(json) == Field(raw)
    ensures ExtractResponse(json) == Unescape(raw)
  {
  }

  /**
   * A reply `a",b` (its quote escaped in the JSON as `\"`) followed by a
   * comma: the scan as written takes the escaped quote and the comma for the
   * field's end and returns `a` followed by a lone backslash; the corrected
   * scan returns the whole reply.
   */
  lemma EscapedQuoteTruncates(p: string, a: string, b: string, rest: string)
    requires '"' !in p
    requires '"' !in a && '\\' !in a && '\n' !in a && '\r' !in a
    ensures var json := p + (Key + (Escape(a + ("\"," + b)) + ("\"" + rest)));
      ExtractResponse(json) == a + "\\" && ExtractResponseFixed(json) == a + ("\"," + b)
  {
    KeyAfterQuoteless(p);
    ExtractResponseFixedRoundTrip(p, a + ("\"," + b), rest);
    EscapedQuoteLayout(a, b, rest);
    TrailingBackslashField(p, a, "," + (Escape(b) + ("\"" + rest)));
  }

  /**
   * A reply without backslashes or quotes, say over several lines: the scan
   * as written gives it back from the JSON that carries it, when the closing
   * quote is followed by a comma or by no other quote.
   */
  lemma ExtractResponseEscaped(p: string, t: string, rest: string)
    requires KeyFirstAfter(p)
    requires '"' !in t && '\\' !in t
    requires (|rest| > 0 && rest[0] == ',') || '"' !in rest
    ensures ExtractResponse(p + (Key + (Escape(t) + ("\"" + rest)))) == t
  {
    EscapeLacksQuote(t);
    RawFieldPlain(p, Escape(t), rest);
    ExtractResponseOfField(p + (Key + (Escape(t) + ("\"" + rest))), Escape(t));
    UnescapeEscaped(t);
  }

  /** The JSON string body of a reply with a literal backslash before `x`: the backslash doubled. */
  lemma EscapedBackslashLayout(a: string, x: char, b: string)
    requires '"' !in a && '\\' !in a && '\n' !in a && '\r' !in a
    requires '"' !in b && '\\' !in b && '\n' !in b && '\r' !in b
    requires x != '"' && x != '\\' && x != '\n' && x != '\r'
    ensures Escape(a + (['\\', x] + b)) == a + (['\\', '\\', x] + b)
  {
    EscapeAppend(a, ['\\', x] + b);
    EscapeAppend(['\\', x], b);
    EscapePlainText(a);
    EscapePlainText(b);
    EscapeBackslashThen(x);
  }

  lemma EscapeBackslashThen(x: char)
    requires x != '"' && x != '\\' && x != '\n' && x != '\r'
    ensures Escape(['\\', x]) == ['\\', '\\', x]
  {
    var bs, n := "\\", [x];
    assert ['\\', x] == bs + n;
    EscapeAppend(bs, n);
    assert Escape(n) == n;
    assert Escape(bs) == "\\\\";
  }

  /** The JSON string body of a reply with a literal backslash before `b`: the backslash doubled. */
  lemma EscapedBackslashEndLayout(a: string, b: string)
    requires '"' !in a && '\\' !in a && '\n' !in a && '\r' !in a
    requires '"' !in b && '\\' !in b && '\n' !in b && '\r' !in b
    ensures Escape(a + ("\\" + b)) == a + ("\\\\" + b)
  {
    EscapeAppend(a, "\\" + b);
    EscapeAppend("\\", b);
    EscapePlainText(a);
    EscapePlainText(b);
    assert Escape("\\") == "\\\\";
  }

  lemma QuoteFreeAroundPair(a: string, x: char, b: string)
    requires '"' !in a && '"' !in b && x != '"'
    ensures '"' !in a + (['\\', '\\', x] + b)
  {
    var mid := ['\\', '\\', x];
    assert mid[0] != '"' && mid[1] != '"' && mid[2] != '"';
  }

  lemma QuoteFreeAroundDoubled(a: string, b: string)
    requires '"' !in a && '"' !in b
    ensures '"' !in a + ("\\\\" + b)
  {
    var mid := "\\\\";
    assert mid[0] != '"' && mid[1] != '"';
  }

  /** The first backslash of a pair never starts an escape other than `\\`: it is kept. */
  lemma ReplaceAllPairHead(s: string, pattern: string, replacement: string)
    requires |pattern| == 2 && pattern[0] == '\\' && pattern[1] != '\\'
    ensures ReplaceAll(['\\', '\\'] + s, pattern, replacement) == ['\\'] + ReplaceAll(['\\'] + s, pattern, replacement)
  {
    var y := ['\\', '\\'] + s;
    assert y[..2][1] == '\\';
    assert y[1..] == ['\\'] + s;
  }

  /** An escaped backslash that the pattern's letter does not follow is kept whole. */
  lemma ReplaceAllPairKept(a: string, b: string, pattern: string, replacement: string)
    requires |pattern| == 2 && pattern[0] == '\\' && pattern[1] != '\\'
    requires '\\' !in a && '\\' !in b && (|b| == 0 || b[0] != pattern[1])
    ensures ReplaceAll(a + (['\\', '\\'] + b), pattern, replacement) == a + (['\\', '\\'] + b)
  {
    ReplaceAllPairHead(b, pattern, replacement);
    if |b| == 0 {
      assert ['\\'] + b == ['\\'];
    } else {
      assert ['\\'] + b == ['\\', b[0]] + b[1..];
      ReplaceAllOtherEscape(b[0], b[1..], pattern, replacement);
      ReplaceAllWithout(b[1..], pattern, replacement);
      assert ['\\', b[0]] + b[1..] == ['\\'] + b;
    }
    ReplaceAllPlainPrefix(a, ['\\', '\\'] + b, pattern, replacement);
  }

  /** The written decoding leaves an escaped backslash doubled when no `n`, `r` or `"` follows it. */
  lemma UnescapeDoubledBackslashKept(a: string, b: string)
    requires '\\' !in a && '\\' !in b
    requires |b| == 0 || (b[0] != 'n' && b[0] != 'r' && b[0] != '"')
    ensures Unescape(a + ("\\\\" + b)) == a + ("\\\\" + b)
  {
    assert "\\\\" + b == ['\\', '\\'] + b;
    ReplaceAllPairKept(a, b, "\\n", "\n");
    ReplaceAllPairKept(a, b, "\\r", "\r");
    ReplaceAllPairKept(a, b, "\\\"", "\"");
  }

  /** The written decoding of a doubled backslash before `n`: a backslash and a line feed. */
  lemma UnescapeDoubledLineFeed(a: string, b: string)
    requires '\\' !in a && '\\' !in b
    ensures Unescape(a + ("\\\\n" + b)) == a + ("\\\n" + b)
  {
    var s0 := "\\\\n" + b;
    assert s0[..2][1] == '\\' && s0[1..] == "\\n" + b;
    ReplaceAllHead("\\n", b, "\n");
    ReplaceAllWithout(b, "\\n", "\n");
    assert ReplaceAll(s0, "\\n", "\n") == "\\\n" + b;
    ReplaceAllPlainPrefix(a, s0, "\\n", "\n");
    var s1 := "\\\n" + b;
    ReplaceAllPlainPrefix(a, s1, "\\r", "\r");
    ReplaceAllOtherEscape('\n', b, "\\r", "\r");
    ReplaceAllWithout(b, "\\r", "\r");
    ReplaceAllPlainPrefix(a, s1, "\\\"", "\"");
    ReplaceAllOtherEscape('\n', b, "\\\"", "\"");
    ReplaceAllWithout(b, "\\\"", "\"");
  }

  /** The written decoding of a doubled backslash before `r`: a backslash and a carriage return. */
  lemma UnescapeDoubledReturn(a: string, b: string)
    requires '\\' !in a && '\\' !in b
    ensures Unescape(a + ("\\\\r" + b)) == a + ("\\\r" + b)
  {
    DoubledReturnLineFeedStage(a, b);
    DoubledReturnReturnStage(a, b);
    DoubledReturnQuoteStage(a, b);
  }

  /** `\n` finds nothing to replace in `a\\rb`. */
  lemma DoubledReturnLineFeedStage(a: string, b: string)
    requires '\\' !in a && '\\' !in b
    ensures ReplaceAll(a + ("\\\\r" + b), "\\n", "\n") == a + ("\\\\r" + b)
  {
    var s0 := "\\\\r" + b;
    assert s0 == ['\\', '\\'] + ("r" + b) && ['\\'] + ("r" + b) == "\\r" + b;
    ReplaceAllPairHead("r" + b, "\\n", "\n");
    ReplaceAllOtherEscape('r', b, "\\n", "\n");
    ReplaceAllWithout(b, "\\n", "\n");
    ReplaceAllPlainPrefix(a, s0, "\\n", "\n");
  }

  /** `\r` pairs the second backslash of `a\\rb` with the `r`. */
  lemma DoubledReturnReturnStage(a: string, b: string)
    requires '\\' !in a && '\\' !in b
    ensures ReplaceAll(a + ("\\\\r" + b), "\\r", "\r") == a + ("\\\r" + b)
  {
    var s0, s1 := "\\\\r" + b, "\\\r" + b;
    assert ReplaceAll(s0, "\\r", "\r") == ['\\'] + ReplaceAll("\\r" + b, "\\r", "\r") by {
      assert s0 == ['\\', '\\'] + ("r" + b) && ['\\'] + ("r" + b) == "\\r" + b;
      ReplaceAllPairHead("r" + b, "\\r", "\r");
    }
    assert ReplaceAll("\\r" + b, "\\r", "\r") == "\r" + b by {
      ReplaceAllHead("\\r", b, "\r");
      ReplaceAllWithout(b, "\\r", "\r");
    }
    assert ['\\'] + ("\r" + b) == s1;
    ReplaceAllPlainPrefix(a, s0, "\\r", "\r");
  }

  /** `\"` finds nothing to replace in a backslash followed by a carriage return. */
  lemma DoubledReturnQuoteStage(a: string, b: string)
    requires '\\' !in a && '\\' !in b
    ensures ReplaceAll(a + ("\\\r" + b), "\\\"", "\"") == a + ("\\\r" + b)
  {
    var s1 := "\\\r" + b;
    ReplaceAllPlainPrefix(a, s1, "\\\"", "\"");
    ReplaceAllOtherEscape('\r', b, "\\\"", "\"");
    ReplaceAllWithout(b, "\\\"", "\"");
  }

  /** The written decoding of a doubled backslash before `n` or `r`: a backslash, then a line feed or a carriage return. */
  lemma UnescapeDoubledBackslash(a: string, x: char, b: string)
    requires x == 'n' || x == 'r'
    requires '\\' !in a && '\\' !in b
    ensures Unescape(a + (['\\', '\\', x] + b)) == a + (['\\', if x == 'n' then '\n' else '\r'] + b)
  {
    if x == 'n' {
      assert ['\\', '\\', x] == "\\\\n" && ['\\', '\n'] == "\\\n";
      UnescapeDoubledLineFeed(a, b);
    } else {
      assert ['\\', '\\', x] == "\\\\r" && ['\\', '\r'] == "\\\r";
      UnescapeDoubledReturn(a, b);
    }
  }

  /**
   * A reply holding a literal backslash before an `n` or an `r`, such as the
   * path `C:\new`: the JSON carries the backslash doubled, the scan as
   * written turns the second backslash and the letter into a line feed or a
   * carriage return, and the corrected scan gives the reply back.
   */
  lemma EscapedBackslashMisread(p: string, a: string, x: char, b: string, rest: string)
    requires KeyFirstAfter(p)
    requires x == 'n' || x == 'r'
    requires '"' !in a && '\\' !in a && '\n' !in a && '\r' !in a
    requires '"' !in b && '\\' !in b && '\n' !in b && '\r' !in b
    requires (|rest| > 0 && rest[0] == ',') || '"' !in rest
    ensures var json := p + (Key + (Escape(a + (['\\', x] + b)) + ("\"" + rest)));
      ExtractResponse(json) == a + (['\\', if x == 'n' then '\n' else '\r'] + b) &&
      ExtractResponseFixed(json) == a + (['\\', x] + b)
  {
    var t := a + (['\\', x] + b);
    ExtractResponseFixedRoundTrip(p, t, rest);
    EscapedBackslashLayout(a, x, b);
    var raw := a + (['\\', '\\', x] + b);
    QuoteFreeAroundPair(a, x, b);
    RawFieldPlain(p, raw, rest);
    ExtractResponseOfField(p + (Key + (raw + ("\"" + rest))), raw);
    UnescapeDoubledBackslash(a, x, b);
  }

  /**
   * A reply holding a literal backslash that no `n` or `r` follows, such as
   * `a\b`: the scan as written keeps both backslashes of its escape, and the
   * corrected scan gives the reply back.
   */
  lemma EscapedBackslashDoubled(p: string, a: string, b: string, rest: string)
    requires KeyFirstAfter(p)
    requires '"' !in a && '\\' !in a && '\n' !in a && '\r' !in a
    requires '"' !in b && '\\' !in b && '\n' !in b && '\r' !in b
    requires |b| == 0 || (b[0] != 'n' && b[0] != 'r')
    requires (|rest| > 0 && rest[0] == ',') || '"' !in rest
    ensures var json := p + (Key + (Escape(a + ("\\" + b)) + ("\"" + rest)));
      ExtractResponse(json) == a + ("\\\\" + b) && ExtractResponseFixed(json) == a + ("\\" + b)
  {
    var t := a + ("\\" + b);
    ExtractResponseFixedRoundTrip(p, t, rest);
    EscapedBackslashEndLayout(a, b);
    var raw := a + ("\\\\" + b);
    QuoteFreeAroundDoubled(a, b);
    RawFieldPlain(p, raw, rest);
    ExtractResponseOfField(p + (Key + (raw + ("\"" + rest))), raw);
    UnescapeDoubledBackslashKept(a, b);
  }

  /** A quote at `i` with a comma right after it: what the scan as written takes for a field's end. */
  predicate CommaAfterQuote(s: string, i: nat) {
    i + 1 < |s| && s[i] == '"' && s[i + 1] == ','
  }

  /**
   * With no quote in `body` before `e` and no quote in it followed by a
   * comma, the end found in `s`, where `body` starts at `from`, is the quote
   * at `e`.
   */
  lemma FirstQuoteEnds(s: string, from: nat, body: string, e: nat)
    requires from <= |s| && s[from..] == body
    requires e < |body| && body[e] == '"'
    requires forall i :: 0 <= i < e ==> body[i] != '"'
    requires forall i :: 0 <= i < |body| ==> !CommaAfterQuote(body, i)
    ensures FieldEnd(s, from) == Some(from + e)
    ensures s[from..from + e] == body[..e]
  {
    assert forall i :: from <= i < |s| ==> s[i] == body[i - from];
    forall i | from <= i <= |s| ensures !MatchAt(s, "\",", i) {
      if i < |s| && s[i] == '"' {
        assert s[i..][1..] == s[i + 1..];
        if i + 1 < |s| {
          assert !CommaAfterQuote(body, i - from);
          assert s[i + 1..][0] == s[i + 1];
          LowerOfOther(s[i + 1], ',');
        }
      } else if i < |s| {
        assert s[i..][0] == s[i];
        NoQuoteAt(s[i..], "\",");
      } else {
        NoQuoteAt(s[i..], "\",");
      }
    }
    IndexOfMeans(s, "\",", from);
    NoMatchWithoutQuote(s, "\"", from, from + e);
    assert s[from + e..][..1] == "\"";
    StartsWithLiteral(s[from + e..], "\"");
    FirstMatchAt(s, "\"", from, from + e);
  }

  /** The scan as written on a body whose first quote `e` is not followed by a comma, nor is any later one. */
  lemma RawFieldFirstQuote(p: string, body: string, e: nat)
    requires KeyFirstAfter(p)
    requires e < |body| && body[e] == '"'
    requires forall i :: 0 <= i < e ==> body[i] != '"'
    requires forall i :: 0 <= i < |body| ==> !CommaAfterQuote(body, i)
    ensures RawField(p + (Key + body)) == Field(body[..e])
  {
    var json := p + (Key + body);
    KeyFound(p, body);
    FirstQuoteEnds(json, |p| + |Key|, body, e);
    RawFieldAt(json, |p|, |p| + |Key| + e);
  }

  /** The JSON string body of `a"b`, with its closing quote: `a`, a backslash, the quote, then `b`. */
  lemma EscapedLoneQuoteLayout(a: string, b: string, rest: string)
    requires '"' !in a && '\\' !in a && '\n' !in a && '\r' !in a
    requires '"' !in b && '\\' !in b && '\n' !in b && '\r' !in b
    ensures Escape(a + ("\"" + b)) + ("\"" + rest) == (a + "\\") + ("\"" + (b + ("\"" + rest)))
  {
    var q, bs := "\"", "\\";
    var n := q + rest;
    EscapeAppend(a, q + b);
    EscapeAppend(q, b);
    EscapePlainText(a);
    EscapePlainText(b);
    assert Escape(q) == bs + q;
    assert Escape(a + (q + b)) == a + ((bs + q) + b);
    Assoc(a, (bs + q) + b, n);
    Assoc(bs + q, b, n);
    Assoc(bs, q, b + n);
    Assoc(a, bs, q + (b + n));
  }

  /** Where the quotes of that body stand: the escaped one first, and none of them before a comma. */
  lemma EscapedLoneQuotePlaces(a: string, b: string, rest: string)
    requires '"' !in a && '\\' !in a && '"' !in b && '"' !in rest
    requires |b| == 0 || b[0] != ','
    requires |rest| == 0 || rest[0] != ','
    ensures var body := (a + "\\") + ("\"" + (b + ("\"" + rest)));
      |a| + 1 < |body| && body[|a| + 1] == '"' && body[..|a| + 1] == a + "\\" &&
      (forall k :: 0 <= k < |a| + 1 ==> body[k] != '"') &&
      forall k :: 0 <= k < |body| ==> !CommaAfterQuote(body, k)
  {
    var body := (a + "\\") + ("\"" + (b + ("\"" + rest)));
    var e1, e2 := |a| + 1, |a| + 2 + |b|;
    assert body[|a|] == '\\' && body[e1] == '"' && body[e2] == '"';
    assert forall k :: 0 <= k < |a| ==> body[k] == a[k];
    assert forall k :: e1 < k < e2 ==> body[k] == b[k - e1 - 1];
    assert forall k :: e2 < k < |body| ==> body[k] == rest[k - e2 - 1];
    assert forall k :: 0 <= k < |body| && body[k] == '"' ==> k == e1 || k == e2;
    assert e1 + 1 < |body| ==> body[e1 + 1] == if |b| > 0 then b[0] else '"';
    assert e2 + 1 < |body| ==> body[e2 + 1] == rest[0];
    forall k | 0 <= k < |body| ensures !CommaAfterQuote(body, k) {
    }
  }

  /**
   * A reply `a"b` whose escaped quote no comma follows, in a body where no
   * `",` comes after the key at all: the scan as written ends the field at
   * the escaped quote and returns `a` followed by a lone backslash; the
   * corrected scan returns the whole reply.
   */
  lemma EscapedQuoteEndsField(p: string, a: string, b: string, rest: string)
    requires KeyFirstAfter(p)
    requires '"' !in a && '\\' !in a && '\n' !in a && '\r' !in a
    requires '"' !in b && '\\' !in b && '\n' !in b && '\r' !in b
    requires |b| == 0 || b[0] != ','
    requires '"' !in rest && (|rest| == 0 || rest[0] != ',')
    ensures var json := p + (Key + (Escape(a + ("\"" + b)) + ("\"" + rest)));
      ExtractResponse(json) == a + "\\" && ExtractResponseFixed(json) == a + ("\"" + b)
  {
    var body := (a + "\\") + ("\"" + (b + ("\"" + rest)));
    assert Escape(a + ("\"" + b)) + ("\"" + rest) == body by {
      EscapedLoneQuoteLayout(a, b, rest);
    }
    assert ExtractResponseFixed(p + (Key + body)) == a + ("\"" + b) by {
      ExtractResponseFixedRoundTrip(p, a + ("\"" + b), rest);
    }
    assert RawField(p + (Key + body)) == Field(a + "\\") by {
      EscapedLoneQuotePlaces(a, b, rest);
      RawFieldFirstQuote(p, body, |a| + 1);
    }
    ExtractResponseOfField(p + (Key + body), a + "\\");
    UnescapeTrailingBackslash(a);
  }

  /** The scan as written on a field `a` followed by a backslash, a quote and a comma: `a` and the backslash. */
  lemma TrailingBackslashField(p: string, a: string, after: string)
    requires KeyFirstAfter(p)
    requires '"' !in a && '\\' !in a
    requires |after| > 0 && after[0] == ','
    ensures ExtractResponse(p + (Key + ((a + "\\") + ("\"" + after)))) == a + "\\"
  {
    assert '"' !in "\\";
    assert '"' !in a + "\\";
    RawFieldPlain(p, a + "\\", after);
    ExtractResponseOfField(p + (Key + ((a + "\\") + ("\"" + after))), a + "\\");
    UnescapeTrailingBackslash(a);
  }
}
