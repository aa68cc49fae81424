/**
 * The effect parser: recovers the signed money, reputation and risk deltas
 * from a choice label such as `1. Hire staff (Money [-200], Reputation [+2], Risk [+0%])`.
 *
 * The source writes its patterns as regular expressions. In OllamaAPI.cs as
 * it stands, the escaped delimiters `\(`, `\)`, `\[` and `\]` appear as
 * `$$`, two end-of-input anchors. Read that way, the segment pattern
 * matches at the end of every choice with an empty group and no stat
 * pattern can ever match, so every choice would parse to a zero effect and
 * the parse-failure reason would never be given. The comment above the
 * parser and the output format the turn template demands both show that
 * the escaped brackets are meant, so the model matches literal parentheses
 * and square brackets.
 *
 * Every pattern is matched by hand below. Each is deterministic: at every
 * point at most one way of continuing can lead to a match (`\s*` is followed
 * by a non-space literal, `\$?` by a digit, `\d+` by `%`, a space or `]`),
 * so "the first match" is the leftmost position at which the anchored
 * matcher succeeds.
 */
module EffectParser {
  import opened Strings
  import opened GameStats

  datatype StatKind = Money | Reputation | Risk

  function StatName(k: StatKind): string {
    match k
    case Money => "Money"
    case Reputation => "Reputation"
    case Risk => "Risk"
  }

  /** The delta a parsed effect gives to stat `k`. */
  function DeltaOf(e: Effect, k: StatKind): int {
    match k
    case Money => e.moneyDelta
    case Reputation => e.reputationDelta
    case Risk => e.riskDelta
  }

  /** `-` makes the magnitude negative; the other sign, `+`, keeps it. */
  function Signed(sign: char, n: nat): int {
    if sign == '-' then -(n as int) else n
  }

  /**
   * The strict token of stat `k` anchored at the front of `s`, case-insensitive:
   *   Money \s* [ \s* ([+-]) $? (\d+) \s* ]
   *   Reputation \s* [ \s* ([+-]) (\d+) \s* ]
   *   Risk \s* [ \s* ([+-]) (\d+) % \s* ]
   * giving the signed number on success.
   */
  function TokenAt(s: string, k: StatKind): Option<int> {
    MatchName(s, StatName(k), 0, k)
  }

  /**
   * The literal `name` from position `i` on, compared after case folding one
   * character at a time; then the rest of the token after the name.
   */
  function MatchName(s: string, name: string, i: nat, k: StatKind): (r: Option<int>)
    requires i <= |name|
    ensures r.Some? ==> |name| <= |s| && forall j :: i <= j < |name| ==> Lower(s[j]) == Lower(name[j])
    decreases |name| - i
  {
    if i == |name| then (if |name| <= |s| then AfterName(s[|name|..], k) else None)
    else if i < |s| && Lower(s[i]) == Lower(name[i]) then MatchName(s, name, i + 1, k)
    else None
  }

  /** `\s*\[` after the name, then the rest of the token. */
  function AfterName(t: string, k: StatKind): Option<int>
    decreases |t|
  {
    if |t| == 0 then None
    else if IsSpace(t[0]) then AfterName(t[1..], k)
    else if t[0] == '[' then AfterBracket(t[1..], k)
    else None
  }

  /** `\s*([+-])` after the opening bracket, then the rest of the token. */
  function AfterBracket(b: string, k: StatKind): Option<int>
    decreases |b|
  {
    if |b| == 0 then None
    else if IsSpace(b[0]) then AfterBracket(b[1..], k)
    else if b[0] == '+' || b[0] == '-' then AfterSign(b[0], b[1..], k)
    else None
  }

  /**
   * For money `\$?`, then the number. A `$` that is not followed by a digit
   * cannot be left unconsumed either: the number would have to start at it.
   */
  function AfterSign(sign: char, c: string, k: StatKind): Option<int> {
    if k == Money && |c| > 0 && c[0] == '$' then Number(sign, c[1..], k) else Number(sign, c, k)
  }

  /** `(\d+)`, then for risk `%`, then `\s*\]`. */
  function Number(sign: char, c: string, k: StatKind): Option<int> {
    var digits := DigitPrefix(c);
    if |digits| > 0 && Closing(c[|digits|..], k) then Some(Signed(sign, DigitsValue(digits))) else None
  }

  predicate Closing(d: string, k: StatKind) {
    if k == Risk then |d| > 0 && d[0] == '%' && CloseBracket(d[1..]) else CloseBracket(d)
  }

  /** `\s*\]`. */
  predicate CloseBracket(e: string)
    decreases |e|
  {
    |e| > 0 && (e[0] == ']' || (IsSpace(e[0]) && CloseBracket(e[1..])))
  }

  /** `Regex.Match(s, token)`: the number of the leftmost match, if any. */
  function FirstToken(s: string, k: StatKind): Option<int>
    decreases |s|
  {
    match TokenAt(s, k)
    case Some(v) => Some(v)
    case None => if |s| == 0 then None else FirstToken(s[1..], k)
  }

  /** The first match is the match at the leftmost position where the token matches. */
  lemma {:induction false} FirstTokenIsLeftmost(s: string, k: StatKind, p: nat)
    requires p <= |s| && TokenAt(s[p..], k).Some?
    requires forall q :: 0 <= q < p ==> TokenAt(s[q..], k).None?
    ensures FirstToken(s, k) == TokenAt(s[p..], k)
    decreases p
  {
    if p > 0 {
      assert s[0..] == s;
      forall q | 0 <= q < p - 1 ensures TokenAt(s[1..][q..], k).None? {
        assert s[1..][q..] == s[q + 1..];
      }
      assert s[1..][p - 1..] == s[p..];
      FirstTokenIsLeftmost(s[1..], k, p - 1);
    }
  }

  /** There is no first match exactly when the token matches at no position. */
  lemma {:induction false} FirstTokenNone(s: string, k: StatKind)
    ensures FirstToken(s, k).None? <==> forall q :: 0 <= q <= |s| ==> TokenAt(s[q..], k).None?
    decreases |s|
  {
    assert s[0..] == s;
    if TokenAt(s, k).None? && |s| > 0 {
      FirstTokenNone(s[1..], k);
      forall q | 1 <= q <= |s| ensures s[q..] == s[1..][q - 1..] { }
    }
  }

  /** No match can start at a character that is not the stat name's initial. */
  lemma {:induction false} FirstTokenSkips(x: string, y: string, k: StatKind)
    requires Avoids(x, Lower(StatName(k)[0]))
    ensures FirstToken(x + y, k) == FirstToken(y, k)
    decreases |x|
  {
    if |x| == 0 {
      assert x + y == y;
    } else {
      assert (x + y)[0] == x[0];
      assert TokenAt(x + y, k).None?;
      assert (x + y)[1..] == x[1..] + y;
      assert forall i :: 0 <= i < |x| - 1 ==> x[1..][i] == x[i + 1];
      FirstTokenSkips(x[1..], y, k);
    }
  }

  // ---------------------------------------------------------------------
  // The parenthesised segment: `\(([^)]*)\)`
  // ---------------------------------------------------------------------

  /** `s.IndexOf(c, from)`: the first position at or after `from` holding `c`. */
  function IndexOfChar(s: string, c: char, from: nat): (r: Option<nat>)
    requires from <= |s|
    ensures r.Some? ==> from <= r.value < |s| && s[r.value] == c
    ensures r.Some? ==> forall i :: from <= i < r.value ==> s[i] != c
    ensures r.None? ==> forall i :: from <= i < |s| ==> s[i] != c
    decreases |s| - from
  {
    if from == |s| then None
    else if s[from] == c then Some(from)
    else IndexOfChar(s, c, from + 1)
  }

  /** A `(` somewhere before a `)`. */
  predicate HasParenPair(s: string) {
    exists i, j :: 0 <= i < j < |s| && s[i] == '(' && s[j] == ')'
  }

  /**
   * Group 1 of the leftmost match of `\(([^)]*)\)`: the text from the first
   * `(` to the next `)`. A match has to start at a `(` and `[^)]*` cannot
   * cross a `)`, so a match starts at the first `(` exactly when any does,
   * and ends at the first `)` after it. Nested parentheses are not balanced.
   */
  function EffectSegment(choice: string): (r: Option<string>)
    ensures r.Some? ==> ')' !in r.value
    ensures r.Some? <==> HasParenPair(choice)
    ensures r.Some? ==> exists i, j :: (0 <= i < j < |choice| && choice[i] == '(' && choice[j] == ')' &&
      (forall t :: 0 <= t < i ==> choice[t] != '(') && (forall t :: i < t < j ==> choice[t] != ')') &&
      r.value == choice[i + 1..j])
  {
    match IndexOfChar(choice, '(', 0)
    case None =>
      assert !HasParenPair(choice);
      None
    case Some(i) =>
      match IndexOfChar(choice, ')', i + 1)
      case None =>
        forall i0, j0 | 0 <= i0 < j0 < |choice| && choice[i0] == '(' ensures choice[j0] != ')' {
          assert i <= i0;
        }
        None
      case Some(j) =>
        var seg := choice[i + 1..j];
        assert forall t :: 0 <= t < |seg| ==> seg[t] == choice[i + 1 + t];
        Some(seg)
  }

  // ---------------------------------------------------------------------
  // The two passes
  // ---------------------------------------------------------------------

  /** The strict pass: all three tokens must be present; each uses its first match. */
  function StrictPass(seg: string): Option<Effect> {
    match (FirstToken(seg, Money), FirstToken(seg, Reputation), FirstToken(seg, Risk))
    case (Some(m), Some(r), Some(k)) => Some(Effect(m, r, k))
    case _ => None
  }

  /** `seg.Split(',').Select(p => p.Trim())`. */
  function Fragments(seg: string): seq<string> {
    TrimAll(Split(seg, ','))
  }

  /** The loose value of stat `k`: from the last fragment that has its token, else 0. */
  function LooseStat(parts: seq<string>, k: StatKind): int
    decreases |parts|
  {
    if |parts| == 0 then 0
    else
      match FirstToken(parts[|parts| - 1], k)
      case Some(v) => v
      case None => LooseStat(parts[..|parts| - 1], k)
  }

  /** The loose pass: fragment by fragment, a later token overwriting an earlier one. */
  function LoosePass(seg: string): Effect {
    var parts := Fragments(seg);
    Effect(LooseStat(parts, Money), LooseStat(parts, Reputation), LooseStat(parts, Risk))
  }

  /**
   * What `TryParseChoiceEffect` computes: nothing without a parenthesised
   * segment; otherwise the strict pass, or the loose pass when it fails.
   */
  function ParseEffect(choice: string): (r: Option<Effect>)
    ensures r.None? <==> !HasParenPair(choice)
  {
    match EffectSegment(choice)
    case None => None
    case Some(seg) =>
      Some(match StrictPass(seg) case Some(e) => e case None => LoosePass(seg))
  }

  /**
   * `TryParseChoiceEffect(choiceText, out moneyDelta, out reputationDelta, out riskDelta)`:
   * the outs start at 0, the strict pass assigns all three at once, and the
   * loose pass walks the trimmed comma fragments overwriting each out whose
   * token a fragment holds.
   */
  method TryParseChoiceEffect(choiceText: string)
    returns (ok: bool, moneyDelta: int, reputationDelta: int, riskDelta: int)
    ensures ok <==> ParseEffect(choiceText).Some?
    ensures ok ==> ParseEffect(choiceText) == Some(Effect(moneyDelta, reputationDelta, riskDelta))
    ensures !ok ==> moneyDelta == 0 && reputationDelta == 0 && riskDelta == 0
  {
    moneyDelta, reputationDelta, riskDelta := 0, 0, 0;
    var segment := EffectSegment(choiceText);
    if segment.None? {
      return false, moneyDelta, reputationDelta, riskDelta;
    }
    var effectStr := segment.value;
    var strict := StrictPass(effectStr);
    if strict.Some? {
      return true, strict.value.moneyDelta, strict.value.reputationDelta, strict.value.riskDelta;
    }
    moneyDelta, reputationDelta, riskDelta := LooseDeltas(Fragments(effectStr));
    ok := true;
  }

  /** The loose pass's loop: each fragment's tokens overwrite the values found so far. */
  method LooseDeltas(parts: seq<string>) returns (moneyDelta: int, reputationDelta: int, riskDelta: int)
    ensures moneyDelta == LooseStat(parts, Money)
    ensures reputationDelta == LooseStat(parts, Reputation)
    ensures riskDelta == LooseStat(parts, Risk)
  {
    moneyDelta, reputationDelta, riskDelta := 0, 0, 0;
    var i := 0;
    while i < |parts|
      invariant 0 <= i <= |parts|
      invariant moneyDelta == LooseStat(parts[..i], Money)
      invariant reputationDelta == LooseStat(parts[..i], Reputation)
      invariant riskDelta == LooseStat(parts[..i], Risk)
    {
      var part := parts[i];
      LooseStatStep(parts, i, Money);
      LooseStatStep(parts, i, Reputation);
      LooseStatStep(parts, i, Risk);
      var m := FirstToken(part, Money);
      if m.Some? { moneyDelta := m.value; }
      var r := FirstToken(part, Reputation);
      if r.Some? { reputationDelta := r.value; }
      var k := FirstToken(part, Risk);
      if k.Some? { riskDelta := k.value; }
      i := i + 1;
    }
    assert parts[..|parts|] == parts;
  }

  /** One more fragment: its token, when it has one, replaces the value so far. */
  lemma LooseStatStep(parts: seq<string>, i: nat, k: StatKind)
    requires i < |parts|
    ensures LooseStat(parts[..i + 1], k) ==
      match FirstToken(parts[i], k) case Some(v) => v case None => LooseStat(parts[..i], k)
  {
    assert parts[..i + 1][..i] == parts[..i];
  }

  /** A parse fails exactly when the label has no `(` before a `)`. */
  lemma ParseFailsIffNoSegment(choice: string)
    ensures ParseEffect(choice).None? <==> EffectSegment(choice).None?
    ensures ParseEffect(choice).None? <==> !HasParenPair(choice)
  {
  }

  /** In the loose pass a stat with no token in any fragment is 0. */
  lemma {:induction false} LooseStatAbsent(parts: seq<string>, k: StatKind)
    requires forall i :: 0 <= i < |parts| ==> FirstToken(parts[i], k).None?
    ensures LooseStat(parts, k) == 0
    decreases |parts|
  {
    if |parts| > 0 {
      LooseStatAbsent(parts[..|parts| - 1], k);
    }
  }

  /** In the loose pass the last fragment holding a token decides the stat. */
  lemma {:induction false} LooseStatLastWins(parts: seq<string>, k: StatKind, j: nat, v: int)
    requires j < |parts| && FirstToken(parts[j], k) == Some(v)
    requires forall i :: j < i < |parts| ==> FirstToken(parts[i], k).None?
    ensures LooseStat(parts, k) == v
    decreases |parts|
  {
    if j < |parts| - 1 {
      LooseStatLastWins(parts[..|parts| - 1], k, j, v);
    }
  }

  /**
   * When the strict pass fails, a stat whose token appears in no fragment
   * defaults to 0, and the parse still succeeds.
   */
  lemma UnmatchedStatIsZero(choice: string, k: StatKind)
    requires EffectSegment(choice).Some?
    requires StrictPass(EffectSegment(choice).value).None?
    requires forall i :: 0 <= i < |Fragments(EffectSegment(choice).value)| ==>
               FirstToken(Fragments(EffectSegment(choice).value)[i], k).None?
    ensures ParseEffect(choice).Some? && DeltaOf(ParseEffect(choice).value, k) == 0
  {
    LooseStatAbsent(Fragments(EffectSegment(choice).value), k);
  }

  // ---------------------------------------------------------------------
  // Well-formed labels, in the format the turn template asks for
  // ---------------------------------------------------------------------

  function SignText(v: int): string {
    if v < 0 then "-" else "+"
  }

  function Magnitude(v: int): nat {
    if v < 0 then -v else v
  }

  function DollarText(k: StatKind, dollar: bool): string {
    if dollar && k == Money then "$" else ""
  }

  function CloseText(k: StatKind): string {
    if k == Risk then "%]" else "]"
  }

  /** After the stat name: ` [+250]`, ` [-$80]` or ` [+5%]`, followed by `rest`. */
  function TailWith(k: StatKind, v: int, dollar: bool, rest: string): string {
    " [" + (SignText(v) + (DollarText(k, dollar) + (NatToDecimal(Magnitude(v)) + (CloseText(k) + rest))))
  }

  /** A well-formed token followed by `rest`: `Money [+250]`, `Money [+$250]`, `Reputation [-2]`, `Risk [+5%]`. */
  function TokenWith(k: StatKind, v: int, dollar: bool, rest: string): string {
    StatName(k) + TailWith(k, v, dollar, rest)
  }

  function TokenText(k: StatKind, v: int, dollar: bool): string {
    TokenWith(k, v, dollar, "")
  }

  /** `Money [±m], Reputation [±r], Risk [±k%]`. */
  function EffectText(e: Effect, dollar: bool): string {
    TokenWith(Money, e.moneyDelta, dollar,
      ", " + TokenWith(Reputation, e.reputationDelta, dollar,
      ", " + TokenText(Risk, e.riskDelta, dollar)))
  }

  /** `<action> (<segment>)`. */
  function Parenthesised(action: string, segment: string): string {
    action + (" (" + (segment + ")"))
  }

  // --- matching a well-formed token ---

  /** A well-formed token is matched at the front of any text, with its own value. */
  lemma TokenAtText(k: StatKind, v: int, dollar: bool, rest: string)
    ensures TokenAt(TokenWith(k, v, dollar, rest), k) == Some(v)
  {
    var sign, dollarText, num := SignText(v), DollarText(k, dollar), NatToDecimal(Magnitude(v));
    assert TokenWith(k, v, dollar, rest) == StatName(k) + (" [" + (sign + (dollarText + (num + (CloseText(k) + rest)))));
    TokenAtParts(k, sign, dollarText, num, rest);
    DecimalRoundTrip(Magnitude(v));
    assert Signed(sign[0], DigitsValue(num)) == v;
  }

  lemma FirstTokenOfText(k: StatKind, v: int, dollar: bool, rest: string)
    ensures FirstToken(TokenWith(k, v, dollar, rest), k) == Some(v)
  {
    TokenAtText(k, v, dollar, rest);
  }

  lemma TokenAtParts(k: StatKind, sign: string, dollarText: string, num: string, rest: string)
    requires sign == "+" || sign == "-"
    requires dollarText == "$" || dollarText == ""
    requires dollarText == "$" ==> k == Money
    requires |num| > 0 && AllDigits(num)
    ensures TokenAt(StatName(k) + (" [" + (sign + (dollarText + (num + (CloseText(k) + rest))))), k)
         == Some(Signed(sign[0], DigitsValue(num)))
  {
    var d := CloseText(k) + rest;
    var c := num + d;
    var b := sign + (dollarText + c);
    AfterStatName(k, " [" + b);
    AfterOpening(k, b, sign, dollarText, c);
    NumberOf(sign, num, d, k);
    ClosingOf(rest, k);
  }

  lemma AfterStatName(k: StatKind, t: string)
    ensures TokenAt(StatName(k) + t, k) == AfterName(t, k)
  {
    MatchNameOf(StatName(k), t, 0, k);
  }

  lemma {:induction false} MatchNameOf(name: string, t: string, i: nat, k: StatKind)
    requires i <= |name|
    ensures MatchName(name + t, name, i, k) == AfterName(t, k)
    decreases |name| - i
  {
    if i == |name| {
      assert (name + t)[|name|..] == t;
    } else {
      assert (name + t)[i] == name[i];
      MatchNameOf(name, t, i + 1, k);
    }
  }

  lemma AfterOpening(k: StatKind, b: string, sign: string, dollarText: string, c: string)
    requires sign == "+" || sign == "-"
    requires dollarText == "$" || dollarText == ""
    requires dollarText == "$" ==> k == Money
    requires |c| > 0 && IsDigit(c[0])
    requires b == sign + (dollarText + c)
    ensures AfterName(" [" + b, k) == Number(sign[0], c, k)
  {
    AfterNameOf(b, k);
    AfterBracketOf(sign, dollarText, c, k);
  }

  lemma AfterNameOf(b: string, k: StatKind)
    ensures AfterName(" [" + b, k) == AfterBracket(b, k)
  {
    var s := " [" + b;
    assert s[0] == ' ' && s[1..] == "[" + b;
    assert s[1..][0] == '[' && s[1..][1..] == b;
  }

  lemma AfterBracketOf(sign: string, dollarText: string, c: string, k: StatKind)
    requires sign == "+" || sign == "-"
    requires dollarText == "$" || dollarText == ""
    requires dollarText == "$" ==> k == Money
    requires |c| > 0 && IsDigit(c[0])
    ensures AfterBracket(sign + (dollarText + c), k) == Number(sign[0], c, k)
  {
    var b := sign + (dollarText + c);
    assert b[0] == sign[0] && b[1..] == dollarText + c;
    AfterSignOf(sign[0], dollarText, c, k);
  }

  lemma AfterSignOf(sign: char, dollarText: string, c: string, k: StatKind)
    requires dollarText == "$" || dollarText == ""
    requires dollarText == "$" ==> k == Money
    requires |c| > 0 && IsDigit(c[0])
    ensures AfterSign(sign, dollarText + c, k) == Number(sign, c, k)
  {
    if dollarText == "$" {
      assert (dollarText + c)[0] == '$' && (dollarText + c)[1..] == c;
    } else {
      assert dollarText + c == c;
    }
  }

  lemma NumberOf(sign: string, num: string, d: string, k: StatKind)
    requires |sign| == 1 && |num| > 0 && AllDigits(num)
    requires |d| > 0 && !IsDigit(d[0])
    ensures Number(sign[0], num + d, k) ==
              if Closing(d, k) then Some(Signed(sign[0], DigitsValue(num))) else None
  {
    NumeralBody(num, d);
  }

  lemma ClosingOf(rest: string, k: StatKind)
    ensures Closing(CloseText(k) + rest, k)
  {
    var d := CloseText(k) + rest;
    if k == Risk {
      assert d[0] == '%' && d[1..] == "]" + rest;
      assert d[1..][0] == ']';
    } else {
      assert d[0] == ']';
    }
  }

  // --- where the other stats' tokens cannot match ---

  /** The initial letter of a stat name, folded: `m` or `r`. */
  lemma InitialIsLetter(k: StatKind)
    ensures 'a' <= Lower(StatName(k)[0]) <= 'z'
  {
  }

  /** Nothing after a stat name, up to `rest`, can start a match. */
  lemma TailSkips(k0: StatKind, v: int, dollar: bool, rest: string, k: StatKind)
    ensures FirstToken(TailWith(k0, v, dollar, rest), k) == FirstToken(rest, k)
  {
    var c := Lower(StatName(k)[0]);
    InitialIsLetter(k);
    var sign, dollarText, num := SignText(v), DollarText(k0, dollar), NatToDecimal(Magnitude(v));
    assert TailWith(k0, v, dollar, rest) == " [" + (sign + (dollarText + (num + (CloseText(k0) + rest))));
    DigitsAvoidLetters(num, c);
    assert Avoids(sign, c) && Avoids(dollarText, c) && Avoids(CloseText(k0), c);
    PiecesSkip(sign, dollarText, num, CloseText(k0), rest, k);
  }

  lemma PiecesSkip(sign: string, dollarText: string, num: string, close: string, rest: string, k: StatKind)
    requires var c := Lower(StatName(k)[0]);
      Avoids(sign, c) && Avoids(dollarText, c) && Avoids(num, c) && Avoids(close, c)
    ensures FirstToken(" [" + (sign + (dollarText + (num + (close + rest)))), k) == FirstToken(rest, k)
  {
    InitialIsLetter(k);
    FirstTokenSkips(" [", sign + (dollarText + (num + (close + rest))), k);
    FirstTokenSkips(sign, dollarText + (num + (close + rest)), k);
    FirstTokenSkips(dollarText, num + (close + rest), k);
    FirstTokenSkips(num, close + rest, k);
    FirstTokenSkips(close, rest, k);
  }

  /** A name of another stat cannot start a match, nor any letter inside it. */
  lemma NameSkips(k0: StatKind, t: string, k: StatKind)
    requires k0 != k
    ensures FirstToken(StatName(k0) + t, k) == FirstToken(t, k)
  {
    if k0 == Money {
      MoneyNameSkips(t, k);
    } else if k == Money {
      NameSkipsForMoney(k0, t);
    } else if k0 == Reputation {
      ReputationNameSkips(t);
    } else {
      RiskNameSkips(t);
    }
  }

  /** `Money` holds no `r`. */
  lemma MoneyNameSkips(t: string, k: StatKind)
    requires k != Money
    ensures FirstToken("Money" + t, k) == FirstToken(t, k)
  {
    assert Lower(StatName(k)[0]) == 'r';
    assert Avoids("Money", 'r');
    FirstTokenSkips("Money", t, k);
  }

  /** `Reputation` and `Risk` hold no `m`. */
  lemma NameSkipsForMoney(k0: StatKind, t: string)
    requires k0 != Money
    ensures FirstToken(StatName(k0) + t, Money) == FirstToken(t, Money)
  {
    if k0 == Reputation {
      assert Avoids("Reputation", 'm');
    } else {
      assert Avoids("Risk", 'm');
    }
    FirstTokenSkips(StatName(k0), t, Money);
  }

  /** `Reputation` starts with `R` but is not `Risk`, and holds no other `r`. */
  lemma ReputationNameSkips(t: string)
    ensures FirstToken("Reputation" + t, Risk) == FirstToken(t, Risk)
  {
    var s := "Reputation" + t;
    assert s[0] == 'R' && s[1] == 'e' && s[1..] == "eputation" + t;
    assert MatchName(s, "Risk", 1, Risk).None?;
    assert TokenAt(s, Risk).None?;
    assert Avoids("eputation", 'r');
    FirstTokenSkips("eputation", t, Risk);
  }

  /** `Risk` starts with `R` but is not `Reputation`, and holds no other `r`. */
  lemma RiskNameSkips(t: string)
    ensures FirstToken("Risk" + t, Reputation) == FirstToken(t, Reputation)
  {
    var s := "Risk" + t;
    assert s[0] == 'R' && s[1] == 'i' && s[1..] == "isk" + t;
    assert MatchName(s, "Reputation", 1, Reputation).None?;
    assert TokenAt(s, Reputation).None?;
    assert Avoids("isk", 'r');
    FirstTokenSkips("isk", t, Reputation);
  }

  /** A well-formed token of another stat holds no match of `k`'s token. */
  lemma TokenSkipsOther(k0: StatKind, v: int, dollar: bool, rest: string, k: StatKind)
    requires k0 != k
    ensures FirstToken(TokenWith(k0, v, dollar, rest), k) == FirstToken(rest, k)
  {
    NameSkips(k0, TailWith(k0, v, dollar, rest), k);
    TailSkips(k0, v, dollar, rest, k);
  }

  lemma SeparatorSkips(y: string, k: StatKind)
    ensures FirstToken(", " + y, k) == FirstToken(y, k)
  {
    InitialIsLetter(k);
    FirstTokenSkips(", ", y, k);
  }

  // --- the characters of a well-formed token ---

  /** A well-formed token holds no `,` and no `)` of its own. */
  lemma TokenLacks(k: StatKind, v: int, dollar: bool, rest: string, c: char)
    requires c == ',' || c == ')'
    requires c !in rest
    ensures c !in TokenWith(k, v, dollar, rest)
  {
    var sign, dollarText, num := SignText(v), DollarText(k, dollar), NatToDecimal(Magnitude(v));
    assert TokenWith(k, v, dollar, rest) == StatName(k) + (" [" + (sign + (dollarText + (num + (CloseText(k) + rest)))));
    DigitsLack(num, c);
    assert c !in StatName(k) && c !in sign && c !in dollarText && c !in CloseText(k);
    PiecesLack(c, StatName(k), sign, dollarText, num, CloseText(k), rest);
  }

  lemma PiecesLack(c: char, name: string, sign: string, dollarText: string, num: string, close: string, rest: string)
    requires c != ' ' && c != '['
    requires c !in name && c !in sign && c !in dollarText && c !in num && c !in close && c !in rest
    ensures c !in name + (" [" + (sign + (dollarText + (num + (close + rest)))))
  {
  }

  lemma TokenTextFacts(k: StatKind, v: int, dollar: bool)
    ensures ',' !in TokenText(k, v, dollar) && ')' !in TokenText(k, v, dollar)
    ensures |TokenText(k, v, dollar)| > 0 && TokenText(k, v, dollar)[0] == StatName(k)[0]
    ensures TokenText(k, v, dollar)[|TokenText(k, v, dollar)| - 1] == ']'
  {
    TokenLacks(k, v, dollar, "", ',');
    TokenLacks(k, v, dollar, "", ')');
    var sign, dollarText, num := SignText(v), DollarText(k, dollar), NatToDecimal(Magnitude(v));
    assert CloseText(k) + "" == CloseText(k);
    assert TokenText(k, v, dollar) == StatName(k) + (" [" + (sign + (dollarText + (num + CloseText(k)))));
    EndsOfPieces(StatName(k), sign, dollarText, num, CloseText(k));
  }

  lemma EndsOfPieces(name: string, sign: string, dollarText: string, num: string, close: string)
    requires |name| > 0 && |close| > 0
    ensures var s := name + (" [" + (sign + (dollarText + (num + close))));
      s[0] == name[0] && s[|s| - 1] == close[|close| - 1]
  {
  }

  // --- splitting a well-formed segment at its commas ---

  lemma {:induction false} SplitPrefix(x: string, y: string, sep: char)
    requires sep !in x
    ensures Split(x + y, sep)[0] == x + Split(y, sep)[0]
    ensures Split(x + y, sep)[1..] == Split(y, sep)[1..]
    decreases |x|
  {
    if |x| == 0 {
      assert x + y == y;
    } else {
      assert (x + y)[1..] == x[1..] + y;
      SplitPrefix(x[1..], y, sep);
      assert [x[0]] + x[1..] == x;
    }
  }

  /** A token holds no comma, so splitting it off leaves its text whole in the first piece. */
  lemma SplitToken(k: StatKind, v: int, dollar: bool, rest: string)
    ensures Split(TokenWith(k, v, dollar, rest), ',')
         == [TokenWith(k, v, dollar, Split(rest, ',')[0])] + Split(rest, ',')[1..]
  {
    var sign, dollarText, num := SignText(v), DollarText(k, dollar), NatToDecimal(Magnitude(v));
    var first := Split(rest, ',')[0];
    assert TokenWith(k, v, dollar, rest) == StatName(k) + (" [" + (sign + (dollarText + (num + (CloseText(k) + rest)))));
    assert TokenWith(k, v, dollar, first) == StatName(k) + (" [" + (sign + (dollarText + (num + (CloseText(k) + first)))));
    DigitsLack(num, ',');
    assert ',' !in StatName(k) && ',' !in sign && ',' !in dollarText && ',' !in CloseText(k);
    SplitPieces(StatName(k), sign, dollarText, num, CloseText(k), rest);
  }

  lemma SplitPieces(name: string, sign: string, dollarText: string, num: string, close: string, rest: string)
    requires ',' !in name && ',' !in sign && ',' !in dollarText && ',' !in num && ',' !in close
    ensures Split(name + (" [" + (sign + (dollarText + (num + (close + rest))))), ',')
         == [name + (" [" + (sign + (dollarText + (num + (close + Split(rest, ',')[0])))))] + Split(rest, ',')[1..]
  {
    var c := close + rest;
    var n := num + c;
    var dd := dollarText + n;
    var sg := sign + dd;
    var tail := " [" + sg;
    SplitPrefix(close, rest, ',');
    SplitPrefix(num, c, ',');
    SplitPrefix(dollarText, n, ',');
    SplitPrefix(sign, dd, ',');
    SplitPrefix(" [", sg, ',');
    SplitPrefix(name, tail, ',');
    var p := Split(name + tail, ',');
    assert p == [p[0]] + p[1..];
  }

  // --- round trips ---

  /** The segment of `<action> (<segment>)` is `<segment>`, when the action holds no `(`. */
  lemma SegmentOfParenthesised(action: string, segment: string)
    requires '(' !in action && ')' !in segment
    ensures EffectSegment(Parenthesised(action, segment)) == Some(segment)
  {
    var s := Parenthesised(action, segment);
    var i := |action| + 1;
    assert s[i] == '(';
    assert forall t :: 0 <= t < i ==> s[t] != '(' by {
      assert forall t :: 0 <= t < |action| ==> s[t] == action[t];
    }
    assert IndexOfChar(s, '(', 0) == Some(i);
    var j := i + 1 + |segment|;
    assert s[j] == ')';
    assert forall t :: i + 1 <= t < j ==> s[t] == segment[t - i - 1];
    assert IndexOfChar(s, ')', i + 1) == Some(j);
    assert s[i + 1..j] == segment;
  }

  /** The strict pass recovers exactly the effect a well-formed segment states. */
  lemma StrictPassOfEffectText(e: Effect, dollar: bool)
    ensures StrictPass(EffectText(e, dollar)) == Some(e)
  {
    var kt := TokenText(Risk, e.riskDelta, dollar);
    var rt := TokenWith(Reputation, e.reputationDelta, dollar, ", " + kt);
    // money: the token at the very front
    FirstTokenOfText(Money, e.moneyDelta, dollar, ", " + rt);
    // reputation: after the money token and a separator
    TokenSkipsOther(Money, e.moneyDelta, dollar, ", " + rt, Reputation);
    SeparatorSkips(rt, Reputation);
    FirstTokenOfText(Reputation, e.reputationDelta, dollar, ", " + kt);
    // risk: the reputation token starts with `R` but does not match
    TokenSkipsOther(Money, e.moneyDelta, dollar, ", " + rt, Risk);
    SeparatorSkips(rt, Risk);
    TokenSkipsOther(Reputation, e.reputationDelta, dollar, ", " + kt, Risk);
    SeparatorSkips(kt, Risk);
    FirstTokenOfText(Risk, e.riskDelta, dollar, "");
  }

  /** A well-formed segment holds no `)`. */
  lemma EffectTextLacksParen(e: Effect, dollar: bool)
    ensures ')' !in EffectText(e, dollar)
  {
    var kt := TokenText(Risk, e.riskDelta, dollar);
    TokenLacks(Risk, e.riskDelta, dollar, "", ')');
    TokenLacks(Reputation, e.reputationDelta, dollar, ", " + kt, ')');
    var rt := TokenWith(Reputation, e.reputationDelta, dollar, ", " + kt);
    TokenLacks(Money, e.moneyDelta, dollar, ", " + rt, ')');
  }

  /**
   * Round trip: a label `<action> (Money [±m], Reputation [±r], Risk [±k%])`
   * parses to exactly (m, r, k), with or without the `$` after the money sign.
   */
  lemma ParseChoiceLabel(action: string, e: Effect, dollar: bool)
    requires '(' !in action
    ensures ParseEffect(Parenthesised(action, EffectText(e, dollar))) == Some(e)
  {
    EffectTextLacksParen(e, dollar);
    SegmentOfParenthesised(action, EffectText(e, dollar));
    StrictPassOfEffectText(e, dollar);
  }

  /** The fragments of `Money [±m], Risk [±k%]` are the two tokens. */
  lemma FragmentsOfTwo(m: int, k: int, dollar: bool)
    ensures Fragments(TokenWith(Money, m, dollar, ", " + TokenText(Risk, k, dollar)))
         == [TokenText(Money, m, dollar), TokenText(Risk, k, dollar)]
  {
    var mt := TokenText(Money, m, dollar);
    var kt := TokenText(Risk, k, dollar);
    SplitOfTwo(m, k, dollar);
    TrimmedToken(Money, m, dollar);
    TrimmedToken(Risk, k, dollar);
    FragmentsOfPair(TokenWith(Money, m, dollar, ", " + kt), mt, " " + kt);
  }

  /** A token has no white space at either end, so trimming leaves it, even after one leading space. */
  lemma TrimmedToken(k: StatKind, v: int, dollar: bool)
    ensures Trim(TokenText(k, v, dollar)) == TokenText(k, v, dollar)
    ensures Trim(" " + TokenText(k, v, dollar)) == TokenText(k, v, dollar)
  {
    TokenTextFacts(k, v, dollar);
    TrimOfUnpadded(TokenText(k, v, dollar));
  }

  lemma SplitOfTwo(m: int, k: int, dollar: bool)
    ensures Split(TokenWith(Money, m, dollar, ", " + TokenText(Risk, k, dollar)), ',')
         == [TokenText(Money, m, dollar), " " + TokenText(Risk, k, dollar)]
  {
    var kt := TokenText(Risk, k, dollar);
    TokenLacks(Risk, k, dollar, "", ',');
    SplitAfterSeparator(kt);
    SplitToken(Money, m, dollar, ", " + kt);
  }

  lemma SplitAfterSeparator(t: string)
    requires ',' !in t
    ensures Split(", " + t, ',') == ["", " " + t]
  {
    assert (", " + t)[1..] == " " + t;
    SplitWithoutSeparator(" " + t, ',');
  }

  lemma FragmentsOfPair(seg: string, a: string, b: string)
    requires Split(seg, ',') == [a, b]
    ensures Fragments(seg) == [Trim(a), Trim(b)]
  {
    TrimAllMeans([a, b]);
  }

  /**
   * The loose fallback: a label with Money and Risk tokens but no Reputation
   * token fails the strict pass and still parses, with a reputation delta of 0.
   */
  lemma ParseWithoutReputation(action: string, m: int, k: int, dollar: bool)
    requires '(' !in action
    ensures ParseEffect(Parenthesised(action, TokenWith(Money, m, dollar, ", " + TokenText(Risk, k, dollar))))
         == Some(Effect(m, 0, k))
  {
    var kt := TokenText(Risk, k, dollar);
    var seg := TokenWith(Money, m, dollar, ", " + kt);
    TokenLacks(Risk, k, dollar, "", ')');
    TokenLacks(Money, m, dollar, ", " + kt, ')');
    SegmentOfParenthesised(action, seg);
    StrictPassWithoutReputation(m, k, dollar);
    LoosePassOfTwo(m, k, dollar);
  }

  /** Without a reputation token the strict pass fails. */
  lemma StrictPassWithoutReputation(m: int, k: int, dollar: bool)
    ensures StrictPass(TokenWith(Money, m, dollar, ", " + TokenText(Risk, k, dollar))).None?
  {
    var kt := TokenText(Risk, k, dollar);
    TokenSkipsOther(Money, m, dollar, ", " + kt, Reputation);
    SeparatorSkips(kt, Reputation);
    TokenSkipsOther(Risk, k, dollar, "", Reputation);
    assert FirstToken("", Reputation).None?;
  }

  /** The loose pass over `Money [±m], Risk [±k%]` takes each token from its own fragment. */
  lemma LoosePassOfTwo(m: int, k: int, dollar: bool)
    ensures LoosePass(TokenWith(Money, m, dollar, ", " + TokenText(Risk, k, dollar))) == Effect(m, 0, k)
  {
    var mt := TokenText(Money, m, dollar);
    var kt := TokenText(Risk, k, dollar);
    FragmentsOfTwo(m, k, dollar);
    TokenSkipsOther(Risk, k, dollar, "", Money);
    FirstTokenOfText(Money, m, dollar, "");
    TokenSkipsOther(Money, m, dollar, "", Reputation);
    TokenSkipsOther(Risk, k, dollar, "", Reputation);
    FirstTokenOfText(Risk, k, dollar, "");
    assert FirstToken("", Money).None? && FirstToken("", Reputation).None?;
    LooseStatOfPair(mt, kt, Money);
    LooseStatOfPair(mt, kt, Reputation);
    LooseStatOfPair(mt, kt, Risk);
  }

  /** The loose value over two fragments: the second fragment's token, else the first's, else 0. */
  lemma LooseStatOfPair(a: string, b: string, k: StatKind)
    ensures LooseStat([a, b], k) ==
      match FirstToken(b, k)
      case Some(v) => v
      case None => (match FirstToken(a, k) case Some(v) => v case None => 0)
  {
    assert [a, b][..1] == [a] && [a][..0] == [];
    assert LooseStat([a], k) == match FirstToken(a, k) case Some(v) => v case None => LooseStat([], k);
  }
}
