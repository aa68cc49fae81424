/**
 * Reading the model's numbered reply (`ShowChoicesFromNumberedReply`): the
 * reply is cut into trimmed non-empty lines, the first three lines that
 * start with `\d+[.)]` fill the three choice slots, renumbered 1 to 3, and
 * the first line that is not numbered is the summary.
 */
module ReplyParser {
  import opened Strings

  /** The text of an unused slot, and of every slot after `DisableAllChoiceButtons`. */
  const Placeholder: string := "..."

  // ---------------------------------------------------------------------
  // Lines of the reply
  // ---------------------------------------------------------------------

  /**
   * `Select(l => l.Trim()).Where(l => !string.IsNullOrEmpty(l))` over the
   * pieces, in one pass: each piece trimmed, the empty ones dropped.
   */
  function LinesOf(pieces: seq<string>): (lines: seq<string>)
    ensures |lines| <= |pieces|
    decreases |pieces|
  {
    if |pieces| == 0 then []
    else
      var t := Trim(pieces[0]);
      (if t == [] then [] else [t]) + LinesOf(pieces[1..])
  }

  /** `aiReply.Split('\n').Select(l => l.Trim()).Where(l => !string.IsNullOrEmpty(l))`. */
  function ReplyLines(reply: string): seq<string>
  {
    LinesOf(Split(reply, '\n'))
  }

  /** `Where(l => !string.IsNullOrEmpty(l))` on its own: the non-empty strings, in order. */
  function NonEmpty(parts: seq<string>): (kept: seq<string>)
    ensures |kept| <= |parts|
    decreases |parts|
  {
    if |parts| == 0 then []
    else (if parts[0] == [] then [] else [parts[0]]) + NonEmpty(parts[1..])
  }

  /** The one pass is the two-stage pipeline: trim every piece, then keep the non-empty ones. */
  lemma {:induction false} LinesOfPipeline(pieces: seq<string>)
    ensures LinesOf(pieces) == NonEmpty(TrimAll(pieces))
    decreases |pieces|
  {
    if |pieces| > 0 {
      var trimmed := TrimAll(pieces);
      assert trimmed == [Trim(pieces[0])] + TrimAll(pieces[1..]);
      assert trimmed[1..] == TrimAll(pieces[1..]);
      LinesOfPipeline(pieces[1..]);
    }
  }

  lemma TrimUnpadded(t: string, piece: string)
    requires t == Trim(piece)
    ensures t == [] || Unpadded(t)
  {
  }

  /** Every line kept is non-empty and carries no white space at either end. */
  lemma {:induction false} LinesOfUnpadded(pieces: seq<string>)
    ensures forall i :: 0 <= i < |LinesOf(pieces)| ==> Unpadded(LinesOf(pieces)[i])
    decreases |pieces|
  {
    if |pieces| > 0 {
      var t := Trim(pieces[0]);
      TrimUnpadded(t, pieces[0]);
      LinesOfUnpadded(pieces[1..]);
      var head := if t == [] then [] else [t];
      assert LinesOf(pieces) == head + LinesOf(pieces[1..]);
    }
  }

  /** Every line of a reply is non-empty and carries no white space at either end. */
  lemma ReplyLinesUnpadded(reply: string)
    ensures forall i :: 0 <= i < |ReplyLines(reply)| ==> Unpadded(ReplyLines(reply)[i])
  {
    LinesOfUnpadded(Split(reply, '\n'));
  }

  /** Pieces that are already unpadded lines are kept exactly. */
  lemma {:induction false} LinesOfLines(lines: seq<string>)
    requires forall i :: 0 <= i < |lines| ==> Unpadded(lines[i])
    ensures LinesOf(lines) == lines
    decreases |lines|
  {
    if |lines| > 0 {
      TrimOfTrimmed(lines[0]);
      LinesOfLines(lines[1..]);
      assert [lines[0]] + lines[1..] == lines;
    }
  }

  /**
   * Unpadded lines that hold no line break are read back exactly from the
   * reply that joins them with line breaks.
   */
  lemma ReplyLinesOfJoin(lines: seq<string>)
    requires |lines| >= 1
    requires forall i :: 0 <= i < |lines| ==> Unpadded(lines[i]) && '\n' !in lines[i]
    ensures ReplyLines(Join(lines, '\n')) == lines
  {
    SplitOfJoin(lines, '\n');
    LinesOfLines(lines);
  }

  /** A line of white space between two lines of the reply is dropped. */
  lemma BlankLineDropped(a: string, b: string)
    requires Unpadded(a) && '\n' !in a
    requires Unpadded(b) && '\n' !in b
    ensures ReplyLines(a + "\n \n" + b) == [a, b]
  {
    var parts := [a, " ", b];
    JoinOfThree(a, " ", b);
    assert Join(parts, '\n') == a + "\n \n" + b;
    SplitOfJoin(parts, '\n');
    TrimOfSpace(' ');
    TrimOfTrimmed(a);
    TrimOfTrimmed(b);
    assert parts[1..] == [" ", b] && parts[1..][1..] == [b] && parts[1..][1..][1..] == [];
    assert LinesOf([b]) == [b];
    assert LinesOf([" ", b]) == [b];
    assert LinesOf(parts) == [a, b];
  }

  lemma JoinOfThree(a: string, x: string, b: string)
    ensures Join([a, x, b], '\n') == a + "\n" + x + "\n" + b
  {
    var parts := [a, x, b];
    assert parts[1..] == [x, b] && parts[1..][1..] == [b];
    assert Join([x, b], '\n') == x + "\n" + b;
    assert Join(parts, '\n') == a + "\n" + (x + "\n" + b);
  }

  lemma TrimOfSpace(c: char)
    requires IsSpace(c)
    ensures Trim([c]) == []
  {
    assert [c][1..] == [];
    assert SkipSpaces([c]) == [];
  }

  // ---------------------------------------------------------------------
  // Numbered lines
  // ---------------------------------------------------------------------

  /**
   * `Regex.IsMatch(line, @"^\d+[\.\)]")`. The greedy `\d+` cannot give back a
   * digit, since a digit is neither `.` nor `)`, so the longest digit prefix decides.
   */
  predicate IsNumbered(line: string) {
    var d := DigitPrefix(line);
    1 <= |d| < |line| && (line[|d|] == '.' || line[|d|] == ')')
  }

  /**
   * `Regex.Replace(line, @"^\d+[\.\)]\s*", "")` on a numbered line: what is
   * cut off is the leading digits, the `.` or `)` after them and the white
   * space that follows, all of it.
   */
  function StripNumber(line: string): (clean: string)
    requires IsNumbered(line)
    ensures |clean| < |line| && clean == line[|line| - |clean|..]
    ensures |DigitPrefix(line)| + 1 <= |line| - |clean|
    ensures forall i :: |DigitPrefix(line)| + 1 <= i < |line| - |clean| ==> IsSpace(line[i])
    ensures clean == [] || !IsSpace(clean[0])
  {
    SkipSpaces(line[|DigitPrefix(line)| + 1..])
  }

  /** `$"{iChoice + 1}. {cleanText}"`. */
  function Renumbered(k: nat, clean: string): string {
    NatToDecimal(k + 1) + (". " + clean)
  }

  /** A renumbered slot is itself a numbered line, and stripping it gives back its text. */
  lemma RenumberedRoundTrip(k: nat, clean: string)
    requires clean == [] || !IsSpace(clean[0])
    ensures IsNumbered(Renumbered(k, clean))
    ensures StripNumber(Renumbered(k, clean)) == clean
  {
    var d := NatToDecimal(k + 1);
    NumeralBody(d, ". " + clean);
    var line := Renumbered(k, clean);
    assert line[|d|..] == ". " + clean;
    assert line[|d| + 1..] == " " + clean;
    SkipSpacesOfNonSpace(clean);
    assert (" " + clean)[1..] == clean;
  }

  /** The numbered lines, in their order in the reply. */
  function Numbered(lines: seq<string>): (ns: seq<string>)
    ensures |ns| <= |lines|
    ensures forall i :: 0 <= i < |ns| ==> IsNumbered(ns[i])
    decreases |lines|
  {
    if |lines| == 0 then []
    else
      var last := lines[|lines| - 1];
      Numbered(lines[..|lines| - 1]) + (if IsNumbered(last) then [last] else [])
  }

  /** One line is kept exactly when it is numbered; with `NumberedAppend` this fixes `Numbered` on every list. */
  lemma NumberedSingle(line: string)
    ensures IsNumbered(line) ==> Numbered([line]) == [line]
    ensures !IsNumbered(line) ==> Numbered([line]) == []
  {
    assert [line][..0] == [];
  }

  lemma NumberedStep(lines: seq<string>, i: nat)
    requires i < |lines|
    ensures Numbered(lines[..i + 1]) == Numbered(lines[..i]) + (if IsNumbered(lines[i]) then [lines[i]] else [])
  {
    assert lines[..i + 1][..i] == lines[..i];
  }

  /** The numbered lines of two blocks of lines are those of the first, then those of the second. */
  lemma {:induction false} NumberedAppend(a: seq<string>, b: seq<string>)
    ensures Numbered(a + b) == Numbered(a) + Numbered(b)
    decreases |b|
  {
    if |b| == 0 {
      assert a + b == a;
    } else {
      var b' := b[..|b| - 1];
      NumberedAppend(a, b');
      assert (a + b)[..|a + b| - 1] == a + b';
    }
  }

  lemma {:induction false} NumberedOfNumbered(lines: seq<string>)
    requires forall i :: 0 <= i < |lines| ==> IsNumbered(lines[i])
    ensures Numbered(lines) == lines
    decreases |lines|
  {
    if |lines| > 0 {
      NumberedOfNumbered(lines[..|lines| - 1]);
    }
  }

  // ---------------------------------------------------------------------
  // Slots and summary
  // ---------------------------------------------------------------------

  /** `choiceLines[k]` after the loop: the `k`-th numbered line renumbered, or the placeholder. */
  function Slot(lines: seq<string>, k: nat): string {
    var ns := Numbered(lines);
    if k < |ns| then Renumbered(k, StripNumber(ns[k])) else Placeholder
  }

  /** `mainSentence`: the first line that is not numbered, if there is one. */
  function Summary(lines: seq<string>): Option<string>
    decreases |lines|
  {
    if |lines| == 0 then None
    else
      match Summary(lines[..|lines| - 1])
      case Some(s) => Some(s)
      case None =>
        var last := lines[|lines| - 1];
        if IsNumbered(last) then None else Some(last)
  }

  lemma SummaryStep(lines: seq<string>, i: nat)
    requires i < |lines|
    ensures Summary(lines[..i + 1]) ==
      if Summary(lines[..i]).Some? || IsNumbered(lines[i]) then Summary(lines[..i]) else Some(lines[i])
  {
    assert lines[..i + 1][..i] == lines[..i];
  }

  /** A slot shows the placeholder exactly when there are not enough numbered lines to fill it. */
  lemma SlotFilled(lines: seq<string>, k: nat)
    ensures Slot(lines, k) != Placeholder <==> k < |Numbered(lines)|
  {
    var ns := Numbered(lines);
    if k < |ns| {
      var text := Slot(lines, k);
      assert text[0] == NatToDecimal(k + 1)[0];
      assert IsDigit(text[0]) && !IsDigit(Placeholder[0]);
    }
  }

  /** Numbered lines after the third change no slot. */
  lemma SlotsIgnoreExtra(lines: seq<string>, extra: seq<string>, k: nat)
    requires |Numbered(lines)| >= 3 && k < 3
    ensures Slot(lines + extra, k) == Slot(lines, k)
  {
    NumberedAppend(lines, extra);
    assert Numbered(lines + extra)[k] == Numbered(lines)[k];
  }

  /** There is no summary exactly when every line is numbered. */
  lemma {:induction false} SummaryAbsent(lines: seq<string>)
    ensures Summary(lines).None? <==> forall i :: 0 <= i < |lines| ==> IsNumbered(lines[i])
    decreases |lines|
  {
    if |lines| > 0 {
      var init := lines[..|lines| - 1];
      SummaryAbsent(init);
      assert forall i :: 0 <= i < |init| ==> init[i] == lines[i];
    }
  }

  /** The summary is the first line that is not numbered. */
  lemma {:induction false} SummaryIsFirstPlain(lines: seq<string>, j: nat)
    requires j < |lines| && !IsNumbered(lines[j])
    requires forall i :: 0 <= i < j ==> IsNumbered(lines[i])
    ensures Summary(lines) == Some(lines[j])
    decreases |lines|
  {
    var init := lines[..|lines| - 1];
    if j < |init| {
      SummaryIsFirstPlain(init, j);
    } else {
      SummaryAbsent(init);
    }
  }

  // ---------------------------------------------------------------------
  // The loop
  // ---------------------------------------------------------------------

  lemma SlotStep(lines: seq<string>, i: nat, k: nat)
    requires i < |lines|
    ensures Slot(lines[..i + 1], k) ==
      if IsNumbered(lines[i]) && k == |Numbered(lines[..i])| then Renumbered(k, StripNumber(lines[i]))
      else Slot(lines[..i], k)
  {
    NumberedStep(lines, i);
  }

  function Min3(n: nat): (m: nat)
    ensures m <= 3 && m <= n && (m == 3 || m == n)
  {
    if n < 3 then n else 3
  }

  /** `slots` holds exactly the three slots of `lines`. */
  predicate Filled(slots: seq<string>, lines: seq<string>) {
    |slots| == 3 && forall k :: 0 <= k < 3 ==> slots[k] == Slot(lines, k)
  }

  lemma FilledSlots(slots: seq<string>, lines: seq<string>)
    requires Filled(slots, lines)
    ensures slots == [Slot(lines, 0), Slot(lines, 1), Slot(lines, 2)]
  {
    ThreeOf(slots, Slot(lines, 0), Slot(lines, 1), Slot(lines, 2));
  }

  lemma ThreeOf(s: seq<string>, a: string, b: string, c: string)
    requires |s| == 3 && s[0] == a && s[1] == b && s[2] == c
    ensures s == [a, b, c]
  {
  }

  /** A numbered line while a slot is free: it fills the next free slot. */
  lemma FilledTaken(slots: seq<string>, lines: seq<string>, i: nat, iChoice: nat)
    requires i < |lines| && IsNumbered(lines[i]) && iChoice < 3
    requires Filled(slots, lines[..i]) && iChoice == Min3(|Numbered(lines[..i])|)
    ensures Filled(slots[iChoice := Renumbered(iChoice, StripNumber(lines[i]))], lines[..i + 1])
    ensures iChoice + 1 == Min3(|Numbered(lines[..i + 1])|)
  {
    NumberedStep(lines, i);
    var filled := slots[iChoice := Renumbered(iChoice, StripNumber(lines[i]))];
    forall k | 0 <= k < 3 ensures filled[k] == Slot(lines[..i + 1], k) {
      SlotTaken(slots, lines, i, iChoice, k);
    }
  }

  lemma SlotTaken(slots: seq<string>, lines: seq<string>, i: nat, n: nat, k: nat)
    requires i < |lines| && IsNumbered(lines[i]) && n == |Numbered(lines[..i])|
    requires k < |slots| && n < |slots| && slots[k] == Slot(lines[..i], k)
    ensures slots[n := Renumbered(n, StripNumber(lines[i]))][k] == Slot(lines[..i + 1], k)
  {
    SlotStep(lines, i, k);
  }

  /** Any other line changes no slot. */
  lemma FilledKept(slots: seq<string>, lines: seq<string>, i: nat, iChoice: nat)
    requires i < |lines| && !(IsNumbered(lines[i]) && iChoice < 3)
    requires Filled(slots, lines[..i]) && iChoice == Min3(|Numbered(lines[..i])|)
    ensures Filled(slots, lines[..i + 1])
    ensures iChoice == Min3(|Numbered(lines[..i + 1])|)
  {
    NumberedStep(lines, i);
    forall k | 0 <= k < 3 ensures slots[k] == Slot(lines[..i + 1], k) {
      SlotStep(lines, i, k);
    }
  }

  /**
   * The loop of `ShowChoicesFromNumberedReply` over the trimmed non-empty
   * lines: it fills `choiceLines` from slot 0, counting filled slots in
   * `iChoice`, and keeps the first plain line as `mainSentence`.
   */
  method ChoiceLines(lines: seq<string>) returns (slots: seq<string>, mainSentence: Option<string>)
    ensures Filled(slots, lines)
    ensures mainSentence == Summary(lines)
  {
    mainSentence := None;
    var choiceLines := new string[3](_ => Placeholder);
    var iChoice := 0;
    var i := 0;
    while i < |lines|
      invariant 0 <= i <= |lines|
      invariant iChoice == Min3(|Numbered(lines[..i])|)
      invariant Filled(choiceLines[..], lines[..i])
      invariant mainSentence == Summary(lines[..i])
    {
      SummaryStep(lines, i);
      if IsNumbered(lines[i]) {
        if iChoice < 3 {
          FilledTaken(choiceLines[..], lines, i, iChoice);
          var cleanText := StripNumber(lines[i]);
          choiceLines[iChoice] := Renumbered(iChoice, cleanText);
          iChoice := iChoice + 1;
        } else {
          FilledKept(choiceLines[..], lines, i, iChoice);
        }
      } else {
        FilledKept(choiceLines[..], lines, i, iChoice);
        if mainSentence.None? {
          mainSentence := Some(lines[i]);
        }
      }
      i := i + 1;
    }
    assert lines[..i] == lines;
    slots := choiceLines[..];
  }

  /**
   * `ShowChoicesFromNumberedReply(aiReply, out mainSentence)`: the three slot
   * labels, the three slot flags (`choiceLines[k] != "..."`) and the summary.
   */
  method ShowChoicesFromNumberedReply(aiReply: string)
    returns (labels: seq<string>, flags: seq<bool>, mainSentence: Option<string>)
    ensures var lines := ReplyLines(aiReply); labels == [Slot(lines, 0), Slot(lines, 1), Slot(lines, 2)]
    ensures var n := |Numbered(ReplyLines(aiReply))|; flags == [0 < n, 1 < n, 2 < n]
    ensures mainSentence == Summary(ReplyLines(aiReply))
  {
    var lines := ReplyLines(aiReply);
    labels, mainSentence := ChoiceLines(lines);
    FilledSlots(labels, lines);
    flags := [labels[0] != Placeholder, labels[1] != Placeholder, labels[2] != Placeholder];
    SlotFilled(lines, 0);
    SlotFilled(lines, 1);
    SlotFilled(lines, 2);
  }
}
