# OllamaAPI turn engine, modelled in Dafny

`OllamaAPI.cs` is the turn engine of a small business-tycoon game. The
game keeps three stats (money, reputation, risk). Each turn, it sends a
prompt to a local Ollama language-model server. The prompt is made of
editor-set templates, a stat line and the player's action. The game then
reads the server's JSON reply:

1. It pulls out the `response` text.
2. It shows the first plain line as a summary.
3. It puts up to three numbered lines on three choice buttons, each
   renumbered `1.`, `2.`, `3.`.

Each choice label carries its effect, e.g.
`Hire staff (Money [-200], Reputation [+2], Risk [+1%])`. Clicking a
choice:

1. parses that effect, with a strict pass and then a loose one;
2. refuses it, giving one of four fixed reasons, when its effect cannot
   be parsed or would drive a stat below zero;
3. otherwise adds the effect to the stats and sends the choice as the
   next action.

A stats button shows the stats locally. A continue button leaves that
view and sends a prompt again.

The project has these modules:

- **`Strings`**: trimming, splitting and joining at a separator, ASCII
  case folding, and decimal rendering and reading of integers.
- **`GameStats`**: the stats, an effect's deltas, the stat line sent with
  each prompt, and the local stats report. Both texts are proved to
  determine the stats.
- **`PromptComposer`**: the three prompt shapes `SendPrompt` chooses
  between. When the mode flags are fixed, each prompt is proved to
  determine the stats. The opening and turn prompts also determine the
  player's action; the stats-mode prompt does not carry it.
- **`EffectParser`**:
  - the parenthesised segment of a choice;
  - the three strict tokens, matched by hand;
  - the strict pass and the loose fragment-by-fragment pass;
  - `TryParseChoiceEffect` as a method proved against the function
    `ParseEffect`;
  - lemmas: when parsing fails, the first match wins in the strict pass,
    the last fragment wins in the loose pass, an absent stat is zero, and
    rendered labels parse back.
- **`EffectValidator`**: `CanApplyChoiceEffect` with its four rejection
  reasons in their fixed order, and the ledger update. A validated choice
  is proved to keep every stat at zero or above.
- **`ReplyParser`**:
  - the reply's lines: split at `\n`, trimmed, empty ones dropped;
  - numbered lines, the three choice slots and the summary line;
  - `ShowChoicesFromNumberedReply`'s loop, as a method proved against
    `Slot` and `Summary`.
- **`ResponseField`**:
  - `ExtractResponse` as written: a case-insensitive substring scan for
    `"response":"`, ending at the first `",` or else the first `"`, then
    un-escaping `\n`, `\r` and `\"`;
  - a corrected scan that respects backslash escapes, with its
    round-trip proof;
  - lemmas showing where the written scan goes wrong: it cuts the field at
    an escaped quote, and it misreads an escaped backslash.
- **`Session`**: the class `TurnEngine`. Its fields are the stats, the
  three flags `waitingForAI`, `isFirstPrompt` and `statsMode`, the last
  action, the input and result texts, the three button labels and enabled
  flags (arrays), and the list of prompts sent so far. It has one method
  per UI handler.
  - Every handler keeps the invariant that no stat is below zero.
  - `SendPrompt` appends the composed prompt to `sent`; this stands for
    starting the web request.
  - The request's two completions are `ReplySucceeded` (given the
    response body) and `ReplyFailed` (given the error and the body).

The model follows the code where it and the game's design differ:

- **Regex delimiters.** The source writes the regex delimiters as `$$`,
  two end-of-input anchors. Read literally:
  - the segment pattern at OllamaAPI.cs:386 matches at the end of every
    choice, with an empty group;
  - no stat pattern can ever match;
  - so the code as written accepts every choice with a zero effect and
    never gives the parse-failure reason.

  The comment at OllamaAPI.cs:381 and the output format the turn
  template demands (OllamaAPI.cs:91-93) show that the escaped brackets
  `\(` `\)` `\[` `\]` are meant, so the model matches literal parentheses
  and square brackets.
- **Strict pass.** It takes the first match of each token. It does not
  require each token to occur exactly once.
- **Continue button.** `OnContinueButtonClicked` has no `waitingForAI`
  guard, and it sends a prompt again. It does not just return to the
  previous view.
- **Stray replies.** A reply's completion has no guard against a reply
  that nobody is waiting for.

## Model

| member | source | states |
|---|---|---|
| GameStats.Add | OllamaAPI.cs:420-429 | each stat moves by exactly its delta |
| GameStats.StatStringInjective | OllamaAPI.cs:267 | the stat line `Current stats: Money: $m, Reputation: r, Risk: k%` determines the stats |
| GameStats.StatStringThenInjective | OllamaAPI.cs:267 | the stat line can be read back off the front of a longer prompt, together with the rest of the prompt |
| GameStats.StatsReportInjective | OllamaAPI.cs:245 | the stats report `Money: ($m), Reputation: (r), Risk: (k%)` determines the stats |
| Strings.Trim | OllamaAPI.cs:191 | the trimmed text neither starts nor ends with white space, and is no longer than the input |
| Strings.TrimMeans | OllamaAPI.cs:191 | the trimmed text is a middle part of the input, and everything cut off before and after it is white space |
| Strings.TrimCuts | OllamaAPI.cs:191 | the two places where trimming cuts the input, with only white space outside them |
| Strings.TrimOfTrimmed | OllamaAPI.cs:191 | trimming a text that has no white space at either end leaves it unchanged |
| Strings.SplitJoin | OllamaAPI.cs:434 | joining the pieces of a split with the separator gives back the text, and there is one more piece than separators |
| Strings.SplitOfJoin | OllamaAPI.cs:434 | splitting a join of separator-free pieces gives back the pieces |
| Strings.Split | OllamaAPI.cs:407 | a split gives at least one piece, and no piece contains the separator |
| Strings.TrimAllMeans | OllamaAPI.cs:407 | the trimmed fragments are the fragments, each trimmed, in order |
| Strings.ReadIntOfDecimal | OllamaAPI.cs:267 | an integer rendered in decimal is read back exactly, and its reading stops before any following non-digit |
| Strings.IntToDecimalInjective | OllamaAPI.cs:267 | different integers render as different decimal texts |
| Strings.DecimalRoundTrip | OllamaAPI.cs:398-400 | the digits of a rendered natural number parse back to the number |
| Strings.StartsWithIgnoreCaseMeans | OllamaAPI.cs:468 | a case-insensitive prefix match holds exactly when every character agrees after case folding |
| PromptComposer.ComposePrompt | OllamaAPI.cs:269-284 | stats mode gives the stats prompt and keeps `isFirstPrompt`; otherwise the game start or first prompt gives the opening prompt and clears `isFirstPrompt`; any other prompt gives the turn prompt |
| PromptComposer.StatsModePrompt | OllamaAPI.cs:269-274 | the stats prompt starts with the intro template and ends with the stat line |
| PromptComposer.OpeningPrompt | OllamaAPI.cs:275-279 | the opening prompt starts with the intro template and ends with the turn template |
| PromptComposer.TurnPrompt | OllamaAPI.cs:280-283 | the turn prompt starts with the turn template and ends with the player's action |
| PromptComposer.StatsModePromptInjective | OllamaAPI.cs:269-274 | the stats prompt determines the stats |
| PromptComposer.OpeningPromptInjective | OllamaAPI.cs:275-279 | the opening prompt determines the stats and the player's action |
| PromptComposer.TurnPromptInjective | OllamaAPI.cs:280-283 | the turn prompt determines the stats and the player's action |
| PromptComposer.ComposePromptInjective | OllamaAPI.cs:269-284 | with the flags fixed, the composed prompt determines the stats, and outside stats mode also the action |
| EffectParser.EffectSegment | OllamaAPI.cs:386-388 | a segment is found exactly when a `(` precedes a `)`; it is the text strictly between the first `(` and the first `)` after it |
| EffectParser.IndexOfChar | OllamaAPI.cs:386 | the position found holds the character and no earlier position from the start does; none found means no position holds it |
| EffectParser.FirstTokenIsLeftmost | OllamaAPI.cs:391-393 | the first match of a token is the match at the leftmost position where one starts |
| EffectParser.FirstTokenNone | OllamaAPI.cs:391-394 | there is no first match exactly when the token matches at no position, which is when the strict pass gives way to the loose one |
| EffectParser.FirstTokenSkips | OllamaAPI.cs:391-393 | text without the initial letter of the stat's name, in either case, contributes no match of that stat's token |
| EffectParser.ParseEffect | OllamaAPI.cs:379-418 | parsing fails exactly when the choice has no `(` before a `)` |
| EffectParser.TryParseChoiceEffect | OllamaAPI.cs:379-418 | succeeds exactly when `ParseEffect` does, and its outs are then the parsed deltas; on failure all three outs are zero |
| EffectParser.LooseDeltas | OllamaAPI.cs:405-417 | the loop over fragments leaves each out at the value the loose pass defines for its stat |
| EffectParser.ParseFailsIffNoSegment | OllamaAPI.cs:386-387 | parsing fails exactly when no parenthesised segment is found |
| EffectParser.LooseStatAbsent | OllamaAPI.cs:380-384 | a stat that no fragment mentions keeps its initial value zero in the loose pass |
| EffectParser.LooseStatLastWins | OllamaAPI.cs:405-417 | in the loose pass, the last fragment with a token of a stat decides that stat |
| EffectParser.UnmatchedStatIsZero | OllamaAPI.cs:379-418 | when the strict pass fails and no fragment has a token of a stat, the parse still succeeds with that stat's delta zero |
| EffectParser.StrictPassOfEffectText | OllamaAPI.cs:391-402 | the strict pass reads back exactly the deltas of a rendered `Money [±m], Reputation [±r], Risk [±k%]` effect, with or without `$` |
| EffectParser.ParseChoiceLabel | OllamaAPI.cs:379-402 | a label `action (effect)` with no `(` in the action parses to exactly the rendered effect |
| EffectParser.ParseWithoutReputation | OllamaAPI.cs:404-417 | a label without a reputation token fails the strict pass, and the loose pass gives its money and risk with reputation zero |
| EffectValidator.Validate | OllamaAPI.cs:355-376 | allowed exactly when the effect parsed and leaves every stat non-negative; each of the four reasons is given exactly in its case and in its order |
| EffectValidator.CanApplyChoiceEffect | OllamaAPI.cs:349-377 | allowed exactly when the parsed effect leaves every stat non-negative; the parse-failure reason is given exactly when the choice has no parenthesised segment |
| EffectValidator.Applied | OllamaAPI.cs:420-429 | an unparsable choice leaves the stats unchanged; a parsed one adds its deltas |
| EffectValidator.RejectionReasons | OllamaAPI.cs:356-375 | every rejection carries one of the four fixed reasons |
| EffectValidator.ValidatedApplyStaysNonNegative | OllamaAPI.cs:349-429 | applying a validated choice leaves every stat at zero or above |
| EffectValidator.TooExpensiveAtStart | OllamaAPI.cs:362-366 | from the initial stats, a choice costing more than $1000 is refused for lack of money |
| EffectValidator.HireStaffAtStart | OllamaAPI.cs:349-429 | `Hire staff (Money [-200], Reputation [+2], Risk [+1%])` from the initial stats is allowed and gives money 800, reputation 12, risk 1 |
| ReplyParser.LinesOfPipeline | OllamaAPI.cs:434 | the reply's lines are its `\n` pieces, each trimmed, with the empty ones dropped, in order |
| ReplyParser.ReplyLinesUnpadded | OllamaAPI.cs:434 | every line of a reply is non-empty and has no white space at either end |
| ReplyParser.ReplyLinesOfJoin | OllamaAPI.cs:434 | a reply made by joining non-empty trimmed lines with `\n` gives back exactly those lines |
| ReplyParser.BlankLineDropped | OllamaAPI.cs:434 | a blank line between two lines is dropped |
| ReplyParser.StripNumber | OllamaAPI.cs:445 | exactly the leading digits, the `.` or `)` after them and all the white space that follows are cut off the numbered line; the rest is kept |
| ReplyParser.RenumberedRoundTrip | OllamaAPI.cs:445-446 | a renumbered slot is a numbered line, and stripping its number gives back its text |
| ReplyParser.Numbered | OllamaAPI.cs:440 | the numbered lines are a selection of the lines, and each of them is numbered |
| ReplyParser.NumberedSingle | OllamaAPI.cs:440 | a single line is kept exactly when it is numbered; with `NumberedAppend`, the numbered lines are the input's numbered lines, in order |
| ReplyParser.NumberedAppend | OllamaAPI.cs:438-453 | selecting numbered lines distributes over concatenation |
| ReplyParser.NumberedOfNumbered | OllamaAPI.cs:440 | selecting numbered lines from only numbered lines keeps them all |
| ReplyParser.SlotFilled | OllamaAPI.cs:458-460 | a slot holds something other than `...` exactly when the reply has more numbered lines than the slot's index |
| ReplyParser.SlotsIgnoreExtra | OllamaAPI.cs:442 | once three numbered lines are seen, later lines do not change the slots |
| ReplyParser.SummaryAbsent | OllamaAPI.cs:449-452 | there is no summary exactly when every line is numbered |
| ReplyParser.SummaryIsFirstPlain | OllamaAPI.cs:449-452 | the summary is the first line that is not numbered |
| ReplyParser.ChoiceLines | OllamaAPI.cs:436-453 | the loop leaves each of the three choice lines at its slot, and the main sentence at the summary |
| ReplyParser.ShowChoicesFromNumberedReply | OllamaAPI.cs:431-461 | the labels are the reply's three slots, button k is enabled exactly when the reply has more than k numbered lines, and the summary is returned |
| ResponseField.IndexOfMeans | OllamaAPI.cs:466-467 | the index found is a case-insensitive match with no match before it; none found means no match from the start on |
| ResponseField.RawFieldNoField | OllamaAPI.cs:466-468 | the scan reports a missing field exactly when the key `"response":"` occurs nowhere, in any case |
| ResponseField.FieldEnd | OllamaAPI.cs:470-472 | the end found lies between the field's start and the end of the text |
| ResponseField.FieldEndMeans | OllamaAPI.cs:470-473 | the field ends at the first `",` after its start when there is one, else at the first `"`; with no quote after the start, there is no end |
| ResponseField.ExtractResponse | OllamaAPI.cs:463-484 | no key gives the no-field error; no closing quote gives the malformed error; otherwise the scanned field, with `\n`, `\r` and `\"` replaced in that order, and a field without backslashes is returned as scanned |
| ResponseField.ReplaceAllHead | OllamaAPI.cs:476 | an occurrence at the front is replaced, and replacing goes on after it |
| ResponseField.ReplaceAllCons | OllamaAPI.cs:476 | a character that does not start the pattern is kept, and replacing goes on after it |
| ResponseField.ReplaceAllOtherEscape | OllamaAPI.cs:476 | a backslash escape other than the one being replaced is kept whole |
| ResponseField.UnescapeEscaped | OllamaAPI.cs:476 | on a reply without backslashes or quotes, the three replacements undo the JSON escaping of line feeds and carriage returns |
| ResponseField.ExtractResponseEscaped | OllamaAPI.cs:463-477 | a reply without backslashes or quotes, over any number of lines, comes back whole from the JSON that carries it |
| ResponseField.RawFieldPlain | OllamaAPI.cs:466-475 | a field without quotes, closed by a quote that ends the body or is followed by a comma, is scanned exactly |
| ResponseField.ExtractResponsePlain | OllamaAPI.cs:463-477 | such a field without backslashes is returned exactly |
| ResponseField.UnescapePlain | OllamaAPI.cs:476 | un-escaping a text without backslashes leaves it unchanged |
| ResponseField.TrailingBackslashField | OllamaAPI.cs:470-477 | a field ending in a backslash before the closing `",` keeps that backslash |
| ResponseField.ReplaceAllPairKept | OllamaAPI.cs:476 | replacing `\n`, `\r` or `\"` keeps an escaped backslash `\\` whole when that replacement's letter does not follow it |
| ResponseField.UnescapeDoubledBackslashKept | OllamaAPI.cs:476 | the written replacements leave an escaped backslash doubled when no `n`, `r` or `"` follows it |
| ResponseField.UnescapeDoubledBackslash | OllamaAPI.cs:476 | the written replacements turn an escaped backslash followed by `n` or `r` into a backslash and a line feed or a carriage return |
| ResponseField.EscapedBackslashDoubled | OllamaAPI.cs:476 | a reply with a literal backslash that no `n` or `r` follows comes back from the written scan with that backslash doubled, and whole from the corrected scan |
| ResponseField.EscapedBackslashMisread | OllamaAPI.cs:476 | a reply with a literal backslash before an `n` or an `r` comes back from the written scan with a line feed or a carriage return in place of that letter, and whole from the corrected scan |
| ResponseField.FirstQuoteEnds | OllamaAPI.cs:470-472 | when no quote after the key is followed by a comma, the field ends at the first quote, escaped or not |
| ResponseField.EscapedQuoteEndsField | OllamaAPI.cs:470-477 | in a body with no `",` after the key, a reply with an escaped quote is cut at that quote by the written scan, and the corrected scan gives it back whole |
| ResponseField.EscapedQuoteTruncates | OllamaAPI.cs:470-477 | a reply with an escaped quote followed by a comma is cut at that quote by the written scan, and the corrected scan gives it back whole |
| ResponseField.ReadFieldNoField | OllamaAPI.cs:466-468 | the corrected scan reports a missing field exactly when the written one does, exactly when no key occurs |
| ResponseField.ExtractResponseFixed | OllamaAPI.cs:463-484 | the no-field and malformed errors as in the written scan; otherwise the field up to its first unescaped quote, with `\n`, `\r`, `\"` and `\\` decoded |
| ResponseField.ExtractResponseFixedRoundTrip | OllamaAPI.cs:463-484 | the corrected scan gives back exactly any text escaped into the first `response` field |
| Session.RequestErrorText | OllamaAPI.cs:307 | the error text is `Error: `, the error, a line break, then the body |
| Session.SummaryText | OllamaAPI.cs:328 | the summary when there is one, else `Choose an option below.` |
| Session.TurnEngine.constructor | OllamaAPI.cs:116-119 | the stats start at money 1000, reputation 10, risk 0; not waiting; first prompt pending; stats mode off; nothing sent |
| Session.TurnEngine.DisableAllChoiceButtons | OllamaAPI.cs:171-179 | every label is `...` and every button disabled |
| Session.TurnEngine.EnableAllChoiceButtons | OllamaAPI.cs:181-186 | every button is enabled, the labels unchanged |
| Session.TurnEngine.Start | OllamaAPI.cs:121-149 | the choices are cleared and the opening request is sent with the current stats |
| Session.TurnEngine.SendIntroPrompt | OllamaAPI.cs:151-162 | the input is cleared, `Thinking...` is shown, the choices are cleared, and the opening request is sent and remembered as the last action |
| Session.TurnEngine.SendPrompt | OllamaAPI.cs:263-284 | waiting is set, and the prompt composed from the current stats and the old flags is appended to the prompts sent, with `isFirstPrompt` updated as composing says |
| Session.TurnEngine.OnSendButtonClicked | OllamaAPI.cs:188-206 | ignored while waiting; an input that trims to nothing shows `Please enter your action!`; otherwise the trimmed input is sent as the action |
| Session.TurnEngine.SendAction | OllamaAPI.cs:196-205 | the action is remembered, the input cleared, `Thinking...` shown, and the action sent with the current stats |
| Session.TurnEngine.CanApplyChoiceEffect | OllamaAPI.cs:349-377 | returns true exactly when the validator allows the choice with the current stats, and otherwise gives the validator's reason |
| Session.TurnEngine.ApplyChoiceEffect | OllamaAPI.cs:420-429 | the stats become the applied effect of the choice, and nothing else changes |
| Session.TurnEngine.OnChoiceSelected | OllamaAPI.cs:208-231 | ignored while waiting; an allowed choice is applied and sent as the action; a refused one shows `That choice is invalid: ` and its reason, and re-enables the cleared buttons with the stats unchanged |
| Session.TurnEngine.TakeChoice | OllamaAPI.cs:216-223 | the choice's effect is applied and the choice sent, and the stats stay non-negative |
| Session.TurnEngine.OnStatsButtonClicked | OllamaAPI.cs:234-246 | ignored while waiting; otherwise stats mode is on, the choices are cleared and the stats report is shown, with nothing sent |
| Session.TurnEngine.OnContinueButtonClicked | OllamaAPI.cs:249-261 | stats mode is off; before the first turn the opening request is sent again; otherwise the last action is re-sent as a turn prompt; with no last action, `Unable to continue. Please restart the game.` is shown |
| Session.TurnEngine.ReplySucceeded | OllamaAPI.cs:314-338 | waiting ends; outside stats mode the choice slots and the summary of the extracted reply are shown and all buttons enabled; in stats mode the display is left alone |
| Session.TurnEngine.ShowReply | OllamaAPI.cs:318-336 | outside stats mode the labels are the reply's slots, the result text its summary, and all buttons are enabled |
| Session.TurnEngine.ShowChoicesFromNumberedReply | OllamaAPI.cs:431-461 | the labels are the reply's slots, button k is enabled exactly when the reply has more than k numbered lines, and the summary is returned |
| Session.TurnEngine.ReplyFailed | OllamaAPI.cs:305-313 | waiting ends, the error text is shown, and the choices are cleared, with nothing else changed |

## Left out

- The Unity user interface is left out: widgets and the stat-display texts of `UpdateStatDisplay` (OllamaAPI.cs:342-347). The session keeps only the texts and flags the engine itself reads or sets: the input text, the result text, the three labels and the three enabled flags.
- The interactable state of the send, stats and input widgets and the continue button's visibility are left out. Nothing in the engine reads them back.
- `ShowChoiceButtons` (OllamaAPI.cs:164-169) only activates widgets, and it is left out.
- The null checks on the Inspector fields are left out (OllamaAPI.cs:123-131). The model assumes the UI is wired up.
- Listener registration is left out (OllamaAPI.cs:133-138). Each handler is a method that may be called in any state; a choice button passes its label as the choice text.
- The request itself is not modelled: the JSON encoding of the body, the UTF-8 upload, the URL, the model name and the coroutine's suspension. Sending is modelled as appending the prompt to `sent`. The completion is a separate call of `ReplySucceeded` or `ReplyFailed`, with the response body or the error as parameters.
- The engine does no concurrency of its own. Two completions cannot overlap, and the order the handlers are called in is the caller's.
- Logging through `Debug.Log` and `Debug.LogError` is left out.
- The prose of the three prompt templates (OllamaAPI.cs:45-114) is left out. The templates are a `Templates` value given to the constructor.
- EffectParser.ParseEffect: C# `int` is 32 bits, and `int.Parse` and `int.TryParse` fail on numbers that do not fit. The model reads unbounded integers, so it does not model the exception `int.Parse` throws, or the zero `int.TryParse` leaves, on overflow.
- GameStats.Add: the stats are unbounded integers, so 32-bit wrap-around of `money += moneyDelta` and its siblings is not modelled. The same holds for `EffectValidator.Validate` and `EffectValidator.Applied`.
- ResponseField.ExtractResponse: the `catch` block (OllamaAPI.cs:479-483) is left out. With the offsets the code computes, `Substring` cannot throw.
- White space is space, tab, line feed, carriage return, vertical tab and form feed, for `Trim` and for `\s` alike. The regex digit class `\d` is ASCII digits only. Case-insensitive matching folds ASCII letters. Unicode categories and culture-specific folding are left out.
- Session.TurnEngine.ReplySucceeded: shows the reply through the corrected `ExtractResponseFixed`, not the written `ExtractResponse`. The two differ in these ways, all stated by `FieldEndMeans` and the Findings lemmas:
  - The written scan ends the field at the first `",` after the key, wherever it stands. That can be an escaped quote followed by a comma (`EscapedQuoteTruncates`). It can also lie past the closing quote, when that quote has no comma right after it and a later `",` exists.
  - With no `",` after the key, the written scan ends the field at the first `"`, even an escaped one (`EscapedQuoteEndsField`).
  - None of the written replacements decodes `\\`. An escaped backslash stays doubled (`EscapedBackslashDoubled`). Before an `n` or an `r`, its second backslash and the letter become a line feed or a carriage return (`EscapedBackslashMisread`).
  - The corrected scan gives a backslash in each of these cases.
- ResponseField.ExtractResponseFixed: decodes only the escapes `\n`, `\r`, `\"` and `\\`, the ones `Escape` writes. Other JSON escapes, such as `\t`, `\/` and `\u0041`, are kept as written, as the written scan also keeps them.
- Strings.Trim: its own contract states only the shape of the result. That only white space is cut, at either end, is the lemma `TrimMeans`.
- ReplyParser.Numbered: its own contract states only that the result is a selection of numbered lines. That it keeps every numbered line, in order, is `NumberedSingle` together with `NumberedAppend`.
- ResponseField.FieldEnd: its own contract states only bounds. Which quote ends the field is the lemma `FieldEndMeans`.
- ReplyParser.LinesOf: computes the reply's lines in one pass. `LinesOfPipeline` proves it equal to the split, trim and filter pipeline of OllamaAPI.cs:434, written as `NonEmpty(TrimAll(...))`.

## Findings

| source | as written | input that shows it | evidently intended | confidence | as-written member | corrected member |
|---|---|---|---|---|---|---|
| OllamaAPI.cs:470-476 | the field ends at the first `",` after the key, even when that quote is escaped as `\"` | a body `{"response":"say \",quoted\" twice","done":true}`, whose reply text is `say ",quoted" twice` | the field ends at the first quote that is not escaped, so any reply text comes back whole | not executed | ResponseField.EscapedQuoteTruncates | ResponseField.ExtractResponseFixedRoundTrip |
| OllamaAPI.cs:470-473 | with no `",` after the key, the field ends at the first `"`, even when that quote is escaped as `\"` | a body `{"response":"say \"hi"}`, whose reply text is `say "hi`, comes back as `say \` | the field ends at the first quote that is not escaped | not executed | ResponseField.EscapedQuoteEndsField | ResponseField.ExtractResponseFixedRoundTrip |
| OllamaAPI.cs:476 | no replacement decodes the escaped backslash `\\`, so it stays doubled | a body `{"response":"a\\b","done":true}`, whose reply text is `a\b`, comes back as `a\\b` | each of the escapes `\n`, `\r`, `\"` and `\\` is decoded once, left to right, so a literal backslash comes back as one backslash | not executed | ResponseField.EscapedBackslashDoubled | ResponseField.ExtractResponseFixedRoundTrip |
| OllamaAPI.cs:476 | no replacement decodes `\\`, so the second backslash of an escaped backslash pairs with a following `n` or `r` | a body `{"response":"C:\\new","done":true}`, whose reply text is `C:\new`, comes back as `C:\`, a line feed, then `ew` | each of the escapes `\n`, `\r`, `\"` and `\\` is decoded once, left to right, so a literal backslash stays a backslash | not executed | ResponseField.EscapedBackslashMisread | ResponseField.ExtractResponseFixedRoundTrip |
