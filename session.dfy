/**
 * The turn engine's session: the stats, the three flags `waitingForAI`,
 * `isFirstPrompt` and `statsMode`, the last action sent, the result text and
 * the three choice buttons, with one method per UI handler. `SendPrompt`
 * composes a prompt and appends it to `sent`, standing for the request it
 * starts; `ReplySucceeded` and `ReplyFailed` stand for the two ways the
 * request's coroutine resumes.
 */
module Session {
  import opened Strings
  import opened GameStats
  import opened EffectParser
  import opened EffectValidator
  import opened ReplyParser
  import opened PromptComposer
  import opened ResponseField

  const Thinking: string := "Thinking..."
  const Ready: string := "Ready!"
  const EnterAction: string := "Please enter your action!"
  const InvalidChoice: string := "That choice is invalid: "
  const ChooseAnOption: string := "Choose an option below."
  const CannotContinue: string := "Unable to continue. Please restart the game."
  const IntroRequest: string := "Start a new game. Present three different businesses for me to choose from."

  /** The result text shown for a failed request: `"Error: " + error + "\n" + body`. */
  function RequestErrorText(error: string, body: string): (r: string)
    ensures |r| == 8 + |error| + |body|
    ensures r[..7] == "Error: " && r[7..7 + |error|] == error && r[7 + |error|] == '\n'
    ensures r[8 + |error|..] == body
  {
    "Error: " + (error + ("\n" + body))
  }

  /** What a reply's summary line shows: the summary, or the fallback when there is none. */
  function SummaryText(summary: Option<string>): (r: string)
    ensures summary.Some? ==> r == summary.value
    ensures summary.None? ==> r == ChooseAnOption
  {
    match summary
    case Some(s) => s
    case None => ChooseAnOption
  }

  class TurnEngine {
    var money: int
    var reputation: int
    var risk: int
    var waitingForAI: bool
    var isFirstPrompt: bool
    var statsMode: bool
    var lastPlayerPrompt: string
    /** The input field's text. */
    var inputText: string
    var resultText: string
    /** The texts of the three choice buttons. */
    const labels: array<string>
    /** Whether each choice button can be clicked. */
    const enabled: array<bool>
    const templates: Templates
    /** Every prompt sent to the model, oldest first. */
    var sent: seq<string>

    function CurrentStats(): Stats
      reads this
    {
      Stats(money, reputation, risk)
    }

    /** Three buttons, and the game's invariant that no stat is below zero. */
    ghost predicate Valid()
      reads this
    {
      labels.Length == 3 && enabled.Length == 3 && NonNegative(CurrentStats())
    }

    /** The state `DisableAllChoiceButtons` leaves: every label `"..."`, every button disabled. */
    predicate Cleared()
      reads this, labels, enabled
      requires labels.Length == 3 && enabled.Length == 3
    {
      labels[0] == Placeholder && labels[1] == Placeholder && labels[2] == Placeholder &&
      !enabled[0] && !enabled[1] && !enabled[2]
    }

    predicate AllEnabled()
      reads this, enabled
      requires enabled.Length == 3
    {
      enabled[0] && enabled[1] && enabled[2]
    }

    /** The labels are the choice slots of `lines`. */
    predicate ShowsSlots(lines: seq<string>)
      reads this, labels
      requires labels.Length == 3
    {
      labels[0] == Slot(lines, 0) && labels[1] == Slot(lines, 1) && labels[2] == Slot(lines, 2)
    }

    /** The field initialisers: money 1000, reputation 10, risk 0, the flags, and no prompt sent yet. */
    constructor(templates: Templates)
      ensures Valid() && fresh(labels) && fresh(enabled)
      ensures CurrentStats() == InitialStats
      ensures !waitingForAI && isFirstPrompt && !statsMode
      ensures lastPlayerPrompt == "" && inputText == "" && resultText == "" && sent == []
      ensures this.templates == templates
      ensures Cleared()
    {
      money, reputation, risk := 1000, 10, 0;
      waitingForAI, isFirstPrompt, statsMode := false, true, false;
      lastPlayerPrompt, inputText, resultText := "", "", "";
      labels := new string[3](_ => Placeholder);
      enabled := new bool[3](_ => false);
      this.templates := templates;
      sent := [];
    }

    /** `DisableAllChoiceButtons`: every label back to `"..."`, every button disabled. */
    method DisableAllChoiceButtons()
      requires labels.Length == 3 && enabled.Length == 3
      modifies labels, enabled
      ensures Cleared()
    {
      labels[0], labels[1], labels[2] := Placeholder, Placeholder, Placeholder;
      enabled[0], enabled[1], enabled[2] := false, false, false;
    }

    /** `EnableAllChoiceButtons`: every button enabled, whatever its label. */
    method EnableAllChoiceButtons()
      requires enabled.Length == 3
      modifies enabled
      ensures AllEnabled()
    {
      enabled[0], enabled[1], enabled[2] := true, true, true;
    }

    /** The tail of `Start`: clear the choices, show "Ready!", then send the opening request. */
    method Start()
      requires Valid()
      modifies this, labels, enabled
      ensures Valid() && CurrentStats() == old(CurrentStats())
      ensures Cleared() && waitingForAI && (isFirstPrompt <==> statsMode) && inputText == ""
      ensures resultText == Thinking && lastPlayerPrompt == IntroRequest
      ensures sent == old(sent) + [ComposePrompt(templates, CurrentStats(), statsMode, true, true, IntroRequest).prompt]
      ensures statsMode == old(statsMode)
    {
      DisableAllChoiceButtons();
      resultText := Ready;
      SendIntroPrompt();
    }

    /** `SendIntroPrompt`: restart the conversation with the fixed opening request. */
    method SendIntroPrompt()
      requires Valid()
      modifies this, labels, enabled
      ensures Valid() && CurrentStats() == old(CurrentStats())
      ensures Cleared() && waitingForAI && (isFirstPrompt <==> statsMode) && inputText == ""
      ensures resultText == Thinking && lastPlayerPrompt == IntroRequest
      ensures sent == old(sent) + [ComposePrompt(templates, CurrentStats(), statsMode, true, true, IntroRequest).prompt]
      ensures statsMode == old(statsMode)
    {
      isFirstPrompt := true;
      inputText := "";
      resultText := Thinking;
      DisableAllChoiceButtons();
      lastPlayerPrompt := IntroRequest;
      SendPrompt(lastPlayerPrompt, true);
    }

    /** `SendPrompt` up to the request: compose the prompt for the current mode and send it. */
    method SendPrompt(playerPrompt: string, isGameStart: bool)
      requires Valid()
      modifies this
      ensures Valid() && CurrentStats() == old(CurrentStats())
      ensures waitingForAI
      ensures var c := ComposePrompt(templates, CurrentStats(), old(statsMode), isGameStart, old(isFirstPrompt), playerPrompt);
        sent == old(sent) + [c.prompt] && isFirstPrompt == c.isFirstPrompt
      ensures statsMode == old(statsMode) && lastPlayerPrompt == old(lastPlayerPrompt)
      ensures inputText == old(inputText) && resultText == old(resultText)
    {
      waitingForAI := true;
      var c := ComposePrompt(templates, CurrentStats(), statsMode, isGameStart, isFirstPrompt, playerPrompt);
      isFirstPrompt := c.isFirstPrompt;
      sent := sent + [c.prompt];
    }

    /** `OnSendButtonClicked`: send the trimmed input as the player's action, unless it is empty. */
    method OnSendButtonClicked()
      requires Valid()
      modifies this, labels, enabled
      ensures Valid() && CurrentStats() == old(CurrentStats())
      ensures old(waitingForAI) ==> unchanged(this, labels, enabled)
      ensures !old(waitingForAI) && Trim(old(inputText)) == [] ==>
        resultText == EnterAction && sent == old(sent) && !waitingForAI &&
        isFirstPrompt == old(isFirstPrompt) && statsMode == old(statsMode) &&
        lastPlayerPrompt == old(lastPlayerPrompt) && inputText == old(inputText) &&
        unchanged(labels, enabled)
      ensures !old(waitingForAI) && Trim(old(inputText)) != [] ==>
        ActionSent(Trim(old(inputText)), old(statsMode), old(isFirstPrompt), old(sent))
    {
      if waitingForAI {
        return;
      }
      var prompt := Trim(inputText);
      if prompt == [] {
        resultText := EnterAction;
        return;
      }
      DisableAllChoiceButtons();
      SendAction(prompt);
    }

    /** `CanApplyChoiceEffect`: parse the choice, then check money, reputation and risk in that order. */
    method CanApplyChoiceEffect(choiceText: string) returns (ok: bool, failReason: string)
      ensures ok <==> EffectValidator.CanApplyChoiceEffect(CurrentStats(), choiceText) == Allowed
      ensures !ok ==> EffectValidator.CanApplyChoiceEffect(CurrentStats(), choiceText) == Rejected(failReason)
      ensures ok ==> failReason == ""
    {
      failReason := "";
      var valid, moneyDelta, reputationDelta, riskDelta := TryParseChoiceEffect(choiceText);
      if !valid {
        failReason := ParseFailure;
        return false, failReason;
      }
      if money + moneyDelta < 0 {
        failReason := NotEnoughMoney;
        return false, failReason;
      }
      if reputation + reputationDelta < 0 {
        failReason := ReputationBelowZero;
        return false, failReason;
      }
      if risk + riskDelta < 0 {
        failReason := RiskBelowZero;
        return false, failReason;
      }
      return true, failReason;
    }

    /** `ApplyChoiceEffect`: add the parsed deltas to the stats; an unparsable choice changes nothing. */
    method ApplyChoiceEffect(choiceText: string)
      modifies this
      ensures CurrentStats() == Applied(old(CurrentStats()), choiceText)
      ensures waitingForAI == old(waitingForAI) && isFirstPrompt == old(isFirstPrompt) && statsMode == old(statsMode)
      ensures lastPlayerPrompt == old(lastPlayerPrompt) && inputText == old(inputText)
      ensures resultText == old(resultText) && sent == old(sent)
    {
      var valid, moneyDelta, reputationDelta, riskDelta := TryParseChoiceEffect(choiceText);
      if valid {
        money := money + moneyDelta;
        reputation := reputation + reputationDelta;
        risk := risk + riskDelta;
      }
    }

    /**
     * `OnChoiceSelected`: a valid choice is applied to the stats and sent as
     * the player's action; a rejected one shows its reason and re-enables the
     * three buttons, whose labels the handler has already reset to `"..."`.
     */
    method OnChoiceSelected(fullChoiceText: string)
      requires Valid()
      modifies this, labels, enabled
      ensures Valid()
      ensures old(waitingForAI) ==> unchanged(this, labels, enabled)
      ensures !old(waitingForAI) && EffectValidator.CanApplyChoiceEffect(old(CurrentStats()), fullChoiceText) == Allowed ==>
        ChoiceSent(fullChoiceText, old(CurrentStats()), old(statsMode), old(isFirstPrompt), old(sent))
      ensures !old(waitingForAI) && EffectValidator.CanApplyChoiceEffect(old(CurrentStats()), fullChoiceText).Rejected? ==>
        ChoiceRefused(EffectValidator.CanApplyChoiceEffect(old(CurrentStats()), fullChoiceText).reason,
                      old(CurrentStats()), old(isFirstPrompt), old(statsMode), old(lastPlayerPrompt), old(inputText), old(sent))
    {
      if waitingForAI {
        return;
      }
      waitingForAI := true;
      DisableAllChoiceButtons();
      var ok, reason := CanApplyChoiceEffect(fullChoiceText);
      if ok {
        TakeChoice(fullChoiceText);
      } else {
        resultText := InvalidChoice + reason;
        EnableAllChoiceButtons();
        waitingForAI := false;
      }
    }

    /** The state after a valid choice: the effect applied, the choice sent as the action, the choices cleared. */
    ghost predicate ChoiceSent(choice: string, before: Stats, mode: bool, first: bool, sentBefore: seq<string>)
      reads this, labels, enabled
    {
      CurrentStats() == Applied(before, choice) && ActionSent(choice, mode, first, sentBefore)
    }

    /**
     * `action` sent as the player's action with the current stats, outside
     * the opening turn unless `first`; the input cleared, "Thinking..." shown
     * and the choices cleared.
     */
    ghost predicate ActionSent(action: string, mode: bool, first: bool, sentBefore: seq<string>)
      reads this, labels, enabled
    {
      labels.Length == 3 && enabled.Length == 3 &&
      var c := ComposePrompt(templates, CurrentStats(), mode, false, first, action);
      sent == sentBefore + [c.prompt] && isFirstPrompt == c.isFirstPrompt && waitingForAI &&
      lastPlayerPrompt == action && inputText == "" && resultText == Thinking &&
      statsMode == mode && Cleared()
    }

    /** The state after a rejected choice: nothing sent or applied, the reason shown, the buttons enabled on `"..."`. */
    ghost predicate ChoiceRefused(reason: string, before: Stats, first: bool, mode: bool, last: string, input: string,
                                  sentBefore: seq<string>)
      reads this, labels, enabled
    {
      labels.Length == 3 && enabled.Length == 3 &&
      CurrentStats() == before && !waitingForAI && resultText == InvalidChoice + reason &&
      sent == sentBefore && isFirstPrompt == first && statsMode == mode &&
      lastPlayerPrompt == last && inputText == input &&
      labels[0] == Placeholder && labels[1] == Placeholder && labels[2] == Placeholder && AllEnabled()
    }

    /** The accepted branch of `OnChoiceSelected`: apply the effect, then send the choice. */
    method TakeChoice(fullChoiceText: string)
      requires Valid() && Cleared()
      requires EffectValidator.CanApplyChoiceEffect(CurrentStats(), fullChoiceText) == Allowed
      modifies this
      ensures Valid()
      ensures ChoiceSent(fullChoiceText, old(CurrentStats()), old(statsMode), old(isFirstPrompt), old(sent))
    {
      ValidatedApplyStaysNonNegative(CurrentStats(), fullChoiceText);
      ApplyChoiceEffect(fullChoiceText);
      SendAction(fullChoiceText);
    }

    /**
     * The tail shared by `OnSendButtonClicked` and `OnChoiceSelected`: record
     * the action, clear the input, show "Thinking..." and send the action.
     */
    method SendAction(action: string)
      requires Valid() && Cleared()
      modifies this
      ensures Valid() && CurrentStats() == old(CurrentStats())
      ensures ActionSent(action, old(statsMode), old(isFirstPrompt), old(sent))
    {
      lastPlayerPrompt, inputText, resultText := action, "", Thinking;
      SendPrompt(action, false);
    }

    /** `OnStatsButtonClicked`: enter stats mode and show the stats report, with no request. */
    method OnStatsButtonClicked()
      requires Valid()
      modifies this, labels, enabled
      ensures Valid() && CurrentStats() == old(CurrentStats()) && sent == old(sent)
      ensures old(waitingForAI) ==> unchanged(this, labels, enabled)
      ensures !old(waitingForAI) ==>
        statsMode && resultText == StatsReport(CurrentStats()) && Cleared() && !waitingForAI &&
        isFirstPrompt == old(isFirstPrompt) && lastPlayerPrompt == old(lastPlayerPrompt) && inputText == old(inputText)
    {
      if waitingForAI {
        return;
      }
      statsMode := true;
      DisableAllChoiceButtons();
      resultText := StatsReport(CurrentStats());
    }

    /**
     * `OnContinueButtonClicked`: leave stats mode and send a request again:
     * the opening request before the first turn, otherwise the last action.
     * It has no `waitingForAI` guard.
     */
    method OnContinueButtonClicked()
      requires Valid()
      modifies this, labels, enabled
      ensures Valid() && CurrentStats() == old(CurrentStats()) && !statsMode
      ensures old(isFirstPrompt) ==>
        sent == old(sent) + [OpeningPrompt(templates, CurrentStats(), IntroRequest)] && !isFirstPrompt &&
        waitingForAI && lastPlayerPrompt == IntroRequest && inputText == "" && resultText == Thinking && Cleared()
      ensures !old(isFirstPrompt) && old(lastPlayerPrompt) != "" ==>
        sent == old(sent) + [TurnPrompt(templates, CurrentStats(), old(lastPlayerPrompt))] && !isFirstPrompt &&
        waitingForAI && lastPlayerPrompt == old(lastPlayerPrompt) && inputText == old(inputText) &&
        resultText == Thinking && unchanged(labels, enabled)
      ensures !old(isFirstPrompt) && old(lastPlayerPrompt) == "" ==>
        sent == old(sent) && !isFirstPrompt && waitingForAI == old(waitingForAI) &&
        lastPlayerPrompt == old(lastPlayerPrompt) && inputText == old(inputText) &&
        resultText == CannotContinue && unchanged(labels, enabled)
    {
      statsMode := false;
      resultText := Thinking;
      if isFirstPrompt {
        SendIntroPrompt();
      } else if lastPlayerPrompt != "" {
        SendPrompt(lastPlayerPrompt, false);
      } else {
        resultText := CannotContinue;
      }
    }

    /** The request's success path: extract the reply text from the response body and show it. */
    method ReplySucceeded(json: string)
      requires Valid()
      modifies this, labels, enabled
      ensures Valid() && CurrentStats() == old(CurrentStats()) && sent == old(sent) && !waitingForAI
      ensures isFirstPrompt == old(isFirstPrompt) && statsMode == old(statsMode)
      ensures lastPlayerPrompt == old(lastPlayerPrompt) && inputText == old(inputText)
      ensures statsMode ==> resultText == old(resultText) && unchanged(labels, enabled)
      ensures !statsMode ==> ShowsReply(ExtractResponseFixed(json)) && AllEnabled()
    {
      var reply := ExtractResponseFixed(json);
      ShowReply(reply);
    }

    /**
     * The success path once the reply text is known: outside stats mode, show
     * its choices and summary. `EnableAllChoiceButtons` then enables all
     * three buttons, also those whose slot stayed `"..."`.
     */
    method ShowReply(reply: string)
      requires Valid()
      modifies this, labels, enabled
      ensures Valid() && CurrentStats() == old(CurrentStats()) && sent == old(sent) && !waitingForAI
      ensures isFirstPrompt == old(isFirstPrompt) && statsMode == old(statsMode)
      ensures lastPlayerPrompt == old(lastPlayerPrompt) && inputText == old(inputText)
      ensures statsMode ==> resultText == old(resultText) && unchanged(labels, enabled)
      ensures !statsMode ==> ShowsReply(reply) && AllEnabled()
    {
      if !statsMode {
        var summary := ShowChoicesFromNumberedReply(reply);
        resultText := SummaryText(summary);
        EnableAllChoiceButtons();
        assert ShowsReply(reply);
      }
      waitingForAI := false;
    }

    /** The labels hold the reply's three choice slots and the result text its summary. */
    ghost predicate ShowsReply(reply: string)
      reads this, labels
    {
      labels.Length == 3 && ShowsSlots(ReplyLines(reply)) && resultText == SummaryText(Summary(ReplyLines(reply)))
    }

    /**
     * `ShowChoicesFromNumberedReply`: each button gets its slot's label and
     * is enabled exactly when the slot is filled; the summary line is returned.
     */
    method ShowChoicesFromNumberedReply(aiReply: string) returns (mainSentence: Option<string>)
      requires labels.Length == 3 && enabled.Length == 3
      modifies labels, enabled
      ensures ShowsSlots(ReplyLines(aiReply))
      ensures var n := |Numbered(ReplyLines(aiReply))|; enabled[0] == (0 < n) && enabled[1] == (1 < n) && enabled[2] == (2 < n)
      ensures mainSentence == Summary(ReplyLines(aiReply))
    {
      DisableAllChoiceButtons();
      var slots, flags;
      slots, flags, mainSentence := ReplyParser.ShowChoicesFromNumberedReply(aiReply);
      labels[0], labels[1], labels[2] := slots[0], slots[1], slots[2];
      enabled[0], enabled[1], enabled[2] := flags[0], flags[1], flags[2];
    }

    /** The request's failure path: show the error and the response body, and clear the choices. */
    method ReplyFailed(error: string, body: string)
      requires Valid()
      modifies this, labels, enabled
      ensures Valid() && CurrentStats() == old(CurrentStats()) && sent == old(sent) && !waitingForAI
      ensures isFirstPrompt == old(isFirstPrompt) && statsMode == old(statsMode)
      ensures lastPlayerPrompt == old(lastPlayerPrompt) && inputText == old(inputText)
      ensures resultText == RequestErrorText(error, body) && Cleared()
    {
      resultText := RequestErrorText(error, body);
      DisableAllChoiceButtons();
      waitingForAI := false;
    }
  }
}
