/**
 * The validator and the ledger: whether a choice may be taken with the
 * current stats, and what the stats become when it is.
 */
module EffectValidator {
  import opened Strings
  import opened GameStats
  import opened EffectParser

  const ParseFailure: string := "Couldn't parse stat effect properly."
  const NotEnoughMoney: string := "You don't have enough money for that."
  const ReputationBelowZero: string := "Your reputation can't go below zero."
  const RiskBelowZero: string := "Your risk can't go below zero."

  /** The outcome of `CanApplyChoiceEffect`: `true`, or `false` with its `failReason`. */
  datatype Verdict = Allowed | Rejected(reason: string)

  /**
   * The checks of `CanApplyChoiceEffect` on an already parsed effect, in their
   * fixed order: parse failure, then money, then reputation, then risk.
   */
  function Validate(s: Stats, parsed: Option<Effect>): (v: Verdict)
    ensures v == Allowed <==> parsed.Some? && NonNegative(Add(s, parsed.value))
    ensures v == Rejected(ParseFailure) <==> parsed.None?
    ensures v == Rejected(NotEnoughMoney) <==>
      parsed.Some? && s.money + parsed.value.moneyDelta < 0
    ensures v == Rejected(ReputationBelowZero) <==>
      parsed.Some? && s.money + parsed.value.moneyDelta >= 0 && s.reputation + parsed.value.reputationDelta < 0
    ensures v == Rejected(RiskBelowZero) <==>
      parsed.Some? && s.money + parsed.value.moneyDelta >= 0 && s.reputation + parsed.value.reputationDelta >= 0 &&
      s.risk + parsed.value.riskDelta < 0
  {
    match parsed
    case None => Rejected(ParseFailure)
    case Some(e) =>
      if s.money + e.moneyDelta < 0 then Rejected(NotEnoughMoney)
      else if s.reputation + e.reputationDelta < 0 then Rejected(ReputationBelowZero)
      else if s.risk + e.riskDelta < 0 then Rejected(RiskBelowZero)
      else Allowed
  }

  /** `CanApplyChoiceEffect(choiceText, out failReason)` with the stats `s`. */
  function CanApplyChoiceEffect(s: Stats, choice: string): (v: Verdict)
    ensures v == Allowed <==> ParseEffect(choice).Some? && NonNegative(Add(s, ParseEffect(choice).value))
    ensures v == Rejected(ParseFailure) <==> !HasParenPair(choice)
  {
    ParseFailsIffNoSegment(choice);
    Validate(s, ParseEffect(choice))
  }

  /** What `ApplyChoiceEffect` leaves in the stats: the parsed deltas added, or nothing changed. */
  function Applied(s: Stats, choice: string): (t: Stats)
    ensures ParseEffect(choice).None? ==> t == s
    ensures ParseEffect(choice).Some? ==> t == Add(s, ParseEffect(choice).value)
  {
    match ParseEffect(choice)
    case None => s
    case Some(e) => Add(s, e)
  }

  /** Every rejection carries exactly one of the four reasons. */
  lemma RejectionReasons(s: Stats, choice: string)
    requires CanApplyChoiceEffect(s, choice).Rejected?
    ensures CanApplyChoiceEffect(s, choice).reason in {ParseFailure, NotEnoughMoney, ReputationBelowZero, RiskBelowZero}
  {
  }

  /** The game's invariant: a choice that passes validation leaves every stat at zero or above. */
  lemma ValidatedApplyStaysNonNegative(s: Stats, choice: string)
    requires CanApplyChoiceEffect(s, choice) == Allowed
    ensures NonNegative(Applied(s, choice))
    ensures Applied(s, choice) != s ==> ParseEffect(choice).Some?
  {
  }

  /** Starting from the initial stats, a choice costing more than $1000 is refused for money. */
  lemma TooExpensiveAtStart(action: string, e: Effect, dollar: bool)
    requires '(' !in action
    requires e.moneyDelta < -1000
    ensures CanApplyChoiceEffect(InitialStats, Parenthesised(action, EffectText(e, dollar))) == Rejected(NotEnoughMoney)
  {
    ParseChoiceLabel(action, e, dollar);
  }

  /**
   * `1. Hire staff (Money [-200], Reputation [+2], Risk [+1%])` from the
   * initial stats is allowed and leaves money 800, reputation 12 and risk 1.
   */
  lemma HireStaffAtStart(action: string, dollar: bool)
    requires '(' !in action
    ensures var choice := Parenthesised(action, EffectText(Effect(-200, 2, 1), dollar));
      CanApplyChoiceEffect(InitialStats, choice) == Allowed &&
      Applied(InitialStats, choice) == Stats(800, 12, 1)
  {
    ParseChoiceLabel(action, Effect(-200, 2, 1), dollar);
  }
}
