/**
 * The prompt `SendPrompt` sends to the model: one of three concatenations
 * of the prompt templates, the stat line and the player's action, chosen by
 * the stats mode and whether this is the opening turn.
 */
module PromptComposer {
  import opened GameStats

  /**
   * The three prompt templates `introContext`, `turnFormat` and `statFormat`.
   * They are fields set in the editor; their prose plays no part here.
   */
  datatype Templates = Templates(introContext: string, turnFormat: string, statFormat: string)

  /** The composed prompt and the value `isFirstPrompt` has after composing it. */
  datatype Composed = Composed(prompt: string, isFirstPrompt: bool)

  const ActionLabel: string := "\nPlayer action: "

  /** Stats mode: `introContext + "\n" + statFormat + "\n" + statString`. */
  function StatsModePrompt(t: Templates, s: Stats): (p: string)
    ensures |p| >= |t.introContext| && p[..|t.introContext|] == t.introContext
    ensures |p| >= |StatString(s)| && p[|p| - |StatString(s)|..] == StatString(s)
  {
    t.introContext + ("\n" + (t.statFormat + ("\n" + StatString(s))))
  }

  /** Opening turn: `introContext + "\n" + statString + "\nPlayer action: " + playerPrompt + "\n" + turnFormat`. */
  function OpeningPrompt(t: Templates, s: Stats, playerPrompt: string): (p: string)
    ensures |p| >= |t.introContext| && p[..|t.introContext|] == t.introContext
    ensures |p| >= |t.turnFormat| && p[|p| - |t.turnFormat|..] == t.turnFormat
  {
    t.introContext + ("\n" + (StatString(s) + (ActionLabel + (playerPrompt + ("\n" + t.turnFormat)))))
  }

  /** Later turns: `turnFormat + "\n" + statString + "\nPlayer action: " + playerPrompt`. */
  function TurnPrompt(t: Templates, s: Stats, playerPrompt: string): (p: string)
    ensures |p| >= |t.turnFormat| && p[..|t.turnFormat|] == t.turnFormat
    ensures |p| >= |playerPrompt| && p[|p| - |playerPrompt|..] == playerPrompt
  {
    t.turnFormat + ("\n" + (StatString(s) + (ActionLabel + playerPrompt)))
  }

  /**
   * The branch of `SendPrompt` on `statsMode`, then on `isGameStart ||
   * isFirstPrompt`; the opening branch clears `isFirstPrompt`.
   */
  function ComposePrompt(t: Templates, s: Stats, statsMode: bool, isGameStart: bool, isFirstPrompt: bool,
                         playerPrompt: string): (c: Composed)
    ensures c.isFirstPrompt <==> statsMode && isFirstPrompt
    ensures statsMode ==> c.prompt == StatsModePrompt(t, s)
    ensures !statsMode && (isGameStart || isFirstPrompt) ==> c.prompt == OpeningPrompt(t, s, playerPrompt)
    ensures !statsMode && !isGameStart && !isFirstPrompt ==> c.prompt == TurnPrompt(t, s, playerPrompt)
  {
    if statsMode then Composed(StatsModePrompt(t, s), isFirstPrompt)
    else if isGameStart || isFirstPrompt then Composed(OpeningPrompt(t, s, playerPrompt), false)
    else Composed(TurnPrompt(t, s, playerPrompt), isFirstPrompt)
  }

  /** Equal texts with equal prefixes go on alike. */
  lemma DropPrefix(p: string, x: string, y: string)
    requires p + x == p + y
    ensures x == y
  {
    assert x == (p + x)[|p|..];
    assert y == (p + y)[|p|..];
  }

  /** Equal texts with equal suffixes start alike. */
  lemma DropSuffix(x: string, y: string, q: string)
    requires x + q == y + q
    ensures x == y
  {
    assert x == (x + q)[..|x|];
    assert y == (y + q)[..|y|];
  }

  /** In stats mode the prompt carries the stats: different stats give different prompts. */
  lemma StatsModePromptInjective(t: Templates, a: Stats, b: Stats)
    requires StatsModePrompt(t, a) == StatsModePrompt(t, b)
    ensures a == b
  {
    var sa, sb := StatString(a), StatString(b);
    DropPrefix(t.introContext, "\n" + (t.statFormat + ("\n" + sa)), "\n" + (t.statFormat + ("\n" + sb)));
    DropPrefix("\n", t.statFormat + ("\n" + sa), t.statFormat + ("\n" + sb));
    DropPrefix(t.statFormat, "\n" + sa, "\n" + sb);
    DropPrefix("\n", sa, sb);
    StatStringInjective(a, b);
  }

  /** The opening prompt carries the stats and the player's action exactly. */
  lemma OpeningPromptInjective(t: Templates, a: Stats, x: string, b: Stats, y: string)
    requires OpeningPrompt(t, a, x) == OpeningPrompt(t, b, y)
    ensures a == b && x == y
  {
    var q := "\n" + t.turnFormat;
    var ra, rb := ActionLabel + (x + q), ActionLabel + (y + q);
    var sa, sb := StatString(a), StatString(b);
    DropPrefix(t.introContext, "\n" + (sa + ra), "\n" + (sb + rb));
    DropPrefix("\n", sa + ra, sb + rb);
    StatStringThenInjective(a, ra, b, rb);
    DropPrefix(ActionLabel, x + q, y + q);
    DropSuffix(x, y, q);
  }

  /** A later turn's prompt carries the stats and the player's action exactly. */
  lemma TurnPromptInjective(t: Templates, a: Stats, x: string, b: Stats, y: string)
    requires TurnPrompt(t, a, x) == TurnPrompt(t, b, y)
    ensures a == b && x == y
  {
    var sa, sb := StatString(a), StatString(b);
    DropPrefix(t.turnFormat, "\n" + (sa + (ActionLabel + x)), "\n" + (sb + (ActionLabel + y)));
    DropPrefix("\n", sa + (ActionLabel + x), sb + (ActionLabel + y));
    StatStringThenInjective(a, ActionLabel + x, b, ActionLabel + y);
    DropPrefix(ActionLabel, x, y);
  }

  /**
   * With the mode flags fixed, the prompt determines the stats, and outside
   * stats mode also the player's action.
   */
  lemma ComposePromptInjective(t: Templates, statsMode: bool, isGameStart: bool, isFirstPrompt: bool,
                               a: Stats, x: string, b: Stats, y: string)
    requires ComposePrompt(t, a, statsMode, isGameStart, isFirstPrompt, x).prompt ==
             ComposePrompt(t, b, statsMode, isGameStart, isFirstPrompt, y).prompt
    ensures a == b
    ensures !statsMode ==> x == y
  {
    if statsMode {
      StatsModePromptInjective(t, a, b);
    } else if isGameStart || isFirstPrompt {
      OpeningPromptInjective(t, a, x, b, y);
    } else {
      TurnPromptInjective(t, a, x, b, y);
    }
  }
}
