/**
 * The three game stats, the signed effect a choice has on them, and the two
 * ways the stats are rendered as text: the line sent with every prompt and
 * the report shown by the stats button.
 */
module GameStats {
  import opened Strings

  datatype Stats = Stats(money: int, reputation: int, risk: int)

  /** The signed change a choice makes to each stat. */
  datatype Effect = Effect(moneyDelta: int, reputationDelta: int, riskDelta: int)

  /** The field initialisers `money = 1000`, `reputation = 10`, `risk = 0`. */
  const InitialStats: Stats := Stats(1000, 10, 0)

  /** The game's invariant: no stat is below zero. */
  predicate NonNegative(s: Stats) {
    s.money >= 0 && s.reputation >= 0 && s.risk >= 0
  }

  /** The stats after adding each delta of `e`. */
  function Add(s: Stats, e: Effect): (t: Stats)
    ensures t.money - s.money == e.moneyDelta
    ensures t.reputation - s.reputation == e.reputationDelta
    ensures t.risk - s.risk == e.riskDelta
  {
    Stats(s.money + e.moneyDelta, s.reputation + e.reputationDelta, s.risk + e.riskDelta)
  }

  /** `Current stats: Money: $m, Reputation: r, Risk: k%`, sent with every prompt. */
  function StatString(s: Stats): string {
    "Current stats: Money: $" + (IntToDecimal(s.money) + (", Reputation: " +
      (IntToDecimal(s.reputation) + (", Risk: " + (IntToDecimal(s.risk) + "%")))))
  }

  /** `Money: ($m), Reputation: (r), Risk: (k%)`, shown locally by the stats button. */
  function StatsReport(s: Stats): string {
    "Money: ($" + (IntToDecimal(s.money) + ("), Reputation: (" +
      (IntToDecimal(s.reputation) + ("), Risk: (" + (IntToDecimal(s.risk) + "%)")))))
  }

  /** Reading one rendered number off the front of `p + rendered + rest`. */
  lemma ReadAfter(p: string, i: int, rest: string, whole: string)
    requires whole == p + (IntToDecimal(i) + rest)
    requires rest == [] || !IsDigit(rest[0])
    ensures whole[|p|..] == IntToDecimal(i) + rest
    ensures ReadInt(whole[|p|..]) == Some((i, rest))
  {
    assert whole[|p|..] == IntToDecimal(i) + rest;
    ReadIntOfDecimal(i, rest);
  }

  /** The stat line carries the stats exactly: different stats give different lines. */
  lemma StatStringInjective(a: Stats, b: Stats)
    requires StatString(a) == StatString(b)
    ensures a == b
  {
    var p1, p2, p3 := "Current stats: Money: $", ", Reputation: ", ", Risk: ";
    var ra := p2 + (IntToDecimal(a.reputation) + (p3 + (IntToDecimal(a.risk) + "%")));
    var rb := p2 + (IntToDecimal(b.reputation) + (p3 + (IntToDecimal(b.risk) + "%")));
    ReadAfter(p1, a.money, ra, StatString(a));
    ReadAfter(p1, b.money, rb, StatString(b));
    assert a.money == b.money && ra == rb;
    var qa := p3 + (IntToDecimal(a.risk) + "%");
    var qb := p3 + (IntToDecimal(b.risk) + "%");
    ReadAfter(p2, a.reputation, qa, ra);
    ReadAfter(p2, b.reputation, qb, rb);
    assert a.reputation == b.reputation && qa == qb;
    ReadAfter(p3, a.risk, "%", qa);
    ReadAfter(p3, b.risk, "%", qb);
  }

  /**
   * The stat line can be read off the front of a longer text: equal texts
   * that start with stat lines start with the same one and go on alike.
   */
  lemma StatStringThenInjective(a: Stats, x: string, b: Stats, y: string)
    requires StatString(a) + x == StatString(b) + y
    ensures a == b && x == y
  {
    var p1, p2, p3 := "Current stats: Money: $", ", Reputation: ", ", Risk: ";
    var wa := p1 + (IntToDecimal(a.money) + (p2 + (IntToDecimal(a.reputation) + (p3 + (IntToDecimal(a.risk) + ("%" + x))))));
    var wb := p1 + (IntToDecimal(b.money) + (p2 + (IntToDecimal(b.reputation) + (p3 + (IntToDecimal(b.risk) + ("%" + y))))));
    StatStringThen(a, x);
    StatStringThen(b, y);
    var ra := p2 + (IntToDecimal(a.reputation) + (p3 + (IntToDecimal(a.risk) + ("%" + x))));
    var rb := p2 + (IntToDecimal(b.reputation) + (p3 + (IntToDecimal(b.risk) + ("%" + y))));
    ReadAfter(p1, a.money, ra, wa);
    ReadAfter(p1, b.money, rb, wb);
    assert a.money == b.money && ra == rb;
    var qa := p3 + (IntToDecimal(a.risk) + ("%" + x));
    var qb := p3 + (IntToDecimal(b.risk) + ("%" + y));
    ReadAfter(p2, a.reputation, qa, ra);
    ReadAfter(p2, b.reputation, qb, rb);
    assert a.reputation == b.reputation && qa == qb;
    ReadAfter(p3, a.risk, "%" + x, qa);
    ReadAfter(p3, b.risk, "%" + y, qb);
    assert ("%" + x)[1..] == x && ("%" + y)[1..] == y;
  }

  lemma StatStringThen(s: Stats, x: string)
    ensures StatString(s) + x == "Current stats: Money: $" + (IntToDecimal(s.money) + (", Reputation: " +
      (IntToDecimal(s.reputation) + (", Risk: " + (IntToDecimal(s.risk) + ("%" + x))))))
  {
  }

  /** The stats report carries the stats exactly: different stats give different reports. */
  lemma StatsReportInjective(a: Stats, b: Stats)
    requires StatsReport(a) == StatsReport(b)
    ensures a == b
  {
    var p1, p2, p3 := "Money: ($", "), Reputation: (", "), Risk: (";
    var ra := p2 + (IntToDecimal(a.reputation) + (p3 + (IntToDecimal(a.risk) + "%)")));
    var rb := p2 + (IntToDecimal(b.reputation) + (p3 + (IntToDecimal(b.risk) + "%)")));
    ReadAfter(p1, a.money, ra, StatsReport(a));
    ReadAfter(p1, b.money, rb, StatsReport(b));
    assert a.money == b.money && ra == rb;
    var qa := p3 + (IntToDecimal(a.risk) + "%)");
    var qb := p3 + (IntToDecimal(b.risk) + "%)");
    ReadAfter(p2, a.reputation, qa, ra);
    ReadAfter(p2, b.reputation, qb, rb);
    assert a.reputation == b.reputation && qa == qb;
    ReadAfter(p3, a.risk, "%)", qa);
    ReadAfter(p3, b.risk, "%)", qb);
  }
}
