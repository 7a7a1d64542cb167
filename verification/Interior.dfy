/** When neither player's serve is certain either way, nobody is written off or home before the match
    is over, and every set matters. */
module Interior {
  import opened Probability
  import opened Scoring
  import opened OneStep
  import opened PlayerSwap
  import opened FirstServer
  import opened LivePlay

  predicate Uncertain(o: Odds) {
    0.0 < o.sp1 < 1.0 && 0.0 < o.sp2 < 1.0
  }

  lemma MixPositive(p: real, x: real, y: real)
    requires 0.0 < p <= 1.0 && 0.0 < x && 0.0 <= y
    ensures 0.0 < Mix(p, x, y)
  {
    ProductNonNegative(1.0 - p, y);
    assert 0.0 < p * x;
  }

  lemma MixStrict(p: real, x: real, y: real, x': real, y': real)
    requires IsProb(p) && x < x' && y < y'
    ensures Mix(p, x, y) < Mix(p, x', y')
  {
    var d := if x' - x <= y' - y then x' - x else y' - y;
    MixOutcomes(p, x + d, y + d, x', y');
    assert Mix(p, x + d, y + d) == Mix(p, x, y) + d;
  }

  lemma ProductPositive(x: real, y: real)
    requires 0.0 < x && 0.0 < y
    ensures 0.0 < x * y
  {
  }

  lemma FirstOfPositive(x: real, y: real)
    requires 0.0 < x && 0.0 <= y
    ensures 0.0 < FirstOf(x, y)
  {
  }

  lemma DeucePositive(p: real)
    requires 0.0 < p < 1.0
    ensures 0.0 < Deuce(p)
  {
    hide Deuce;
    hide Mix;
    DeuceIsProb(p);
    GameOneStep(p, 3, 3);
    ProductNonNegative(1.0 - p, Deuce(p));
    GwpIsProb(p, 3, 4);
    MixPositive(p, Gwp(p, 4, 3), Gwp(p, 3, 4));
  }

  lemma {:induction false} GwpPositive(p: real, a: nat, b: nat)
    requires 0.0 < p < 1.0 && !GameWon(b, a)
    ensures 0.0 < Gwp(p, a, b)
    decreases 6 - (a + b)
  {
    hide Mix;
    hide Deuce;
    if !GameLive(a, b) {
    } else {
      if a >= 3 && b >= 3 {
        DeucePositive(p);
        ProductPositive(p, Deuce(p));
        ProductNonNegative(1.0 - p, Deuce(p));
      } else {
        GwpPositive(p, a + 1, b);
        GwpIsProb(p, a, b + 1);
        MixPositive(p, Gwp(p, a + 1, b), Gwp(p, a, b + 1));
      }
    }
  }

  lemma GameInterior(o: Odds, server: Player)
    requires Uncertain(o)
    ensures 0.0 < GameP1(o, server, 0, 0)
  {
    hide Gwp;
    GwpPositive(o.sp1, 0, 0);
    GwpPositive(1.0 - o.sp2, 0, 0);
    GwpReturner(o.sp2, 0, 0);
  }

  lemma {:induction false} TbPositive(o: Odds, a: nat, b: nat, first: Player)
    requires Uncertain(o) && !TiebreakWon(b, a)
    ensures 0.0 < TbP1(o, a, b, first)
    decreases TiebreakRank(a, b)
  {
    hide Mix;
    hide TiebreakDeuce;
    if !TiebreakLive(a, b) {
    } else {
      if a >= 6 && b >= 6 && a == b {
        TiebreakDeucePositive(o.sp1, o.sp2);
      } else {
        TbPositive(o, a + 1, b, first);
        TbP1IsProb(o, a, b + 1, first);
        MixPositive(PointP1(o, TiebreakServer(first, a + b)), TbP1(o, a + 1, b, first), TbP1(o, a, b + 1, first));
      }
    }
  }

  lemma TiebreakDeucePositive(sp1: real, sp2: real)
    requires 0.0 < sp1 < 1.0 && 0.0 < sp2 < 1.0
    ensures 0.0 < TiebreakDeuce(sp1, sp2)
  {
    var x, y := sp1 * (1.0 - sp2), (1.0 - sp1) * sp2;
    ProductPositive(sp1, 1.0 - sp2);
    ProductPositive(1.0 - sp1, sp2);
    FirstOfPositive(x, y);
  }

  lemma {:induction false} SetPositive(o: Odds, g1: nat, g2: nat, server: Player)
    requires Uncertain(o) && SetLegal(g1, g2) && !SetWon(g2, g1)
    ensures 0.0 < SetP1(o, g1, g2, server, 0, 0)
    decreases SetRank(g1, g2)
  {
    hide Mix;
    hide GameP1;
    hide TbP1;
    if g1 == 6 && g2 == 6 {
      TbPositive(o, 0, 0, server);
    } else if !SetWon(g1, g2) {
      GameInterior(o, server);
      GameP1IsProb(o, server, 0, 0);
      SetPositive(o, g1 + 1, g2, server.Other());
      SetP1IsProb(o, g1, g2 + 1, server.Other(), 0, 0);
      MixPositive(GameP1(o, server, 0, 0), SetP1(o, g1 + 1, g2, server.Other(), 0, 0),
                  SetP1(o, g1, g2 + 1, server.Other(), 0, 0));
    }
  }

  lemma {:induction false} MatchPositive(o: Odds, s1: nat, s2: nat, first: Player)
    requires Uncertain(o) && s1 <= o.setsToWin && s2 < o.setsToWin
    ensures 0.0 < MatchFromSetStart(o, s1, s2, first)
    decreases o.setsToWin - s1
  {
    hide Mix;
    hide SetP1;
    if s1 < o.setsToWin {
      SetPositive(o, 0, 0, first);
      SetP1IsProb(o, 0, 0, first, 0, 0);
      MatchPositive(o, s1 + 1, s2, first.Other());
      MatchFromSetStartIsProb(o, s1, s2 + 1, first.Other());
      MixPositive(SetP1(o, 0, 0, first, 0, 0), MatchFromSetStart(o, s1 + 1, s2, first.Other()),
                  MatchFromSetStart(o, s1, s2 + 1, first.Other()));
    }
  }

  /** Neither certain nor hopeless until the last set is won. */
  lemma MatchInterior(o: Odds, s1: nat, s2: nat, first: Player)
    requires Uncertain(o) && s1 < o.setsToWin && s2 < o.setsToWin
    ensures 0.0 < MatchFromSetStart(o, s1, s2, first) < 1.0
  {
    hide MatchFromSetStart;
    MatchPositive(o, s1, s2, first);
    MatchPositive(Swap(o), s2, s1, first.Other());
    MatchFromSetStartSwap(o, s1, s2, first);
  }

  /** Winning a set rather than losing it strictly raises the price. */
  lemma {:induction false} EverySetMatters(o: Odds, s1: nat, s2: nat, first: Player)
    requires Uncertain(o) && s1 < o.setsToWin && s2 < o.setsToWin
    ensures MatchFromSetStart(o, s1, s2 + 1, first) < MatchFromSetStart(o, s1 + 1, s2, first)
    decreases 2 * o.setsToWin - s1 - s2
  {
    hide Mix;
    hide SetP1;
    if s1 + 1 < o.setsToWin && s2 + 1 < o.setsToWin {
      var f := first.Other();
      EverySetMatters(o, s1 + 1, s2, f);
      EverySetMatters(o, s1, s2 + 1, f);
      SetP1IsProb(o, 0, 0, first, 0, 0);
      MixStrict(SetP1(o, 0, 0, first, 0, 0), MatchFromSetStart(o, s1 + 1, s2 + 1, f),
                MatchFromSetStart(o, s1, s2 + 2, f),
                MatchFromSetStart(o, s1 + 2, s2, f), MatchFromSetStart(o, s1 + 1, s2 + 1, f));
    } else if s1 + 1 == o.setsToWin {
      if s2 + 1 < o.setsToWin {
        MatchInterior(o, s1, s2 + 1, first);
      }
    } else {
      MatchInterior(o, s1 + 1, s2, first);
    }
  }

  /** With uncertain serves, the price quoted at six games all is right exactly at the tiebreak scores
      that are worth as much as its first point. */
  lemma SixAllExactInterior(o: Odds, s1: nat, s2: nat, first: Player, a: nat, b: nat, server: Player, pa: nat, pb: nat)
    requires Uncertain(o) && s1 < o.setsToWin && s2 < o.setsToWin && TiebreakLive(a, b)
    ensures MatchP1(o, s1, s2, 6, 6, server, pa, pb) == Price(o, InTiebreak(s1, s2, first, a, b)) <==>
      TbP1(o, a, b, first) == TbP1(o, 0, 0, first)
  {
    hide MatchP1;
    hide TbP1;
    hide MatchFromSetStart;
    hide Price;
    SixAllExactIff(o, s1, s2, first, a, b, server, pa, pb);
    EverySetMatters(o, s1, s2, first);
  }
}
