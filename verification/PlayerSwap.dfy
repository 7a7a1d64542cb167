/** Exchanging the two players complements every value. */
module PlayerSwap {
  import opened Probability
  import opened Scoring
  import opened OneStep

  function Swap(o: Odds): Odds {
    Odds(o.sp2, o.sp1, o.setsToWin)
  }

  lemma DeuceReturner(p: real)
    ensures Deuce(1.0 - p) == 1.0 - Deuce(p)
  {
    DeuceDenominator(p);
    var q := 1.0 - p;
    var n := p * p + q * q;
    assert Deuce(p) == p * p / n && Deuce(q) == q * q / n;
    assert q * q / n + p * p / n == (q * q + p * p) / n;
  }

  lemma GwpReturnerAtDeuce(p: real, a: nat, b: nat)
    requires GameLive(a, b) && a >= 3 && b >= 3
    ensures Gwp(1.0 - p, b, a) == 1.0 - Gwp(p, a, b)
  {
    DeuceReturner(p);
    MixComplement(p, 1.0, Deuce(p));
    MixComplement(p, Deuce(p), 0.0);
  }

  /** The returner's game is the server's game with the roles of a won and a lost point exchanged. */
  lemma {:induction false} GwpReturner(p: real, a: nat, b: nat)
    ensures Gwp(1.0 - p, b, a) == 1.0 - Gwp(p, a, b)
    decreases 6 - (a + b)
  {
    hide Mix;
    hide Deuce;
    if !GameLive(a, b) {
    } else {
      if a >= 3 && b >= 3 {
        GwpReturnerAtDeuce(p, a, b);
      } else {
        GwpReturner(p, a + 1, b);
        GwpReturner(p, a, b + 1);
        MixComplement(p, Gwp(p, a + 1, b), Gwp(p, a, b + 1));
      }
    }
  }

  lemma GameSwap(o: Odds, server: Player, a: nat, b: nat)
    ensures GameP1(Swap(o), server.Other(), a, b) == 1.0 - GameP1(o, server, a, b)
  {
  }

  lemma {:induction false} TiebreakSwap(o: Odds, a: nat, b: nat, first: Player)
    requires ValidOdds(o)
    ensures TbP1(Swap(o), b, a, first.Other()) == 1.0 - TbP1(o, a, b, first)
    decreases TiebreakRank(a, b)
  {
    hide Mix;
    hide TiebreakDeuce;
    if !TiebreakLive(a, b) {
    } else {
      if a >= 6 && b >= 6 && a == b {
        TiebreakDeuceSwap(o.sp1, o.sp2);
      } else {
        TiebreakSwap(o, a + 1, b, first);
        TiebreakSwap(o, a, b + 1, first);
        MixComplement(PointP1(o, TiebreakServer(first, a + b)), TbP1(o, a + 1, b, first), TbP1(o, a, b + 1, first));
        assert TiebreakServer(first.Other(), b + a) == TiebreakServer(first, a + b).Other();
      }
    }
  }

  lemma TiebreakDeuceSwap(sp1: real, sp2: real)
    requires IsProb(sp1) && IsProb(sp2)
    ensures TiebreakDeuce(sp2, sp1) == 1.0 - TiebreakDeuce(sp1, sp2)
  {
    ProductNonNegative(sp1, 1.0 - sp2);
    ProductNonNegative(1.0 - sp1, sp2);
    FirstOfComplement(sp1 * (1.0 - sp2), (1.0 - sp1) * sp2);
    assert sp2 * (1.0 - sp1) == (1.0 - sp1) * sp2 && (1.0 - sp2) * sp1 == sp1 * (1.0 - sp2);
  }

  lemma {:induction false} SetSwap(o: Odds, g1: int, g2: int, server: Player, a: nat, b: nat)
    requires ValidOdds(o) && SetLegal(g1, g2)
    ensures SetP1(Swap(o), g2, g1, server.Other(), a, b) == 1.0 - SetP1(o, g1, g2, server, a, b)
    decreases SetRank(g1, g2)
  {
    hide Mix;
    hide GameP1;
    hide TbP1;
    if g1 == 6 && g2 == 6 {
      TiebreakSwap(o, 0, 0, server);
    } else if !SetWon(g1, g2) && !SetWon(g2, g1) {
      GameSwap(o, server, a, b);
      SetSwap(o, g1 + 1, g2, server.Other(), 0, 0);
      SetSwap(o, g1, g2 + 1, server.Other(), 0, 0);
      MixComplement(GameP1(o, server, a, b), SetP1(o, g1 + 1, g2, server.Other(), 0, 0),
                    SetP1(o, g1, g2 + 1, server.Other(), 0, 0));
      assert server.Other().Other() == server;
    }
  }

  lemma {:induction false} MatchFromSetStartSwap(o: Odds, s1: nat, s2: nat, first: Player)
    requires ValidOdds(o) && s1 <= o.setsToWin && s2 <= o.setsToWin && s1 + s2 < 2 * o.setsToWin
    ensures MatchFromSetStart(Swap(o), s2, s1, first.Other()) == 1.0 - MatchFromSetStart(o, s1, s2, first)
    decreases 2 * o.setsToWin - s1 - s2
  {
    hide Mix;
    hide SetP1;
    if s1 < o.setsToWin && s2 < o.setsToWin {
      SetSwap(o, 0, 0, first, 0, 0);
      MatchFromSetStartSwap(o, s1 + 1, s2, first.Other());
      MatchFromSetStartSwap(o, s1, s2 + 1, first.Other());
      MixComplement(SetP1(o, 0, 0, first, 0, 0), MatchFromSetStart(o, s1 + 1, s2, first.Other()),
                    MatchFromSetStart(o, s1, s2 + 1, first.Other()));
    }
  }

  /** At every legal state of an undecided or decided match the two players' values add to one. */
  lemma MatchSwap(o: Odds, s1: nat, s2: nat, g1: int, g2: int, server: Player, a: nat, b: nat)
    requires ValidOdds(o) && Priceable(o, s1, s2, g1, g2) && s1 + s2 < 2 * o.setsToWin
    ensures MatchP1(Swap(o), s2, s1, g2, g1, server.Other(), a, b) == 1.0 - MatchP1(o, s1, s2, g1, g2, server, a, b)
  {
    hide Mix;
    hide SetP1;
    hide MatchFromSetStart;
    if s1 < o.setsToWin && s2 < o.setsToWin {
      SetSwap(o, g1, g2, server, a, b);
      MatchFromSetStartSwap(o, s1 + 1, s2, server.Other());
      MatchFromSetStartSwap(o, s1, s2 + 1, server.Other());
      MixComplement(SetP1(o, g1, g2, server, a, b), MatchFromSetStart(o, s1 + 1, s2, server.Other()),
                    MatchFromSetStart(o, s1, s2 + 1, server.Other()));
    }
  }
}
