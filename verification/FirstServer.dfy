/** Who serves first does not matter. Points of a tiebreak and games of a set come in pairs served
    once by each player, and two independent rounds may be played in either order; so at every even
    score the value is the same for both servers. */
module FirstServer {
  import opened Probability
  import opened Scoring
  import opened OneStep

  /** Two points of a tiebreak at a time, from an even score: stopping between the points of a
      pair never matters, because the pair would not change the winner. */
  lemma TiebreakPair(o: Odds, a: nat, b: nat, first: Player)
    requires TiebreakLive(a, b) && (a + b) % 2 == 0 && !(a >= 6 && b >= 6)
    ensures var u := PointP1(o, TiebreakServer(first, a + b));
            var v := PointP1(o, TiebreakServer(first, a + b).Other());
            var y := TbP1(o, a + 1, b + 1, first);
            TbP1(o, a, b, first) == Mix(u, Mix(v, TbP1(o, a + 2, b, first), y), Mix(v, y, TbP1(o, a, b + 2, first)))
  {
    hide Mix;
    TiebreakPairServers(first, a + b);
    var v := PointP1(o, TiebreakServer(first, a + b + 1));
    assert TbP1(o, a + 1, b, first) == Mix(v, TbP1(o, a + 2, b, first), TbP1(o, a + 1, b + 1, first)) by {
      if !TiebreakLive(a + 1, b) {
        MixSame(v, 1.0);
      } else {
        assert a + 1 + b == a + b + 1;
      }
    }
    assert TbP1(o, a, b + 1, first) == Mix(v, TbP1(o, a + 1, b + 1, first), TbP1(o, a, b + 2, first)) by {
      if !TiebreakLive(a, b + 1) {
        MixSame(v, 0.0);
      } else {
        assert a + (b + 1) == a + b + 1;
      }
    }
  }

  lemma TiebreakSettledFirstServer(o: Odds, a: nat, b: nat)
    requires !TiebreakLive(a, b) || (a == b && a >= 6)
    ensures TbP1(o, a, b, P1) == TbP1(o, a, b, P2)
  {
  }

  lemma {:induction false} TiebreakFirstServer(o: Odds, a: nat, b: nat)
    requires (a + b) % 2 == 0
    ensures TbP1(o, a, b, P1) == TbP1(o, a, b, P2)
    decreases TiebreakRank(a, b)
  {
    hide Mix;
    hide TbP1;
    if TiebreakLive(a, b) && !(a >= 6 && b >= 6) {
      TiebreakPair(o, a, b, P1);
      TiebreakPair(o, a, b, P2);
      TiebreakFirstServer(o, a + 2, b);
      TiebreakFirstServer(o, a + 1, b + 1);
      TiebreakFirstServer(o, a, b + 2);
      MixSwap(PointP1(o, P1), PointP1(o, P2), TbP1(o, a + 2, b, P1), TbP1(o, a + 1, b + 1, P1), TbP1(o, a, b + 2, P1));
      assert TiebreakServer(P2, a + b) == TiebreakServer(P1, a + b).Other();
    } else {
      TiebreakSettledFirstServer(o, a, b);
    }
  }

  /** Two games of a set at a time, from an even score. */
  lemma SetPair(o: Odds, g1: int, g2: int, server: Player)
    requires SetLegal(g1, g2) && !SetWon(g1, g2) && !SetWon(g2, g1) && (g1 + g2) % 2 == 0 && g1 + g2 < 12
    ensures var u := GameP1(o, server, 0, 0);
            var v := GameP1(o, server.Other(), 0, 0);
            var y := SetP1(o, g1 + 1, g2 + 1, server, 0, 0);
            SetP1(o, g1, g2, server, 0, 0) ==
              Mix(u, Mix(v, SetP1(o, g1 + 2, g2, server, 0, 0), y), Mix(v, y, SetP1(o, g1, g2 + 2, server, 0, 0)))
  {
    hide Mix;
    hide GameP1;
    var s := server.Other();
    var v := GameP1(o, s, 0, 0);
    assert s.Other() == server;
    assert SetP1(o, g1 + 1, g2, s, 0, 0) ==
        Mix(v, SetP1(o, g1 + 2, g2, server, 0, 0), SetP1(o, g1 + 1, g2 + 1, server, 0, 0)) by {
      if SetWon(g1 + 1, g2) {
        MixSame(v, 1.0);
      }
    }
    assert SetP1(o, g1, g2 + 1, s, 0, 0) ==
        Mix(v, SetP1(o, g1 + 1, g2 + 1, server, 0, 0), SetP1(o, g1, g2 + 2, server, 0, 0)) by {
      if SetWon(g2 + 1, g1) {
        MixSame(v, 0.0);
      }
    }
  }

  lemma SetSettledFirstServer(o: Odds, g1: int, g2: int)
    requires SetWon(g1, g2) || SetWon(g2, g1) || (g1 == 6 && g2 == 6)
    ensures SetP1(o, g1, g2, P1, 0, 0) == SetP1(o, g1, g2, P2, 0, 0)
  {
    hide TbP1;
    TiebreakFirstServer(o, 0, 0);
  }

  lemma {:induction false} SetFirstServer(o: Odds, g1: int, g2: int)
    requires SetLegal(g1, g2) && (g1 + g2) % 2 == 0
    ensures SetP1(o, g1, g2, P1, 0, 0) == SetP1(o, g1, g2, P2, 0, 0)
    decreases SetRank(g1, g2)
  {
    hide Mix;
    hide GameP1;
    hide SetP1;
    if SetWon(g1, g2) || SetWon(g2, g1) || (g1 == 6 && g2 == 6) {
      SetSettledFirstServer(o, g1, g2);
    } else {
      SetPair(o, g1, g2, P1);
      SetPair(o, g1, g2, P2);
      SetFirstServer(o, g1 + 2, g2);
      SetFirstServer(o, g1 + 1, g2 + 1);
      SetFirstServer(o, g1, g2 + 2);
      MixSwap(GameP1(o, P1, 0, 0), GameP1(o, P2, 0, 0),
              SetP1(o, g1 + 2, g2, P1, 0, 0), SetP1(o, g1 + 1, g2 + 1, P1, 0, 0), SetP1(o, g1, g2 + 2, P1, 0, 0));
    }
  }

  lemma {:induction false} MatchFirstServer(o: Odds, s1: nat, s2: nat)
    requires s1 <= o.setsToWin && s2 <= o.setsToWin
    ensures MatchFromSetStart(o, s1, s2, P1) == MatchFromSetStart(o, s1, s2, P2)
    decreases 2 * o.setsToWin - s1 - s2
  {
    hide Mix;
    hide SetP1;
    if s1 < o.setsToWin && s2 < o.setsToWin {
      SetFirstServer(o, 0, 0);
      MatchFirstServer(o, s1 + 1, s2);
      MatchFirstServer(o, s1, s2 + 1);
    }
  }

  /** The engine guesses that the next set is first served by the player not serving now. The
      guess is exact: any choice, even one that depends on who wins this set, gives the same price. */
  lemma NextSetServerIrrelevant(o: Odds, s1: nat, s2: nat, g1: int, g2: int, server: Player, a: nat, b: nat,
                                ifWon: Player, ifLost: Player)
    requires s1 < o.setsToWin && s2 < o.setsToWin && SetLegal(g1, g2)
    ensures MatchP1(o, s1, s2, g1, g2, server, a, b) ==
      Mix(SetP1(o, g1, g2, server, a, b),
          MatchFromSetStart(o, s1 + 1, s2, ifWon), MatchFromSetStart(o, s1, s2 + 1, ifLost))
  {
    hide Mix;
    hide SetP1;
    hide MatchFromSetStart;
    MatchFirstServer(o, s1 + 1, s2);
    MatchFirstServer(o, s1, s2 + 1);
  }

  /** The in-play price at the first point of a set is the set-start price, whoever serves. */
  lemma SetStartPrice(o: Odds, s1: nat, s2: nat, server: Player, first: Player)
    requires s1 <= o.setsToWin && s2 <= o.setsToWin
    ensures MatchP1(o, s1, s2, 0, 0, server, 0, 0) == MatchFromSetStart(o, s1, s2, first)
  {
    hide Mix;
    hide SetP1;
    MatchFirstServer(o, s1, s2);
  }
}
