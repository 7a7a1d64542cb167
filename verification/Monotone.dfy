/** Better serving, and winning a point, a game or a set, never lowers a player's value. */
module Monotone {
  import opened Probability
  import opened Scoring
  import opened OneStep

  /** o' is at least as good for player one as o: no worse a server, facing no better a server. */
  predicate NoWorse(o: Odds, o': Odds) {
    o.sp1 <= o'.sp1 && o'.sp2 <= o.sp2 && o.setsToWin == o'.setsToWin
  }

  // ---- Game ----

  lemma {:induction false} GamePointOrder(p: real, a: nat, b: nat)
    requires IsProb(p) && GameLive(a, b)
    ensures Gwp(p, a, b + 1) <= Gwp(p, a + 1, b)
    decreases 6 - (a + b)
  {
    hide Mix;
    hide Deuce;
    GwpIsProb(p, a + 1, b);
    GwpIsProb(p, a, b + 1);
    if a >= 3 && b >= 3 {
      GamePointOrderAtDeuce(p, a, b);
    } else if GameLive(a + 1, b) && GameLive(a, b + 1) {
      GamePointOrder(p, a + 1, b);
      GamePointOrder(p, a, b + 1);
      GameOneStep(p, a + 1, b);
      GameOneStep(p, a, b + 1);
      MixOutcomes(p, Gwp(p, a + 1, b + 1), Gwp(p, a, b + 2), Gwp(p, a + 2, b), Gwp(p, a + 1, b + 1));
    }
  }

  lemma GamePointOrderAtDeuce(p: real, a: nat, b: nat)
    requires IsProb(p) && GameLive(a, b) && a >= 3 && b >= 3
    ensures Gwp(p, a, b + 1) <= Gwp(p, a + 1, b)
  {
    DeuceIsProb(p);
    if a == b {
      MixOutcomes(p, Deuce(p), 0.0, 1.0, Deuce(p));
      assert Gwp(p, a + 1, b) == Mix(p, 1.0, Deuce(p));
      assert Gwp(p, a, b + 1) == Mix(p, Deuce(p), 0.0);
    }
  }

  lemma DeuceMonotone(p: real, p': real)
    requires IsProb(p) && IsProb(p') && p <= p'
    ensures Deuce(p) <= Deuce(p')
  {
    hide FirstOf;
    var q, q' := 1.0 - p, 1.0 - p';
    var x, y, x', y' := p * p, q * q, p' * p', q' * q';
    ProductOrder(p, p, p', p');
    ProductOrder(q', q', q, q);
    DeuceAsFirstOf(p, x, y);
    DeuceAsFirstOf(p', x', y');
    FirstOfMonotone(x, y, x', y');
  }

  lemma DeuceAsFirstOf(p: real, x: real, y: real)
    requires x == p * p && y == (1.0 - p) * (1.0 - p)
    ensures Deuce(p) == FirstOf(x, y)
  {
    DeuceDenominator(p);
  }

  /** A heavier winning event against a lighter losing one, the undecidable case included. */
  lemma FirstOfMonotone(x: real, y: real, x': real, y': real)
    requires 0.0 <= x <= x' && 0.0 <= y' <= y
    ensures FirstOf(x, y) <= FirstOf(x', y')
  {
    FirstOfComplement(x, y);
    FirstOfComplement(x', y');
    if x + y > 0.0 && x' + y' > 0.0 {
      CrossMultiplied(x, y, x', y');
      QuotientOrder(x, x + y, x', x' + y');
    }
  }

  lemma CrossMultiplied(x: real, y: real, x': real, y': real)
    requires 0.0 <= x <= x' && 0.0 <= y' <= y
    ensures x * (x' + y') <= x' * (x + y)
  {
    ProductOrder(x, y', x', y);
    assert x * (x' + y') == x * x' + x * y';
    assert x' * (x + y) == x * x' + x' * y;
  }

  lemma QuotientOrder(n: real, d: real, n': real, d': real)
    requires d > 0.0 && d' > 0.0 && n * d' <= n' * d
    ensures n / d <= n' / d'
  {
    var r, r' := n / d, n' / d';
    assert n == r * d && n' == r' * d';
    CancelFactors(r, d, r', d');
  }

  lemma CancelFactors(r: real, d: real, r': real, d': real)
    requires d > 0.0 && d' > 0.0 && (r * d) * d' <= (r' * d') * d
    ensures r <= r'
  {
    var k := d * d';
    assert k > 0.0;
    assert (r * d) * d' == r * k && (r' * d') * d == r' * k;
    NonNegativeFactor(r' - r, k);
  }

  lemma {:induction false} GwpMonotone(p: real, p': real, a: nat, b: nat)
    requires IsProb(p) && IsProb(p') && p <= p'
    ensures Gwp(p, a, b) <= Gwp(p', a, b)
    decreases 6 - (a + b)
  {
    hide Mix;
    hide Deuce;
    if !GameLive(a, b) {
    } else {
      if a >= 3 && b >= 3 {
        GwpMonotoneAtDeuce(p, p', a, b);
      } else {
        GwpMonotone(p, p', a + 1, b);
        GwpMonotone(p, p', a, b + 1);
        GamePointOrder(p, a, b);
        MixMonotone(p, Gwp(p, a + 1, b), Gwp(p, a, b + 1), p', Gwp(p', a + 1, b), Gwp(p', a, b + 1));
      }
    }
  }

  lemma GwpMonotoneAtDeuce(p: real, p': real, a: nat, b: nat)
    requires IsProb(p) && IsProb(p') && p <= p' && GameLive(a, b) && a >= 3 && b >= 3
    ensures Gwp(p, a, b) <= Gwp(p', a, b)
  {
    hide Deuce;
    var d, d' := Deuce(p), Deuce(p');
    DeuceMonotone(p, p');
    DeuceIsProb(p);
    DeuceIsProb(p');
    MixMonotone(p, 1.0, d, p', 1.0, d');
    MixMonotone(p, d, 0.0, p', d', 0.0);
  }

  lemma GameP1Monotone(o: Odds, o': Odds, server: Player, a: nat, b: nat)
    requires ValidOdds(o) && ValidOdds(o') && NoWorse(o, o')
    ensures GameP1(o, server, a, b) <= GameP1(o', server, a, b)
  {
    hide Gwp;
    GwpMonotone(o.sp1, o'.sp1, a, b);
    GwpMonotone(o'.sp2, o.sp2, a, b);
  }

  // ---- Tiebreak ----

  lemma PointP1Monotone(o: Odds, o': Odds, server: Player)
    requires ValidOdds(o) && ValidOdds(o') && NoWorse(o, o')
    ensures PointP1(o, server) <= PointP1(o', server)
    ensures IsProb(PointP1(o, server)) && IsProb(PointP1(o', server))
  {
  }

  lemma TiebreakDeuceMonotone(sp1: real, sp2: real, sp1': real, sp2': real)
    requires IsProb(sp1) && IsProb(sp2) && IsProb(sp1') && IsProb(sp2')
    requires sp1 <= sp1' && sp2' <= sp2
    ensures TiebreakDeuce(sp1, sp2) <= TiebreakDeuce(sp1', sp2')
  {
    hide FirstOf;
    ProductOrder(sp1, 1.0 - sp2, sp1', 1.0 - sp2');
    ProductOrder(1.0 - sp1', sp2', 1.0 - sp1, sp2);
    FirstOfMonotone(sp1 * (1.0 - sp2), (1.0 - sp1) * sp2, sp1' * (1.0 - sp2'), (1.0 - sp1') * sp2');
  }

  lemma ProductOrder(x: real, y: real, x': real, y': real)
    requires 0.0 <= x <= x' && 0.0 <= y <= y'
    ensures 0.0 <= x * y <= x' * y'
  {
    ProductNonNegative(x, y);
    ProductNonNegative(x' - x, y');
    ProductNonNegative(x, y' - y);
    assert x' * y' - x * y == (x' - x) * y' + x * (y' - y);
  }

  lemma {:induction false} TiebreakPointOrder(o: Odds, a: nat, b: nat, first: Player)
    requires ValidOdds(o) && TiebreakLive(a, b)
    ensures TbP1(o, a, b + 1, first) <= TbP1(o, a + 1, b, first)
    decreases TiebreakRank(a, b)
  {
    hide Mix;
    hide TiebreakDeuce;
    TbP1IsProb(o, a + 1, b, first);
    TbP1IsProb(o, a, b + 1, first);
    if TiebreakLive(a + 1, b) && TiebreakLive(a, b + 1) {
      var p := PointP1(o, TiebreakServer(first, a + b + 1));
      assert TbP1(o, a + 1, b, first) == Mix(p, TbP1(o, a + 2, b, first), TbP1(o, a + 1, b + 1, first)) by {
        TiebreakOneStep(o, a + 1, b, first);
        assert a + 1 + b == a + b + 1;
      }
      assert TbP1(o, a, b + 1, first) == Mix(p, TbP1(o, a + 1, b + 1, first), TbP1(o, a, b + 2, first)) by {
        TiebreakOneStep(o, a, b + 1, first);
        assert a + (b + 1) == a + b + 1;
      }
      TiebreakPairOrder(o, a, b, first);
      MixOutcomes(p, TbP1(o, a + 1, b + 1, first), TbP1(o, a, b + 2, first), TbP1(o, a + 2, b, first),
                  TbP1(o, a + 1, b + 1, first));
    }
  }

  lemma {:induction false} TiebreakPairOrder(o: Odds, a: nat, b: nat, first: Player)
    requires ValidOdds(o) && TiebreakLive(a, b) && TiebreakLive(a + 1, b) && TiebreakLive(a, b + 1)
    ensures TbP1(o, a, b + 2, first) <= TbP1(o, a + 1, b + 1, first) <= TbP1(o, a + 2, b, first)
    decreases TiebreakRank(a, b), 0
  {
    hide TbP1;
    if a == b && a >= 6 {
      TbP1IsProb(o, a + 1, b + 1, first);
      TiebreakOver(o, a + 2, b, first);
      TiebreakOver(o, a, b + 2, first);
    } else {
      TiebreakPointOrder(o, a + 1, b, first);
      TiebreakPointOrder(o, a, b + 1, first);
    }
  }

  lemma TiebreakOver(o: Odds, a: nat, b: nat, first: Player)
    ensures TiebreakWon(a, b) ==> TbP1(o, a, b, first) == 1.0
    ensures TiebreakWon(b, a) ==> TbP1(o, a, b, first) == 0.0
  {
  }

  lemma {:induction false} TiebreakMonotone(o: Odds, o': Odds, a: nat, b: nat, first: Player)
    requires ValidOdds(o) && ValidOdds(o') && NoWorse(o, o')
    ensures TbP1(o, a, b, first) <= TbP1(o', a, b, first)
    decreases TiebreakRank(a, b)
  {
    hide Mix;
    hide TiebreakDeuce;
    if !TiebreakLive(a, b) {
    } else {
      if a >= 6 && b >= 6 && a == b {
        TiebreakDeuceMonotone(o.sp1, o.sp2, o'.sp1, o'.sp2);
      } else {
        var server := TiebreakServer(first, a + b);
        TiebreakMonotone(o, o', a + 1, b, first);
        TiebreakMonotone(o, o', a, b + 1, first);
        TiebreakPointOrder(o, a, b, first);
        PointP1Monotone(o, o', server);
        MixMonotone(PointP1(o, server), TbP1(o, a + 1, b, first), TbP1(o, a, b + 1, first),
                    PointP1(o', server), TbP1(o', a + 1, b, first), TbP1(o', a, b + 1, first));
      }
    }
  }

  // ---- Set ----

  lemma {:induction false} SetGameOrder(o: Odds, g1: int, g2: int, server: Player)
    requires ValidOdds(o) && SetLegal(g1, g2) && !SetWon(g1, g2) && !SetWon(g2, g1) && g1 + g2 < 12
    ensures SetP1(o, g1, g2 + 1, server, 0, 0) <= SetP1(o, g1 + 1, g2, server, 0, 0)
    decreases SetRank(g1, g2)
  {
    hide Mix;
    hide GameP1;
    hide TbP1;
    var s := server.Other();
    SetP1IsProb(o, g1 + 1, g2, server, 0, 0);
    SetP1IsProb(o, g1, g2 + 1, server, 0, 0);
    if !SetWon(g1 + 1, g2) && !SetWon(g2 + 1, g1) {
      SetGameOrder(o, g1 + 1, g2, s);
      SetGameOrder(o, g1, g2 + 1, s);
      GameP1IsProb(o, server, 0, 0);
      MixOutcomes(GameP1(o, server, 0, 0),
                  SetP1(o, g1 + 1, g2 + 1, s, 0, 0), SetP1(o, g1, g2 + 2, s, 0, 0),
                  SetP1(o, g1 + 2, g2, s, 0, 0), SetP1(o, g1 + 1, g2 + 1, s, 0, 0));
    }
  }

  lemma {:induction false} SetMonotone(o: Odds, o': Odds, g1: int, g2: int, server: Player, a: nat, b: nat)
    requires ValidOdds(o) && ValidOdds(o') && NoWorse(o, o') && SetLegal(g1, g2)
    ensures SetP1(o, g1, g2, server, a, b) <= SetP1(o', g1, g2, server, a, b)
    decreases SetRank(g1, g2)
  {
    hide Mix;
    hide GameP1;
    hide TbP1;
    if g1 == 6 && g2 == 6 {
      TiebreakMonotone(o, o', 0, 0, server);
    } else if !SetWon(g1, g2) && !SetWon(g2, g1) {
      var s := server.Other();
      SetMonotone(o, o', g1 + 1, g2, s, 0, 0);
      SetMonotone(o, o', g1, g2 + 1, s, 0, 0);
      SetGameOrder(o, g1, g2, s);
      GameP1IsProb(o, server, a, b);
      GameP1IsProb(o', server, a, b);
      GameP1Monotone(o, o', server, a, b);
      MixMonotone(GameP1(o, server, a, b), SetP1(o, g1 + 1, g2, s, 0, 0), SetP1(o, g1, g2 + 1, s, 0, 0),
                  GameP1(o', server, a, b), SetP1(o', g1 + 1, g2, s, 0, 0), SetP1(o', g1, g2 + 1, s, 0, 0));
    }
  }

  // ---- Match ----

  lemma {:induction false} MatchSetOrder(o: Odds, s1: nat, s2: nat, first: Player)
    requires ValidOdds(o) && s1 < o.setsToWin && s2 < o.setsToWin
    ensures MatchFromSetStart(o, s1, s2 + 1, first) <= MatchFromSetStart(o, s1 + 1, s2, first)
    decreases 2 * o.setsToWin - s1 - s2
  {
    hide Mix;
    hide SetP1;
    MatchFromSetStartIsProb(o, s1 + 1, s2, first);
    MatchFromSetStartIsProb(o, s1, s2 + 1, first);
    if s1 + 1 < o.setsToWin && s2 + 1 < o.setsToWin {
      var f := first.Other();
      MatchSetOrder(o, s1 + 1, s2, f);
      MatchSetOrder(o, s1, s2 + 1, f);
      SetP1IsProb(o, 0, 0, first, 0, 0);
      MixOutcomes(SetP1(o, 0, 0, first, 0, 0),
                  MatchFromSetStart(o, s1 + 1, s2 + 1, f), MatchFromSetStart(o, s1, s2 + 2, f),
                  MatchFromSetStart(o, s1 + 2, s2, f), MatchFromSetStart(o, s1 + 1, s2 + 1, f));
    }
  }

  lemma {:induction false} MatchFromSetStartMonotone(o: Odds, o': Odds, s1: nat, s2: nat, first: Player)
    requires ValidOdds(o) && ValidOdds(o') && NoWorse(o, o') && s1 <= o.setsToWin && s2 <= o.setsToWin
    ensures MatchFromSetStart(o, s1, s2, first) <= MatchFromSetStart(o', s1, s2, first)
    decreases 2 * o.setsToWin - s1 - s2
  {
    hide Mix;
    hide SetP1;
    if s1 < o.setsToWin && s2 < o.setsToWin {
      var f := first.Other();
      MatchFromSetStartMonotone(o, o', s1 + 1, s2, f);
      MatchFromSetStartMonotone(o, o', s1, s2 + 1, f);
      MatchSetOrder(o, s1, s2, f);
      SetP1IsProb(o, 0, 0, first, 0, 0);
      SetP1IsProb(o', 0, 0, first, 0, 0);
      SetMonotone(o, o', 0, 0, first, 0, 0);
      MixMonotone(SetP1(o, 0, 0, first, 0, 0), MatchFromSetStart(o, s1 + 1, s2, f), MatchFromSetStart(o, s1, s2 + 1, f),
                  SetP1(o', 0, 0, first, 0, 0), MatchFromSetStart(o', s1 + 1, s2, f),
                  MatchFromSetStart(o', s1, s2 + 1, f));
    }
  }

  /** The in-play price never falls when player one serves better or player two serves worse. */
  lemma MatchMonotone(o: Odds, o': Odds, s1: nat, s2: nat, g1: int, g2: int, server: Player, a: nat, b: nat)
    requires ValidOdds(o) && ValidOdds(o') && NoWorse(o, o')
    requires Priceable(o, s1, s2, g1, g2)
    ensures MatchP1(o, s1, s2, g1, g2, server, a, b) <= MatchP1(o', s1, s2, g1, g2, server, a, b)
  {
    hide Mix;
    hide SetP1;
    hide MatchFromSetStart;
    if s1 < o.setsToWin && s2 < o.setsToWin {
      var f := server.Other();
      MatchFromSetStartMonotone(o, o', s1 + 1, s2, f);
      MatchFromSetStartMonotone(o, o', s1, s2 + 1, f);
      MatchSetOrder(o, s1, s2, f);
      SetP1IsProb(o, g1, g2, server, a, b);
      SetP1IsProb(o', g1, g2, server, a, b);
      SetMonotone(o, o', g1, g2, server, a, b);
      MixMonotone(SetP1(o, g1, g2, server, a, b), MatchFromSetStart(o, s1 + 1, s2, f),
                  MatchFromSetStart(o, s1, s2 + 1, f),
                  SetP1(o', g1, g2, server, a, b), MatchFromSetStart(o', s1 + 1, s2, f),
                  MatchFromSetStart(o', s1, s2 + 1, f));
    }
  }
}
