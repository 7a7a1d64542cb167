/** One-step laws: at every live score each level's value is the point- or game-weighted average
    of its two successors, the closed forms at deuce included. */
module OneStep {
  import opened Probability
  import opened Scoring

  /** Deuce solves its own recursion: win two, lose two, or come back level. */
  lemma DeuceSolves(p: real)
    ensures Deuce(p) == p * (p + (1.0 - p) * Deuce(p)) + (1.0 - p) * (p * Deuce(p))
  {
    DeuceDenominator(p);
    var q := 1.0 - p;
    var d := Deuce(p);
    assert d * (p * p + q * q) == p * p;
    assert p * p + q * q == 1.0 - 2.0 * (p * q);
  }

  lemma GameOneStep(p: real, a: nat, b: nat)
    requires GameLive(a, b)
    ensures Gwp(p, a, b) == Mix(p, Gwp(p, a + 1, b), Gwp(p, a, b + 1))
  {
    hide Mix;
    hide Deuce;
    if a >= 3 && b >= 3 {
      DeuceMixes(p);
      DeuceScores(p, a, b);
    }
  }

  /** The value at a deuce score depends on the lead alone. */
  function AtLead(p: real, lead: int): real {
    var d := Deuce(p);
    if lead >= 2 then 1.0
    else if lead == 1 then p + (1.0 - p) * d
    else if lead == 0 then d
    else if lead == -1 then p * d
    else 0.0
  }

  lemma DeuceScores(p: real, a: nat, b: nat)
    requires a >= 3 && b >= 3
    ensures Gwp(p, a, b) == AtLead(p, a - b)
    ensures Gwp(p, a + 1, b) == AtLead(p, a + 1 - b)
    ensures Gwp(p, a, b + 1) == AtLead(p, a - b - 1)
  {
    hide Mix;
    hide Deuce;
  }

  lemma DeuceMixes(p: real)
    ensures AtLead(p, 0) == Mix(p, AtLead(p, 1), AtLead(p, -1))
    ensures AtLead(p, 1) == Mix(p, AtLead(p, 2), AtLead(p, 0))
    ensures AtLead(p, -1) == Mix(p, AtLead(p, 0), AtLead(p, -2))
  {
    hide Deuce;
    DeuceSolves(p);
  }

  lemma GameP1OneStep(o: Odds, server: Player, a: nat, b: nat)
    requires GameLive(a, b)
    ensures server == P1 ==>
      GameP1(o, P1, a, b) == Mix(PointP1(o, P1), GameP1(o, P1, a + 1, b), GameP1(o, P1, a, b + 1))
    ensures server == P2 ==>
      GameP1(o, P2, a, b) == Mix(PointP1(o, P2), GameP1(o, P2, a, b + 1), GameP1(o, P2, a + 1, b))
  {
    if server == P1 {
      GameOneStep(o.sp1, a, b);
    } else {
      GameOneStep(o.sp2, a, b);
      MixComplement(o.sp2, Gwp(o.sp2, a + 1, b), Gwp(o.sp2, a, b + 1));
      assert 1.0 - o.sp2 == PointP1(o, P2);
    }
  }

  /** A pair of points served once each: win both, lose both, or come back level. */
  lemma PairSolves(u: real, v: real, x: real, y: real, d: real)
    requires x == u * v && y == (1.0 - u) * (1.0 - v)
    requires d * (x + y) == x
    ensures d == Mix(u, Mix(v, 1.0, d), Mix(v, d, 0.0))
  {
    assert Mix(u, Mix(v, 1.0, d), Mix(v, d, 0.0)) == x + d - d * (x + y);
  }

  /** With u and v player one's chances on the two serves of a pair of points. */
  lemma TiebreakDeuceSolves(sp1: real, sp2: real, u: real, v: real)
    requires IsProb(sp1) && IsProb(sp2)
    requires (u == sp1 && v == 1.0 - sp2) || (u == 1.0 - sp2 && v == sp1)
    ensures var d := TiebreakDeuce(sp1, sp2); d == Mix(u, Mix(v, 1.0, d), Mix(v, d, 0.0))
  {
    hide FirstOf;
    hide Mix;
    var x := sp1 * (1.0 - sp2);
    var y := (1.0 - sp1) * sp2;
    ProductNonNegative(sp1, 1.0 - sp2);
    ProductNonNegative(1.0 - sp1, sp2);
    FirstOfComplement(x, y);
    assert u * v == x;
    assert (1.0 - u) * (1.0 - v) == y;
    PairSolves(u, v, x, y, TiebreakDeuce(sp1, sp2));
  }

  /** The tiebreak rotation: the first server serves one point, and from then on each player two. */
  lemma TiebreakRotation(first: Player, i: nat)
    ensures TiebreakServer(first, 0) == first
    ensures TiebreakServer(first, i + 1) == TiebreakServer(first, i) <==> i % 2 == 1
  {
    assert i % 2 == 1 ==> (i + 2) / 2 == (i + 1) / 2;
    assert i % 2 == 0 ==> (i + 2) / 2 == (i + 1) / 2 + 1;
  }

  /** Consecutive points from a level score are served once by each player. */
  lemma TiebreakPairServers(first: Player, i: nat)
    requires i % 2 == 0
    ensures TiebreakServer(first, i + 1) == TiebreakServer(first, i).Other()
  {
    assert (i + 1) / 2 == i / 2 && (i + 2) / 2 == i / 2 + 1;
  }

  lemma TiebreakOneStep(o: Odds, a: nat, b: nat, first: Player)
    requires ValidOdds(o) && TiebreakLive(a, b)
    ensures TbP1(o, a, b, first) ==
      Mix(PointP1(o, TiebreakServer(first, a + b)), TbP1(o, a + 1, b, first), TbP1(o, a, b + 1, first))
  {
    if a >= 6 && b >= 6 && a == b {
      var d := TiebreakDeuce(o.sp1, o.sp2);
      var u := PointP1(o, TiebreakServer(first, a + b));
      var v := PointP1(o, TiebreakServer(first, a + b + 1));
      TiebreakPairServers(first, a + b);
      assert TbP1(o, a + 1, b, first) == Mix(v, 1.0, d) by {
        assert TbP1(o, a + 2, b, first) == 1.0 && TbP1(o, a + 1, b + 1, first) == d;
        assert a + 1 + b == a + b + 1;
      }
      assert TbP1(o, a, b + 1, first) == Mix(v, d, 0.0) by {
        assert TbP1(o, a, b + 2, first) == 0.0 && TbP1(o, a + 1, b + 1, first) == d;
        assert a + (b + 1) == a + b + 1;
      }
      TiebreakDeuceSolves(o.sp1, o.sp2, u, v);
    }
  }

  // ---- Values are probabilities ----

  lemma DeuceIsProb(p: real)
    requires IsProb(p)
    ensures IsProb(Deuce(p))
  {
    DeuceDenominator(p);
    var q := 1.0 - p;
    var d := Deuce(p);
    ProductNonNegative(p, p);
    ProductNonNegative(q, q);
    assert d == p * p / (p * p + q * q);
    Ratio(p * p, q * q);
  }

  lemma Ratio(x: real, y: real)
    requires x >= 0.0 && y >= 0.0 && x + y > 0.0
    ensures IsProb(x / (x + y))
    ensures x / (x + y) + y / (x + y) == 1.0
  {
    Shares(x, y, x + y);
  }

  lemma Shares(x: real, y: real, s: real)
    requires x >= 0.0 && y >= 0.0 && s == x + y && s > 0.0
    ensures IsProb(x / s) && x / s + y / s == 1.0
  {
    Quotient(x, s);
    Quotient(y, s);
    SharesOfWhole(x, y, s, x / s, y / s);
  }

  lemma Quotient(x: real, s: real)
    requires s > 0.0
    ensures (x / s) * s == x
  {
  }

  lemma SharesOfWhole(x: real, y: real, s: real, r: real, t: real)
    requires x >= 0.0 && y >= 0.0 && s == x + y && s > 0.0 && r * s == x && t * s == y
    ensures r >= 0.0 && t >= 0.0 && r + t == 1.0
  {
    NonNegativeFactor(r, s);
    NonNegativeFactor(t, s);
    assert (r + t - 1.0) * s == 0.0 && (1.0 - r - t) * s == 0.0;
    NonNegativeFactor(r + t - 1.0, s);
    NonNegativeFactor(1.0 - r - t, s);
  }

  lemma FirstOfComplement(x: real, y: real)
    requires x >= 0.0 && y >= 0.0
    ensures IsProb(FirstOf(x, y)) && FirstOf(y, x) == 1.0 - FirstOf(x, y)
    ensures FirstOf(x, y) * (x + y) == x
  {
    if x + y > 0.0 {
      Ratio(x, y);
      assert y + x == x + y;
    }
  }

  lemma {:induction false} GwpIsProb(p: real, a: nat, b: nat)
    requires IsProb(p)
    ensures IsProb(Gwp(p, a, b))
    decreases 6 - (a + b)
  {
    DeuceIsProb(p);
    MixIsProb(p, 1.0, Deuce(p));
    MixIsProb(p, Deuce(p), 0.0);
    if GameLive(a, b) && !(a >= 3 && b >= 3) {
      GwpIsProb(p, a + 1, b);
      GwpIsProb(p, a, b + 1);
      MixIsProb(p, Gwp(p, a + 1, b), Gwp(p, a, b + 1));
    }
  }

  lemma GameP1IsProb(o: Odds, server: Player, a: nat, b: nat)
    requires ValidOdds(o)
    ensures IsProb(GameP1(o, server, a, b))
  {
    GwpIsProb(o.sp1, a, b);
    GwpIsProb(o.sp2, a, b);
  }

  lemma TiebreakDeuceIsProb(sp1: real, sp2: real)
    requires IsProb(sp1) && IsProb(sp2)
    ensures IsProb(TiebreakDeuce(sp1, sp2))
  {
    ProductNonNegative(sp1, 1.0 - sp2);
    ProductNonNegative(1.0 - sp1, sp2);
    FirstOfComplement(sp1 * (1.0 - sp2), (1.0 - sp1) * sp2);
  }

  lemma {:induction false} TbP1IsProb(o: Odds, a: nat, b: nat, first: Player)
    requires ValidOdds(o)
    ensures IsProb(TbP1(o, a, b, first))
    decreases TiebreakRank(a, b)
  {
    hide Mix;
    hide TiebreakDeuce;
    TiebreakDeuceIsProb(o.sp1, o.sp2);
    if TiebreakLive(a, b) && !(a >= 6 && b >= 6 && a == b) {
      TbP1IsProb(o, a + 1, b, first);
      TbP1IsProb(o, a, b + 1, first);
      MixIsProb(PointP1(o, TiebreakServer(first, a + b)), TbP1(o, a + 1, b, first), TbP1(o, a, b + 1, first));
    }
  }

  lemma {:induction false} SetP1IsProb(o: Odds, g1: int, g2: int, server: Player, a: nat, b: nat)
    requires ValidOdds(o) && SetLegal(g1, g2)
    ensures IsProb(SetP1(o, g1, g2, server, a, b))
    decreases SetRank(g1, g2)
  {
    hide Mix;
    hide GameP1;
    hide TbP1;
    if g1 == 6 && g2 == 6 {
      TbP1IsProb(o, 0, 0, server);
    } else if !SetWon(g1, g2) && !SetWon(g2, g1) {
      GameP1IsProb(o, server, a, b);
      SetP1IsProb(o, g1 + 1, g2, server.Other(), 0, 0);
      SetP1IsProb(o, g1, g2 + 1, server.Other(), 0, 0);
      MixIsProb(GameP1(o, server, a, b), SetP1(o, g1 + 1, g2, server.Other(), 0, 0),
                SetP1(o, g1, g2 + 1, server.Other(), 0, 0));
    }
  }

  lemma {:induction false} MatchFromSetStartIsProb(o: Odds, s1: nat, s2: nat, first: Player)
    requires ValidOdds(o) && s1 <= o.setsToWin && s2 <= o.setsToWin
    ensures IsProb(MatchFromSetStart(o, s1, s2, first))
    decreases 2 * o.setsToWin - s1 - s2
  {
    hide Mix;
    hide SetP1;
    if s1 < o.setsToWin && s2 < o.setsToWin {
      SetP1IsProb(o, 0, 0, first, 0, 0);
      MatchFromSetStartIsProb(o, s1 + 1, s2, first.Other());
      MatchFromSetStartIsProb(o, s1, s2 + 1, first.Other());
      MixIsProb(SetP1(o, 0, 0, first, 0, 0), MatchFromSetStart(o, s1 + 1, s2, first.Other()),
                MatchFromSetStart(o, s1, s2 + 1, first.Other()));
    }
  }

  lemma {:induction false} MatchP1IsProb(o: Odds, s1: nat, s2: nat, g1: int, g2: int, server: Player, a: nat, b: nat)
    requires ValidOdds(o) && Priceable(o, s1, s2, g1, g2)
    ensures IsProb(MatchP1(o, s1, s2, g1, g2, server, a, b))
  {
    hide Mix;
    hide SetP1;
    hide MatchFromSetStart;
    if s1 < o.setsToWin && s2 < o.setsToWin {
      SetP1IsProb(o, g1, g2, server, a, b);
      MatchFromSetStartIsProb(o, s1 + 1, s2, server.Other());
      MatchFromSetStartIsProb(o, s1, s2 + 1, server.Other());
      MixIsProb(SetP1(o, g1, g2, server, a, b), MatchFromSetStart(o, s1 + 1, s2, server.Other()),
                MatchFromSetStart(o, s1, s2 + 1, server.Other()));
    }
  }
}
