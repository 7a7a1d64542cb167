/** The rules of tennis in plain numbers: when a game, a tiebreak, a set and a match end, for the engine's
    values and for live play. */
module Rulebook {
  import opened Probability
  import opened Scoring
  import opened OneStep
  import opened FirstServer
  import opened LivePlay

  // ---- Live play by the book ----

  /** The legal states: a game is on while nobody has four points or the points are within one, a set while
      nobody has six games or it stands at 6-5, a tiebreak while nobody has seven points or they are within
      one. */
  lemma LegalByTheBook(o: Odds, st: Live)
    ensures st.InGame? ==>
      (Legal(o, st) <==>
        && st.s1 < o.setsToWin && st.s2 < o.setsToWin
        && ((st.g1 <= 5 && st.g2 <= 5) || (st.g1 == 6 && st.g2 == 5) || (st.g1 == 5 && st.g2 == 6))
        && ((st.a <= 3 && st.b <= 3) || -1 <= st.a - st.b <= 1))
    ensures st.InTiebreak? ==>
      (Legal(o, st) <==>
        && st.s1 < o.setsToWin && st.s2 < o.setsToWin
        && ((st.a <= 6 && st.b <= 6) || -1 <= st.a - st.b <= 1))
    ensures st.Over? ==> Legal(o, st)
  {
  }

  /** A point in a game. The winner takes the game exactly with at least three points already and more
      than the opponent: from 3-2 or less at once, at 3-3 or later on a lead of two. */
  lemma PointInGame(o: Odds, st: Live, w: Player)
    requires Legal(o, st) && st.InGame?
    ensures var own, other := (if w == st.server then st.a else st.b), (if w == st.server then st.b else st.a);
            if own >= 3 && own > other then
              Next(o, st, w) == if w == P1 then AfterGame(o, st.s1, st.s2, st.g1 + 1, st.g2, st.server.Other())
                                else AfterGame(o, st.s1, st.s2, st.g1, st.g2 + 1, st.server.Other())
            else
              Next(o, st, w) == InGame(st.s1, st.s2, st.g1, st.g2, st.server,
                                       if w == st.server then st.a + 1 else st.a,
                                       if w == st.server then st.b else st.b + 1)
  {
    hide AfterGame;
  }

  /** A finished game, of which player w, with own games to other before it, was the winner. It takes the set
      to 6-4 or better or to 7-5; 6-6 is a tiebreak opened by the next server. */
  lemma GameToPlayer(o: Odds, s1: nat, s2: nat, g1: nat, g2: nat, w: Player, next: Player)
    requires s1 < o.setsToWin && s2 < o.setsToWin
    requires (g1 <= 5 && g2 <= 5) || (g1 == 6 && g2 == 5) || (g1 == 5 && g2 == 6)
    ensures var h1, h2 := (if w == P1 then g1 + 1 else g1), (if w == P1 then g2 else g2 + 1);
            var own, other := (if w == P1 then h1 else h2), (if w == P1 then h2 else h1);
            && SetLegal(h1, h2)
            && AfterGame(o, s1, s2, h1, h2, next) ==
                 if (own == 6 && other <= 4) || (own == 7 && other == 5) then AfterSet(o, s1, s2, w, next)
                 else if own == 6 && other == 6 then InTiebreak(s1, s2, next, 0, 0)
                 else InGame(s1, s2, h1, h2, next, 0, 0)
  {
    hide AfterSet;
  }

  /** A tiebreak point. It takes the tiebreak, and the set, exactly with at least six points already and more
      than the opponent; whoever received first serves next. */
  lemma PointInTiebreak(o: Odds, st: Live, w: Player)
    requires Legal(o, st) && st.InTiebreak?
    ensures var own, other := (if w == P1 then st.a else st.b), (if w == P1 then st.b else st.a);
            if own >= 6 && own > other then Next(o, st, w) == AfterSet(o, st.s1, st.s2, w, st.first.Other())
            else
              Next(o, st, w) == InTiebreak(st.s1, st.s2, st.first,
                                           if w == P1 then st.a + 1 else st.a, if w == P1 then st.b else st.b + 1)
  {
    hide AfterSet;
  }

  /** A finished set is the winner's, and the match too when it is the last one needed. */
  lemma SetToPlayer(o: Odds, s1: nat, s2: nat, w: Player, next: Player)
    requires s1 < o.setsToWin && s2 < o.setsToWin
    ensures AfterSet(o, s1, s2, P1, next) ==
      if s1 + 1 == o.setsToWin then Over(P1) else InGame(s1 + 1, s2, 0, 0, next, 0, 0)
    ensures AfterSet(o, s1, s2, P2, next) ==
      if s2 + 1 == o.setsToWin then Over(P2) else InGame(s1, s2 + 1, 0, 0, next, 0, 0)
  {
  }

  /** Whoever serves a point wins it with their own serve probability. */
  lemma ServerWinsPoint(o: Odds, st: Live)
    requires !st.Over?
    ensures var server := if st.InGame? then st.server else TiebreakServer(st.first, st.a + st.b);
            && (server == P1 ==> Chance(o, st) == o.sp1)
            && (server == P2 ==> Chance(o, st) == 1.0 - o.sp2)
  {
  }

  // ---- A game is six points, or deuce ----

  /** The chance of coming out ahead after m more rounds, each won with chance p, from a lead of l; even is
      the value of ending level. */
  ghost function PlayOut(p: real, even: real, m: nat, l: int): real {
    if m == 0 then (if l > 0 then 1.0 else if l < 0 then 0.0 else even)
    else Mix(p, PlayOut(p, even, m - 1, l + 1), PlayOut(p, even, m - 1, l - 1))
  }

  lemma {:induction false} Uncatchable(p: real, even: real, m: nat, l: int)
    ensures l > m ==> PlayOut(p, even, m, l) == 1.0
    ensures l + m < 0 ==> PlayOut(p, even, m, l) == 0.0
  {
    hide Mix;
    if m == 0 {
    } else {
      Uncatchable(p, even, m - 1, l + 1);
      Uncatchable(p, even, m - 1, l - 1);
      MixSame(p, 1.0);
      MixSame(p, 0.0);
    }
  }

  /** Stopping a game at its end never matters: it is worth as much as playing all of its first six
      points and, if they come out level, going on from deuce. */
  lemma {:induction false} GamePlayedOut(p: real, a: nat, b: nat)
    requires a + b <= 6
    ensures Gwp(p, a, b) == PlayOut(p, Deuce(p), 6 - (a + b), a - b)
    decreases 6 - (a + b)
  {
    hide Mix;
    hide Deuce;
    if a >= 4 || b >= 4 {
      Uncatchable(p, Deuce(p), 6 - (a + b), a - b);
      GameByTheBook(p, a, b);
    } else if a + b == 6 {
      assert a == 3 && b == 3;
    } else {
      GamePlayedOut(p, a + 1, b);
      GamePlayedOut(p, a, b + 1);
    }
  }

  /** Four points and a lead of two win a game; from deuce on only the lead counts. */
  lemma GameByTheBook(p: real, a: nat, b: nat)
    ensures a >= 4 && a >= b + 2 ==> Gwp(p, a, b) == 1.0
    ensures b >= 4 && b >= a + 2 ==> Gwp(p, a, b) == 0.0
    ensures a >= 3 && b >= 3 && a == b ==> Gwp(p, a, b) == Gwp(p, 3, 3)
    ensures a >= 3 && b >= 3 && a == b + 1 ==> Gwp(p, a, b) == Gwp(p, 4, 3)
    ensures a >= 3 && b >= 3 && b == a + 1 ==> Gwp(p, a, b) == Gwp(p, 3, 4)
  {
    hide Mix;
    hide Deuce;
  }

  lemma MixSplit(p: real, q: real, x: real, y: real)
    requires q == 1.0 - p
    ensures Mix(p, x, y) == p * x + q * y
  {
  }

  /** The server's chance with a points to b, p and q being the chances of a point and d that of winning
      from deuce: the ways to four points before the other has three, and the ways to deuce. */
  function GamePolynomial(p: real, q: real, d: real, a: nat, b: nat): real {
    if a >= 4 then 1.0
    else if b >= 4 then 0.0
    else
      match (a, b)
      case (3, 3) => d
      case (3, 2) => p + q * d
      case (2, 3) => p * d
      case (3, 1) => p + p * q + q * q * d
      case (2, 2) => p * p + 2.0 * p * q * d
      case (1, 3) => p * p * d
      case (3, 0) => p + p * q + p * q * q + q * q * q * d
      case (2, 1) => p * p + 2.0 * p * p * q + 3.0 * p * q * q * d
      case (1, 2) => p * p * p + 3.0 * p * p * q * d
      case (0, 3) => p * p * p * d
      case (2, 0) => p * p + 2.0 * p * p * q + 3.0 * p * p * q * q + 4.0 * p * q * q * q * d
      case (1, 1) => p * p * p + 3.0 * p * p * p * q + 6.0 * p * p * q * q * d
      case (0, 2) => p * p * p * p + 4.0 * p * p * p * q * d
      case (1, 0) => p * p * p + 3.0 * p * p * p * q + 6.0 * p * p * p * q * q + 10.0 * p * p * q * q * q * d
      case (0, 1) => p * p * p * p + 4.0 * p * p * p * p * q + 10.0 * p * p * p * q * q * d
      case _ => p * p * p * p * (1.0 + 4.0 * q + 10.0 * (q * q)) + 20.0 * (p * p * p) * (q * q * q) * d
  }

  lemma PolynomialStep(p: real, q: real, d: real, a: nat, b: nat)
    requires a <= 3 && b <= 3 && a + b < 6
    ensures Splits(p, q, d, a, b)
  {
    hide Splits;
    AfterFive(p, q, d);
    AfterFour(p, q, d);
    AfterThree(p, q, d);
    AfterTwo(p, q, d);
    AfterOne(p, q, d);
    AtLoveAll(p, q, d);
  }

  /** The value at a score is that after a point won and after a point lost, weighted. */
  predicate Splits(p: real, q: real, d: real, a: nat, b: nat) {
    GamePolynomial(p, q, d, a, b) == p * GamePolynomial(p, q, d, a + 1, b) + q * GamePolynomial(p, q, d, a, b + 1)
  }

  lemma AfterFive(p: real, q: real, d: real)
    ensures Splits(p, q, d, 3, 2) && Splits(p, q, d, 2, 3)
  {
  }

  lemma AfterFour(p: real, q: real, d: real)
    ensures Splits(p, q, d, 3, 1) && Splits(p, q, d, 2, 2) && Splits(p, q, d, 1, 3)
  {
  }

  lemma AfterThree(p: real, q: real, d: real)
    ensures Splits(p, q, d, 3, 0) && Splits(p, q, d, 2, 1) && Splits(p, q, d, 1, 2) && Splits(p, q, d, 0, 3)
  {
  }

  lemma AfterTwo(p: real, q: real, d: real)
    ensures Splits(p, q, d, 2, 0) && Splits(p, q, d, 1, 1) && Splits(p, q, d, 0, 2)
  {
    hide Splits;
    FromTwoLove(p, q, d);
    FromOneAll(p, q, d);
    FromLoveTwo(p, q, d);
  }

  lemma FromTwoLove(p: real, q: real, d: real)
    ensures Splits(p, q, d, 2, 0)
  {
  }

  lemma FromOneAll(p: real, q: real, d: real)
    ensures Splits(p, q, d, 1, 1)
  {
  }

  lemma FromLoveTwo(p: real, q: real, d: real)
    ensures Splits(p, q, d, 0, 2)
  {
  }

  lemma AfterOne(p: real, q: real, d: real)
    ensures Splits(p, q, d, 1, 0) && Splits(p, q, d, 0, 1)
  {
    hide Splits;
    FromOneLove(p, q, d);
    FromLoveOne(p, q, d);
  }

  lemma FromOneLove(p: real, q: real, d: real)
    ensures Splits(p, q, d, 1, 0)
  {
  }

  lemma FromLoveOne(p: real, q: real, d: real)
    ensures Splits(p, q, d, 0, 1)
  {
  }

  lemma AtLoveAll(p: real, q: real, d: real)
    ensures Splits(p, q, d, 0, 0)
  {
  }

  /** The closed form of a game at every score before deuce, the love game among them. */
  lemma {:induction false} GameClosedForm(p: real, a: nat, b: nat)
    requires a <= 4 && b <= 4 && a + b <= 6
    ensures Gwp(p, a, b) == GamePolynomial(p, 1.0 - p, Deuce(p), a, b)
    decreases 6 - (a + b)
  {
    hide Mix;
    hide Deuce;
    hide GamePolynomial;
    if a == 4 || b == 4 || (a == 3 && b == 3) {
      PolynomialEnds(p, 1.0 - p, Deuce(p), a, b);
    } else {
      GameClosedForm(p, a + 1, b);
      GameClosedForm(p, a, b + 1);
      PolynomialStep(p, 1.0 - p, Deuce(p), a, b);
      MixSplit(p, 1.0 - p, Gwp(p, a + 1, b), Gwp(p, a, b + 1));
    }
  }

  lemma PolynomialEnds(p: real, q: real, d: real, a: nat, b: nat)
    ensures a >= 4 ==> GamePolynomial(p, q, d, a, b) == 1.0
    ensures a <= 3 && b >= 4 ==> GamePolynomial(p, q, d, a, b) == 0.0
    ensures a == 3 && b == 3 ==> GamePolynomial(p, q, d, a, b) == d
  {
  }

  /** A game from love all, in the chance of a point alone. */
  lemma LoveGame(p: real)
    ensures var q := 1.0 - p;
            && p * p + q * q > 0.0
            && Gwp(p, 0, 0) == p * p * p * p * (1.0 + 4.0 * q + 10.0 * (q * q))
                               + 20.0 * (p * p * p) * (q * q * q) * (p * p / (p * p + q * q))
  {
    hide Gwp;
    DeuceDenominator(p);
    GameClosedForm(p, 0, 0);
    DeuceIs(p);
    LoveAllPolynomial(p, 1.0 - p, Deuce(p));
  }

  lemma DeuceIs(p: real)
    ensures p * p + (1.0 - p) * (1.0 - p) > 0.0 && Deuce(p) == p * p / (p * p + (1.0 - p) * (1.0 - p))
  {
    DeuceDenominator(p);
  }

  lemma LoveAllPolynomial(p: real, q: real, d: real)
    ensures GamePolynomial(p, q, d, 0, 0) ==
      p * p * p * p * (1.0 + 4.0 * q + 10.0 * (q * q)) + 20.0 * (p * p * p) * (q * q * q) * d
  {
  }

  // ---- Tiebreak, set and match ----

  /** Seven points and a lead of two win a tiebreak; level from six all on it is a matter of pairs, and at
      every other score the next point decides. */
  lemma TiebreakByTheBook(o: Odds, a: nat, b: nat, first: Player)
    requires ValidOdds(o)
    ensures a >= 7 && a >= b + 2 ==> TbP1(o, a, b, first) == 1.0
    ensures b >= 7 && b >= a + 2 ==> TbP1(o, a, b, first) == 0.0
    ensures a >= 6 && a == b ==> TbP1(o, a, b, first) == TbP1(o, 6, 6, first)
    ensures !(a >= 7 && a >= b + 2) && !(b >= 7 && b >= a + 2) ==>
      TbP1(o, a, b, first) ==
        Mix(PointP1(o, TiebreakServer(first, a + b)), TbP1(o, a + 1, b, first), TbP1(o, a, b + 1, first))
  {
    hide Mix;
    hide TiebreakDeuce;
    if !(a >= 7 && a >= b + 2) && !(b >= 7 && b >= a + 2) {
      TiebreakOneStep(o, a, b, first);
    }
  }

  /** Two games from five all: both win the set, one each is a tiebreak. g is the chance of the first one. */
  function FiveAll(o: Odds, server: Player, g: real): real {
    var h, t := GameP1(o, server.Other(), 0, 0), TbP1(o, 0, 0, server);
    Mix(g, Mix(h, 1.0, t), Mix(h, t, 0.0))
  }

  /** The chance of the set after all of its first ten games, m of which are left, from a lead of l games. g
      is the chance of the game being played. */
  ghost function TenGames(o: Odds, m: nat, l: int, server: Player, g: real): real {
    if m == 0 then (if l > 0 then 1.0 else if l < 0 then 0.0 else FiveAll(o, server, g))
    else
      var next := server.Other();
      var h := GameP1(o, next, 0, 0);
      Mix(g, TenGames(o, m - 1, l + 1, next, h), TenGames(o, m - 1, l - 1, next, h))
  }

  lemma {:induction false} LeadStands(o: Odds, m: nat, l: int, server: Player, g: real)
    ensures l > m ==> TenGames(o, m, l, server, g) == 1.0
    ensures l + m < 0 ==> TenGames(o, m, l, server, g) == 0.0
  {
    hide Mix;
    hide FiveAll;
    hide GameP1;
    if m == 0 {
    } else {
      var next := server.Other();
      LeadStands(o, m - 1, l + 1, next, GameP1(o, next, 0, 0));
      LeadStands(o, m - 1, l - 1, next, GameP1(o, next, 0, 0));
      MixSame(g, 1.0);
      MixSame(g, 0.0);
    }
  }

  /** Stopping a set at its end never matters: it is worth as much as playing all of its first ten games
      and, if they come out level, two more and perhaps a tiebreak. */
  lemma {:induction false} SetPlayedOut(o: Odds, g1: nat, g2: nat, server: Player, a: nat, b: nat)
    requires g1 + g2 <= 10
    ensures SetLegal(g1, g2)
    ensures SetP1(o, g1, g2, server, a, b) == TenGames(o, 10 - (g1 + g2), g1 - g2, server, GameP1(o, server, a, b))
    decreases 10 - (g1 + g2)
  {
    hide Mix;
    hide GameP1;
    hide TbP1;
    if g1 >= 6 || g2 >= 6 {
      SetByTheBook(o, g1, g2, server, a, b);
      LeadStands(o, 10 - (g1 + g2), g1 - g2, server, GameP1(o, server, a, b));
    } else if g1 + g2 == 10 {
      FromFiveAll(o, server, a, b);
    } else {
      SetPlayedOut(o, g1 + 1, g2, server.Other(), 0, 0);
      SetPlayedOut(o, g1, g2 + 1, server.Other(), 0, 0);
    }
  }

  lemma FromFiveAll(o: Odds, server: Player, a: nat, b: nat)
    ensures SetP1(o, 5, 5, server, a, b) == FiveAll(o, server, GameP1(o, server, a, b))
  {
    hide Mix;
    hide GameP1;
    hide TbP1;
    assert server.Other().Other() == server;
    assert SetP1(o, 6, 5, server.Other(), 0, 0) == Mix(GameP1(o, server.Other(), 0, 0), 1.0, TbP1(o, 0, 0, server));
    assert SetP1(o, 5, 6, server.Other(), 0, 0) == Mix(GameP1(o, server.Other(), 0, 0), TbP1(o, 0, 0, server), 0.0);
  }

  /** Six games and a lead of two win a set, and at six all a tiebreak decides it. */
  lemma SetByTheBook(o: Odds, g1: int, g2: int, server: Player, a: nat, b: nat)
    ensures g1 >= 6 && g1 >= g2 + 2 ==> SetLegal(g1, g2) && SetP1(o, g1, g2, server, a, b) == 1.0
    ensures g2 >= 6 && g2 >= g1 + 2 ==> SetLegal(g1, g2) && SetP1(o, g1, g2, server, a, b) == 0.0
    ensures g1 == 6 && g2 == 6 ==> SetLegal(g1, g2) && SetP1(o, g1, g2, server, a, b) == TbP1(o, 0, 0, server)
  {
    hide Mix;
    hide GameP1;
    hide TbP1;
  }

  /** The chance of more sets than the opponent after m more sets, from a lead of l. */
  ghost function AllSets(o: Odds, m: nat, l: int, first: Player): real {
    if m == 0 then (if l > 0 then 1.0 else 0.0)
    else
      Mix(SetP1(o, 0, 0, first, 0, 0), AllSets(o, m - 1, l + 1, first.Other()), AllSets(o, m - 1, l - 1, first.Other()))
  }

  lemma {:induction false} SetsStand(o: Odds, m: nat, l: int, first: Player)
    ensures l > m ==> AllSets(o, m, l, first) == 1.0
    ensures l + m < 0 ==> AllSets(o, m, l, first) == 0.0
  {
    hide Mix;
    hide SetP1;
    if m == 0 {
    } else {
      SetsStand(o, m - 1, l + 1, first.Other());
      SetsStand(o, m - 1, l - 1, first.Other());
      MixSame(SetP1(o, 0, 0, first, 0, 0), 1.0);
      MixSame(SetP1(o, 0, 0, first, 0, 0), 0.0);
    }
  }

  /** A match to n sets is worth as much as playing all 2n - 1 sets and counting them. */
  lemma {:induction false} MatchPlayedOut(o: Odds, s1: nat, s2: nat, first: Player)
    requires s1 <= o.setsToWin && s2 <= o.setsToWin && s1 + s2 < 2 * o.setsToWin
    ensures MatchFromSetStart(o, s1, s2, first) == AllSets(o, 2 * o.setsToWin - 1 - s1 - s2, s1 - s2, first)
    decreases 2 * o.setsToWin - s1 - s2
  {
    hide Mix;
    hide SetP1;
    if s1 == o.setsToWin || s2 == o.setsToWin {
      SetsStand(o, 2 * o.setsToWin - 1 - s1 - s2, s1 - s2, first);
    } else {
      MatchPlayedOut(o, s1 + 1, s2, first.Other());
      MatchPlayedOut(o, s1, s2 + 1, first.Other());
    }
  }
}
