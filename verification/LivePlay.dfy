/** A tennis match point by point, as the script's own simulator plays it, and the engine's price
    as a quantity carried along by the play. */
module LivePlay {
  import opened Probability
  import opened Scoring
  import opened OneStep
  import opened FirstServer
  import opened Monotone
  import opened PlayerSwap

  /** Sets and games are player one's then player two's. In a game a and b are the server's and
      the returner's points; in a tiebreak they are player one's and player two's. */
  datatype Live =
    | InGame(s1: nat, s2: nat, g1: nat, g2: nat, server: Player, a: nat, b: nat)
    | InTiebreak(s1: nat, s2: nat, first: Player, a: nat, b: nat)
    | Over(winner: Player)

  predicate SetLive(g1: nat, g2: nat) {
    SetLegal(g1, g2) && !SetWon(g1, g2) && !SetWon(g2, g1) && !(g1 == 6 && g2 == 6)
  }

  predicate Legal(o: Odds, st: Live) {
    match st
    case InGame(s1, s2, g1, g2, _, a, b) =>
      s1 < o.setsToWin && s2 < o.setsToWin && SetLive(g1, g2) && GameLive(a, b)
    case InTiebreak(s1, s2, _, a, b) =>
      s1 < o.setsToWin && s2 < o.setsToWin && TiebreakLive(a, b)
    case Over(_) => true
  }

  function AfterSet(o: Odds, s1: nat, s2: nat, winner: Player, next: Player): (st: Live)
    requires s1 < o.setsToWin && s2 < o.setsToWin
    ensures Legal(o, st)
  {
    var t1 := if winner == P1 then s1 + 1 else s1;
    var t2 := if winner == P1 then s2 else s2 + 1;
    if t1 == o.setsToWin then Over(P1)
    else if t2 == o.setsToWin then Over(P2)
    else InGame(t1, t2, 0, 0, next, 0, 0)
  }

  function AfterGame(o: Odds, s1: nat, s2: nat, g1: nat, g2: nat, next: Player): (st: Live)
    requires s1 < o.setsToWin && s2 < o.setsToWin && SetLegal(g1, g2)
    ensures Legal(o, st)
  {
    if SetWon(g1, g2) then AfterSet(o, s1, s2, P1, next)
    else if SetWon(g2, g1) then AfterSet(o, s1, s2, P2, next)
    else if g1 == 6 && g2 == 6 then InTiebreak(s1, s2, next, 0, 0)
    else InGame(s1, s2, g1, g2, next, 0, 0)
  }

  /** The state after one more point, won by the given player. */
  function Next(o: Odds, st: Live, winner: Player): (st': Live)
    requires Legal(o, st)
    ensures Legal(o, st')
  {
    match st
    case InGame(s1, s2, g1, g2, server, a, b) =>
      var a' := if winner == server then a + 1 else a;
      var b' := if winner == server then b else b + 1;
      if GameLive(a', b') then InGame(s1, s2, g1, g2, server, a', b')
      else if winner == P1 then AfterGame(o, s1, s2, g1 + 1, g2, server.Other())
      else AfterGame(o, s1, s2, g1, g2 + 1, server.Other())
    case InTiebreak(s1, s2, first, a, b) =>
      var a' := if winner == P1 then a + 1 else a;
      var b' := if winner == P1 then b else b + 1;
      if TiebreakLive(a', b') then InTiebreak(s1, s2, first, a', b')
      else AfterSet(o, s1, s2, winner, first.Other())
    case Over(_) => st
  }

  /** Player one wins the next point. */
  function Chance(o: Odds, st: Live): real {
    match st
    case InGame(_, _, _, _, server, _, _) => PointP1(o, server)
    case InTiebreak(_, _, first, a, b) => PointP1(o, TiebreakServer(first, a + b))
    case Over(_) => 0.5
  }

  lemma ChanceIsProb(o: Odds, st: Live)
    requires ValidOdds(o)
    ensures IsProb(Chance(o, st))
  {
  }

  /** The engine's value of a state. Inside a tiebreak this is the tiebreak recursion at the
      running score, carried to the match. */
  function Price(o: Odds, st: Live): real
    requires Legal(o, st)
  {
    match st
    case InGame(s1, s2, g1, g2, server, a, b) => MatchP1(o, s1, s2, g1, g2, server, a, b)
    case InTiebreak(s1, s2, first, a, b) =>
      Mix(TbP1(o, a, b, first), MatchFromSetStart(o, s1 + 1, s2, P1), MatchFromSetStart(o, s1, s2 + 1, P1))
    case Over(winner) => if winner == P1 then 1.0 else 0.0
  }

  // ---- Prices across the end of a set and of a game ----

  lemma AfterSetPrice(o: Odds, s1: nat, s2: nat, next: Player)
    requires s1 < o.setsToWin && s2 < o.setsToWin
    ensures Price(o, AfterSet(o, s1, s2, P1, next)) == MatchFromSetStart(o, s1 + 1, s2, P1)
    ensures Price(o, AfterSet(o, s1, s2, P2, next)) == MatchFromSetStart(o, s1, s2 + 1, P1)
  {
    hide Mix;
    hide SetP1;
    hide MatchP1;
    SetStartPrice(o, s1 + 1, s2, next, P1);
    SetStartPrice(o, s1, s2 + 1, next, P1);
  }

  lemma AfterGamePrice(o: Odds, s1: nat, s2: nat, g1: nat, g2: nat, next: Player)
    requires s1 < o.setsToWin && s2 < o.setsToWin && SetLegal(g1, g2)
    ensures Price(o, AfterGame(o, s1, s2, g1, g2, next)) ==
      Mix(SetP1(o, g1, g2, next, 0, 0), MatchFromSetStart(o, s1 + 1, s2, P1), MatchFromSetStart(o, s1, s2 + 1, P1))
  {
    hide MatchP1;
    hide MatchFromSetStart;
    hide GameP1;
    hide TbP1;
    AfterSetPrice(o, s1, s2, next);
    NextSetServerIrrelevant(o, s1, s2, g1, g2, next, 0, 0, P1, P1);
  }

  /** Price of a game in progress, with g player one's chance of winning that game. */
  function GamePrice(o: Odds, s1: nat, s2: nat, g1: nat, g2: nat, server: Player, g: real): real
    requires s1 < o.setsToWin && s2 < o.setsToWin && SetLive(g1, g2)
  {
    Mix(Mix(g, SetP1(o, g1 + 1, g2, server.Other(), 0, 0), SetP1(o, g1, g2 + 1, server.Other(), 0, 0)),
        MatchFromSetStart(o, s1 + 1, s2, P1), MatchFromSetStart(o, s1, s2 + 1, P1))
  }

  lemma InGamePrice(o: Odds, st: Live)
    requires Legal(o, st) && st.InGame?
    ensures Price(o, st) == GamePrice(o, st.s1, st.s2, st.g1, st.g2, st.server, GameP1(o, st.server, st.a, st.b))
  {
    hide Mix;
    hide MatchP1;
    hide MatchFromSetStart;
    hide GameP1;
    hide SetP1;
    NextSetServerIrrelevant(o, st.s1, st.s2, st.g1, st.g2, st.server, st.a, st.b, P1, P1);
    SetP1Live(o, st.g1, st.g2, st.server, st.a, st.b);
  }

  lemma SetP1Live(o: Odds, g1: nat, g2: nat, server: Player, a: nat, b: nat)
    requires SetLive(g1, g2)
    ensures SetP1(o, g1, g2, server, a, b) == Mix(GameP1(o, server, a, b),
      SetP1(o, g1 + 1, g2, server.Other(), 0, 0), SetP1(o, g1, g2 + 1, server.Other(), 0, 0))
  {
    hide Mix;
    hide GameP1;
    hide TbP1;
  }

  lemma NextInGamePrice(o: Odds, st: Live, winner: Player)
    requires Legal(o, st) && st.InGame?
    ensures var a := if winner == st.server then st.a + 1 else st.a;
            var b := if winner == st.server then st.b else st.b + 1;
            Price(o, Next(o, st, winner)) ==
              GamePrice(o, st.s1, st.s2, st.g1, st.g2, st.server, GameP1(o, st.server, a, b))
  {
    hide Mix;
    hide MatchP1;
    hide MatchFromSetStart;
    hide SetP1;
    hide Deuce;
    hide Price;
    var a := if winner == st.server then st.a + 1 else st.a;
    var b := if winner == st.server then st.b else st.b + 1;
    if GameLive(a, b) {
      InGamePrice(o, InGame(st.s1, st.s2, st.g1, st.g2, st.server, a, b));
    } else {
      var s := st.server.Other();
      var x, y := SetP1(o, st.g1 + 1, st.g2, s, 0, 0), SetP1(o, st.g1, st.g2 + 1, s, 0, 0);
      assert GameP1(o, st.server, a, b) == if winner == P1 then 1.0 else 0.0;
      MixEnds(x, y);
      if winner == P1 {
        AfterGamePrice(o, st.s1, st.s2, st.g1 + 1, st.g2, s);
      } else {
        AfterGamePrice(o, st.s1, st.s2, st.g1, st.g2 + 1, s);
      }
    }
  }

  lemma MixEnds(x: real, y: real)
    ensures Mix(1.0, x, y) == x && Mix(0.0, x, y) == y
  {
  }

  lemma NextInTiebreakPrice(o: Odds, st: Live, winner: Player)
    requires Legal(o, st) && st.InTiebreak?
    ensures var a := if winner == P1 then st.a + 1 else st.a;
            var b := if winner == P1 then st.b else st.b + 1;
            Price(o, Next(o, st, winner)) ==
              Mix(TbP1(o, a, b, st.first),
                  MatchFromSetStart(o, st.s1 + 1, st.s2, P1), MatchFromSetStart(o, st.s1, st.s2 + 1, P1))
  {
    hide Mix;
    hide Price;
    hide MatchFromSetStart;
    hide TbP1;
    var a := if winner == P1 then st.a + 1 else st.a;
    var b := if winner == P1 then st.b else st.b + 1;
    if TiebreakLive(a, b) {
      InTiebreakPrice(o, InTiebreak(st.s1, st.s2, st.first, a, b));
    } else {
      AfterSetPrice(o, st.s1, st.s2, st.first.Other());
      MixEnds(MatchFromSetStart(o, st.s1 + 1, st.s2, P1), MatchFromSetStart(o, st.s1, st.s2 + 1, P1));
      TiebreakOver(o, a, b, st.first);
    }
  }

  // ---- Fairness ----

  /** The price is a martingale: at every legal state of a match in progress, tiebreaks included,
      it is the average of the prices after the two possible outcomes of the next point. */
  lemma PriceIsFair(o: Odds, st: Live)
    requires ValidOdds(o) && Legal(o, st) && !st.Over?
    ensures Price(o, st) == Mix(Chance(o, st), Price(o, Next(o, st, P1)), Price(o, Next(o, st, P2)))
  {
    hide Mix;
    hide Price;
    hide MatchFromSetStart;
    hide SetP1;
    hide Gwp;
    hide TbP1;
    match st
    case InGame(s1, s2, g1, g2, server, a, b) =>
      InGamePrice(o, st);
      NextInGamePrice(o, st, P1);
      NextInGamePrice(o, st, P2);
      GameP1OneStep(o, server, a, b);
      var gw := if server == P1 then GameP1(o, server, a + 1, b) else GameP1(o, server, a, b + 1);
      var gl := if server == P1 then GameP1(o, server, a, b + 1) else GameP1(o, server, a + 1, b);
      var s := server.Other();
      var x, y := SetP1(o, g1 + 1, g2, s, 0, 0), SetP1(o, g1, g2 + 1, s, 0, 0);
      MixNested(Chance(o, st), gw, gl, x, y);
      MixNested(Chance(o, st), Mix(gw, x, y), Mix(gl, x, y),
                MatchFromSetStart(o, s1 + 1, s2, P1), MatchFromSetStart(o, s1, s2 + 1, P1));
    case InTiebreak(s1, s2, first, a, b) =>
      InTiebreakPrice(o, st);
      NextInTiebreakPrice(o, st, P1);
      NextInTiebreakPrice(o, st, P2);
      TiebreakOneStep(o, a, b, first);
      MixNested(Chance(o, st), TbP1(o, a + 1, b, first), TbP1(o, a, b + 1, first),
                MatchFromSetStart(o, s1 + 1, s2, P1), MatchFromSetStart(o, s1, s2 + 1, P1));
  }

  lemma InTiebreakPrice(o: Odds, st: Live)
    requires Legal(o, st) && st.InTiebreak?
    ensures Price(o, st) == Mix(TbP1(o, st.a, st.b, st.first),
                                MatchFromSetStart(o, st.s1 + 1, st.s2, P1), MatchFromSetStart(o, st.s1, st.s2 + 1, P1))
  {
  }

  lemma PriceOrder(o: Odds, st: Live)
    requires ValidOdds(o) && Legal(o, st) && !st.Over?
    ensures Price(o, Next(o, st, P2)) <= Price(o, Next(o, st, P1))
  {
    hide Mix;
    hide Price;
    hide MatchFromSetStart;
    hide SetP1;
    hide Gwp;
    hide TbP1;
    MatchSetOrder(o, st.s1, st.s2, P1);
    match st
    case InGame(s1, s2, g1, g2, server, a, b) =>
      NextInGamePrice(o, st, P1);
      NextInGamePrice(o, st, P2);
      GamePointOrder(if server == P1 then o.sp1 else o.sp2, a, b);
      var gw := if server == P1 then GameP1(o, server, a + 1, b) else GameP1(o, server, a, b + 1);
      var gl := if server == P1 then GameP1(o, server, a, b + 1) else GameP1(o, server, a + 1, b);
      var s := server.Other();
      var x, y := SetP1(o, g1 + 1, g2, s, 0, 0), SetP1(o, g1, g2 + 1, s, 0, 0);
      SetGameOrder(o, g1, g2, s);
      MixChance(gl, gw, x, y);
      MixChance(Mix(gl, x, y), Mix(gw, x, y),
                MatchFromSetStart(o, s1 + 1, s2, P1), MatchFromSetStart(o, s1, s2 + 1, P1));
    case InTiebreak(s1, s2, first, a, b) =>
      NextInTiebreakPrice(o, st, P1);
      NextInTiebreakPrice(o, st, P2);
      TiebreakPointOrder(o, a, b, first);
      MixChance(TbP1(o, a, b + 1, first), TbP1(o, a + 1, b, first),
                MatchFromSetStart(o, s1 + 1, s2, P1), MatchFromSetStart(o, s1, s2 + 1, P1));
  }

  /** Winning a point never lowers the price and losing one never raises it. */
  lemma PointNeverHurts(o: Odds, st: Live)
    requires ValidOdds(o) && Legal(o, st) && !st.Over?
    ensures Price(o, Next(o, st, P2)) <= Price(o, st) <= Price(o, Next(o, st, P1))
  {
    hide Price;
    hide Next;
    hide Mix;
    PriceIsFair(o, st);
    PriceOrder(o, st);
    ChanceIsProb(o, st);
    MixBetween(Chance(o, st), Price(o, Next(o, st, P1)), Price(o, Next(o, st, P2)));
  }

  /** On the engine's own interface: player one wins a game rather than loses it. */
  lemma GameNeverHurts(o: Odds, s1: nat, s2: nat, g1: nat, g2: nat, server: Player)
    requires ValidOdds(o) && s1 < o.setsToWin && s2 < o.setsToWin && SetLive(g1, g2)
    ensures MatchP1(o, s1, s2, g1, g2 + 1, server, 0, 0) <= MatchP1(o, s1, s2, g1 + 1, g2, server, 0, 0)
  {
    hide Mix;
    hide SetP1;
    hide MatchFromSetStart;
    SetGameOrder(o, g1, g2, server);
    MatchSetOrder(o, s1, s2, server.Other());
    MixChance(SetP1(o, g1, g2 + 1, server, 0, 0), SetP1(o, g1 + 1, g2, server, 0, 0),
              MatchFromSetStart(o, s1 + 1, s2, server.Other()), MatchFromSetStart(o, s1, s2 + 1, server.Other()));
  }

  // ---- The engine at six games all ----

  /** At 6-6 the engine prices the tiebreak from its first point whatever the running score is.
      That is the price of the running score exactly when the tiebreak is worth the same at both
      scores, or the set no longer matters. */
  lemma SixAllExactIff(o: Odds, s1: nat, s2: nat, first: Player, a: nat, b: nat, server: Player, pa: nat, pb: nat)
    requires s1 < o.setsToWin && s2 < o.setsToWin && TiebreakLive(a, b)
    ensures MatchP1(o, s1, s2, 6, 6, server, pa, pb) == Price(o, InTiebreak(s1, s2, first, a, b)) <==>
      TbP1(o, a, b, first) == TbP1(o, 0, 0, first)
      || MatchFromSetStart(o, s1 + 1, s2, first) == MatchFromSetStart(o, s1, s2 + 1, first)
  {
    hide MatchFromSetStart;
    hide TbP1;
    hide MatchP1;
    hide Mix;
    NextSetServerIrrelevant(o, s1, s2, 6, 6, server, pa, pb, P1, P1);
    TiebreakFirstServer(o, 0, 0);
    MatchFirstServer(o, s1 + 1, s2);
    MatchFirstServer(o, s1, s2 + 1);
    MixEqualIff(TbP1(o, 0, 0, P1), TbP1(o, a, b, first),
                MatchFromSetStart(o, s1 + 1, s2, P1), MatchFromSetStart(o, s1, s2 + 1, P1));
  }

  lemma MixEqualIff(p: real, p': real, x: real, y: real)
    ensures Mix(p, x, y) == Mix(p', x, y) <==> p == p' || x == y
  {
    assert Mix(p, x, y) - Mix(p', x, y) == (p - p') * (x - y);
  }

  /** Between equal players in a deciding set, the engine quotes even money at six points to love. */
  lemma SixAllMispriced(n: nat, server: Player, pa: nat, pb: nat)
    ensures var o := Odds(0.5, 0.5, n + 1);
            && MatchP1(o, n, n, 6, 6, server, pa, pb) == 0.5
            && Price(o, InTiebreak(n, n, P1, 6, 0)) >= 0.75
  {
    hide Mix;
    hide TiebreakDeuce;
    var o := Odds(0.5, 0.5, n + 1);
    TiebreakSwap(o, 0, 0, server);
    TiebreakFirstServer(o, 0, 0);
    MixEnds(1.0, 0.0);
    assert forall t: real :: Mix(t, 1.0, 0.0) == t by { forall t: real { MixToZero(t); } }
    TbP1IsProb(o, 6, 2, P1);
    assert TbP1(o, 6, 1, P1) == Mix(0.5, 1.0, TbP1(o, 6, 2, P1));
    assert TbP1(o, 6, 0, P1) == Mix(0.5, 1.0, TbP1(o, 6, 1, P1));
    MixOutcomes(0.5, 1.0, 0.0, 1.0, TbP1(o, 6, 2, P1));
    MixOutcomes(0.5, 1.0, 0.5, 1.0, TbP1(o, 6, 1, P1));
    MixHalf();
  }

  lemma MixToZero(t: real)
    ensures Mix(t, 1.0, 0.0) == t
  {
  }

  lemma MixHalf()
    ensures Mix(0.5, 1.0, 0.5) == 0.75
  {
  }

  /** Between equal players a match level in sets is an even bet at the start of every set. */
  lemma EqualPlayersEven(o: Odds, n: nat, server: Player)
    requires ValidOdds(o) && o.sp1 == o.sp2 && n < o.setsToWin
    ensures MatchP1(o, n, n, 0, 0, server, 0, 0) == 0.5
  {
    hide MatchP1;
    hide MatchFromSetStart;
    assert Swap(o) == o;
    SetStartPrice(o, n, n, server, P1);
    MatchFirstServer(o, n, n);
    MatchFromSetStartSwap(o, n, n, P1);
  }
}
