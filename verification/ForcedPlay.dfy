/** Stuck strengths: every point goes to the server, or every point goes to the returner. Play is then
    forced, and the score tells who takes the set, if anyone ever does. */
module ForcedPlay {
  import opened Options
  import opened Probability
  import opened Scoring
  import opened OneStep
  import opened LivePlay
  import opened Horizon
  import Interior
  import FirstServer
  import PlayerSwap
  import Monotone
  import SixAll

  // ---- Forced play ----

  /** The winner of the next point. */
  function PointWinner(o: Odds, st: Live): Player {
    if Chance(o, st) == 1.0 then P1 else P2
  }

  function ForcedNext(o: Odds, st: Live): (st': Live)
    requires Legal(o, st)
    ensures Legal(o, st')
  {
    Next(o, st, PointWinner(o, st))
  }

  /** The winner of a game: its server if everyone holds, its returner if everyone is broken. */
  function GameWinner(o: Odds, server: Player): Player {
    if o.sp1 == 1.0 then server else server.Other()
  }

  /** Games go alternately to next and to the other player. Whoever keeps a lead of two games at some
      point of each round takes the set; otherwise it comes to a tiebreak. */
  function GamesDecide(g1: int, g2: int, next: Player): Option<Player> {
    var lead := if next == P1 then g1 - g2 else g2 - g1;
    if lead >= 1 then Some(next) else if lead <= -2 then Some(next.Other()) else None
  }

  /** Tiebreak points go one to each player in every pair, so only a lead at the end of a pair counts. */
  function PointsDecide(a: int, b: int, next: Player): Option<Player> {
    var lead := if (a + b) % 2 == 0 then a - b else if next == P1 then a - b + 1 else a - b - 1;
    if lead > 0 then Some(P1) else if lead < 0 then Some(P2) else None
  }

  /** Who takes the current set under forced play; None if it never ends. */
  function SetWinner(o: Odds, st: Live): Option<Player>
    requires !st.Over?
  {
    match st
    case InGame(_, _, g1, g2, server, _, _) => GamesDecide(g1, g2, GameWinner(o, server))
    case InTiebreak(_, _, _, a, b) => PointsDecide(a, b, PointWinner(o, st))
  }

  /** Forced play ends the match: it is over, or the current set has a winner and is the last one
      that player needs. Any later set starts level and never ends. */
  predicate EndsMatch(o: Odds, st: Live) {
    st.Over? ||
    match SetWinner(o, st)
    case None => false
    case Some(w) => (if w == P1 then st.s1 else st.s2) + 1 == o.setsToWin
  }

  lemma PointIsForced(o: Odds, st: Live)
    requires Stuck(o) && Legal(o, st) && !st.Over?
    ensures ChanceOf(o, st, PointWinner(o, st)) == 1.0
    ensures st.InGame? ==> PointWinner(o, st) == GameWinner(o, st.server)
    ensures st.InTiebreak? ==> PointWinner(o, st) == GameWinner(o, TiebreakServer(st.first, st.a + st.b))
  {
  }

  /** Forced points left in the set, an upper bound. */
  function PointsLeft(o: Odds, st: Live): int {
    match st
    case InGame(_, _, g1, g2, server, a, b) =>
      20 * (13 - g1 - g2) + (if GameWinner(o, server) == server then PointsNeeded(4, a, b) else PointsNeeded(4, b, a))
    case InTiebreak(_, _, _, a, b) => TiebreakRank(a, b)
    case Over(_) => 0
  }

  /** One forced point within a game. */
  lemma GameStep(o: Odds, st: Live)
    requires Stuck(o) && Legal(o, st) && st.InGame?
    ensures var st' := ForcedNext(o, st);
            && (SetWinner(o, st).None? ==> !st'.Over? && SetWinner(o, st').None?)
            && (SetWinner(o, st).Some? ==>
                  var w := SetWinner(o, st).value;
                  || (!st'.Over? && st'.s1 == st.s1 && st'.s2 == st.s2 && SetWinner(o, st') == Some(w)
                      && PointsLeft(o, st') < PointsLeft(o, st))
                  || st' == AfterSet(o, st.s1, st.s2, w, st.server.Other()))
    ensures PointsLeft(o, st) >= 0
  {
    hide AfterSet;
    hide Chance;
    hide GamesDecide;
    hide AfterGame;
    PointIsForced(o, st);
    GameEnd(o, st);
  }

  /** The forced winner of the game takes it. */
  lemma GameEnd(o: Odds, st: Live)
    requires Stuck(o) && Legal(o, st) && st.InGame?
    ensures var w, next := GameWinner(o, st.server), st.server.Other();
            var g1, g2 := (if w == P1 then st.g1 + 1 else st.g1), (if w == P1 then st.g2 else st.g2 + 1);
            var st' := AfterGame(o, st.s1, st.s2, g1, g2, next);
            && (SetWinner(o, st).None? ==> !st'.Over? && SetWinner(o, st').None?)
            && (SetWinner(o, st).Some? ==>
                  || (st'.InGame? && st'.s1 == st.s1 && st'.s2 == st.s2 && SetWinner(o, st') == SetWinner(o, st)
                      && PointsLeft(o, st') < PointsLeft(o, st))
                  || st' == AfterSet(o, st.s1, st.s2, SetWinner(o, st).value, next))
  {
    hide AfterSet;
    hide Chance;
  }

  /** A point to w, the next one to w', keeps what the points decide. */
  lemma PointsKeepDeciding(a: nat, b: nat, w: Player, w': Player)
    requires (a + b) % 2 == 0 ==> w' == w.Other()
    ensures PointsDecide(if w == P1 then a + 1 else a, if w == P1 then b else b + 1, w') == PointsDecide(a, b, w)
  {
  }

  lemma LastPointDecides(a: nat, b: nat, w: Player)
    requires TiebreakLive(a, b)
    ensures w == P1 && !TiebreakLive(a + 1, b) ==> PointsDecide(a, b, P1) == Some(P1)
    ensures w == P2 && !TiebreakLive(a, b + 1) ==> PointsDecide(a, b, P2) == Some(P2)
  {
  }

  lemma DecidedRankFalls(a: nat, b: nat, w: Player)
    requires TiebreakLive(a, b) && PointsDecide(a, b, w).Some?
    ensures TiebreakRank(if w == P1 then a + 1 else a, if w == P1 then b else b + 1) < TiebreakRank(a, b)
  {
  }

  lemma TiebreakStep(o: Odds, st: Live)
    requires Stuck(o) && Legal(o, st) && st.InTiebreak?
    ensures var st' := ForcedNext(o, st);
            && (SetWinner(o, st).None? ==> !st'.Over? && SetWinner(o, st').None?)
            && (SetWinner(o, st).Some? ==>
                  var w := SetWinner(o, st).value;
                  || (st'.InTiebreak? && st'.s1 == st.s1 && st'.s2 == st.s2 && SetWinner(o, st') == Some(w)
                      && PointsLeft(o, st') < PointsLeft(o, st))
                  || st' == AfterSet(o, st.s1, st.s2, w, st.first.Other()))
  {
    hide AfterSet;
    hide PointsDecide;
    hide TiebreakServer;
    hide TiebreakLive;
    hide TiebreakRank;
    PointIsForced(o, st);
    var w := PointWinner(o, st);
    var a, b := if w == P1 then st.a + 1 else st.a, if w == P1 then st.b else st.b + 1;
    LastPointDecides(st.a, st.b, w);
    if SetWinner(o, st).Some? {
      DecidedRankFalls(st.a, st.b, w);
    }
    if TiebreakLive(a, b) {
      var st' := InTiebreak(st.s1, st.s2, st.first, a, b);
      PointIsForced(o, st');
      if (st.a + st.b) % 2 == 0 {
        TiebreakPairServers(st.first, st.a + st.b);
        assert a + b == st.a + st.b + 1;
      }
      PointsKeepDeciding(st.a, st.b, w, PointWinner(o, st'));
    }
  }

  /** After a set, either the match is over or a level set begins. */
  lemma AfterForcedSet(o: Odds, s1: nat, s2: nat, w: Player, next: Player)
    requires s1 < o.setsToWin && s2 < o.setsToWin
    ensures var st := AfterSet(o, s1, s2, w, next);
            if (if w == P1 then s1 else s2) + 1 == o.setsToWin then st.Over?
            else !st.Over? && SetWinner(o, st).None?
  {
  }

  lemma ForcedStep(o: Odds, st: Live)
    requires Stuck(o) && Legal(o, st) && !st.Over?
    ensures EndsMatch(o, ForcedNext(o, st)) <==> EndsMatch(o, st)
    ensures EndsMatch(o, st) ==>
      PointsLeft(o, st) >= 0 && (ForcedNext(o, st).Over? || PointsLeft(o, ForcedNext(o, st)) < PointsLeft(o, st))
  {
    hide ForcedNext;
    hide AfterSet;
    hide SetWinner;
    if st.InGame? {
      GameStep(o, st);
      if SetWinner(o, st).Some? {
        AfterForcedSet(o, st.s1, st.s2, SetWinner(o, st).value, st.server.Other());
      }
    } else {
      TiebreakStep(o, st);
      if SetWinner(o, st).Some? {
        AfterForcedSet(o, st.s1, st.s2, SetWinner(o, st).value, st.first.Other());
      }
    }
  }

  lemma UndecidedForced(o: Odds, st: Live, n: nat)
    requires Stuck(o) && Legal(o, st) && !st.Over?
    ensures Undecided(o, st, n + 1) == Undecided(o, ForcedNext(o, st), n)
  {
    hide Next;
    hide Mix;
    PointIsForced(o, st);
    MixEnds(Undecided(o, Next(o, st, P1), n), Undecided(o, Next(o, st, P2), n));
  }

  lemma {:induction false} ForcedEnd(o: Odds, st: Live) returns (n: nat)
    requires Stuck(o) && Legal(o, st) && EndsMatch(o, st)
    ensures Undecided(o, st, n) == 0.0
    decreases if st.Over? then -1 else PointsLeft(o, st)
  {
    hide EndsMatch;
    hide PointsLeft;
    hide ForcedNext;
    if st.Over? {
      n := 0;
    } else {
      ForcedStep(o, st);
      var m := ForcedEnd(o, ForcedNext(o, st));
      UndecidedForced(o, st, m);
      n := m + 1;
    }
  }

  lemma {:induction false} ForcedForever(o: Odds, st: Live, n: nat)
    requires Stuck(o) && Legal(o, st) && !EndsMatch(o, st)
    ensures Undecided(o, st, n) == 1.0
    decreases n
  {
    assert !st.Over?;
    hide EndsMatch;
    hide ForcedNext;
    hide Mix;
    if n == 0 {
    } else {
      ForcedStep(o, st);
      ForcedForever(o, ForcedNext(o, st), n - 1);
      UndecidedForced(o, st, n - 1);
    }
  }

  /** From every legal state, the match is decided with certainty exactly when the strengths are not
      stuck or the score forces its end. */
  lemma ResolvesIff(o: Odds, st: Live)
    requires ValidOdds(o) && Legal(o, st)
    ensures Resolves(o, st) <==> !Stuck(o) || EndsMatch(o, st)
  {
    hide Undecided;
    hide EndsMatch;
    if !Stuck(o) {
      NotStuckResolves(o, st);
    } else if EndsMatch(o, st) {
      var n := ForcedEnd(o, st);
      forall eps: real | eps > 0.0
        ensures DecidedWithin(o, st, eps)
      {
        assert Undecided(o, st, n) < eps;
      }
    } else {
      forall n: nat
        ensures Undecided(o, st, n) == 1.0
      {
        ForcedForever(o, st, n);
      }
      assert !DecidedWithin(o, st, 0.5);
    }
  }

  // ---- The price of a match that never ends ----

  lemma DeuceOfCertainty()
    ensures Deuce(1.0) == 1.0
  {
  }

  lemma {:induction false} ServerAlwaysHolds(a: nat, b: nat)
    requires !GameWon(b, a)
    ensures Gwp(1.0, a, b) == 1.0
    decreases 6 - (a + b)
  {
    hide Mix;
    hide Deuce;
    DeuceOfCertainty();
    if GameLive(a, b) && !(a >= 3 && b >= 3) {
      ServerAlwaysHolds(a + 1, b);
      MixEnds(Gwp(1.0, a + 1, b), Gwp(1.0, a, b + 1));
    }
  }

  lemma GameIsForced(o: Odds, server: Player, a: nat, b: nat)
    requires Stuck(o) && GameLive(a, b)
    ensures GameP1(o, server, a, b) == if GameWinner(o, server) == P1 then 1.0 else 0.0
  {
    hide Gwp;
    ServerAlwaysHolds(a, b);
    ServerAlwaysHolds(b, a);
    PlayerSwap.GwpReturner(1.0, b, a);
  }

  lemma {:induction false} StuckTiebreakPositive(o: Odds, a: nat, b: nat, first: Player)
    requires Stuck(o) && !TiebreakWon(b, a)
    requires TiebreakLive(a, b) ==> PointsDecide(a, b, GameWinner(o, TiebreakServer(first, a + b))) != Some(P2)
    ensures TbP1(o, a, b, first) > 0.0
    decreases TiebreakRank(a, b)
  {
    hide Mix;
    hide TbP1;
    hide PointsDecide;
    hide TiebreakServer;
    if !TiebreakLive(a, b) {
      Monotone.TiebreakOver(o, a, b, first);
    } else if a == b {
      SixAll.LevelIsEven(o, a, first);
    } else {
      var server, server' := TiebreakServer(first, a + b), TiebreakServer(first, a + b + 1);
      var w := GameWinner(o, server);
      if (a + b) % 2 == 0 {
        TiebreakPairServers(first, a + b);
      }
      TiebreakOneStep(o, a, b, first);
      MixEnds(TbP1(o, a + 1, b, first), TbP1(o, a, b + 1, first));
      PointsKeepDeciding(a, b, w, GameWinner(o, server'));
      LastPointDecides(a, b, w);
      if w == P1 {
        assert a + 1 + b == a + b + 1;
        StuckTiebreakPositive(o, a + 1, b, first);
      } else {
        assert a + (b + 1) == a + b + 1;
        StuckTiebreakPositive(o, a, b + 1, first);
      }
    }
  }

  lemma {:induction false} StuckSetPositive(o: Odds, g1: int, g2: int, server: Player, a: nat, b: nat)
    requires Stuck(o) && SetLegal(g1, g2) && !SetWon(g2, g1) && GameLive(a, b)
    requires !SetWon(g1, g2) && !(g1 == 6 && g2 == 6) ==> GamesDecide(g1, g2, GameWinner(o, server)) != Some(P2)
    ensures SetP1(o, g1, g2, server, a, b) > 0.0
    decreases SetRank(g1, g2)
  {
    hide Mix;
    hide GameP1;
    hide TbP1;
    if g1 == 6 && g2 == 6 {
      SixAll.LevelIsEven(o, 0, server);
    } else if !SetWon(g1, g2) {
      var s := server.Other();
      GameIsForced(o, server, a, b);
      MixEnds(SetP1(o, g1 + 1, g2, s, 0, 0), SetP1(o, g1, g2 + 1, s, 0, 0));
      if GameWinner(o, server) == P1 {
        StuckSetPositive(o, g1 + 1, g2, s, 0, 0);
      } else {
        StuckSetPositive(o, g1, g2 + 1, s, 0, 0);
      }
    }
  }

  lemma {:induction false} StuckMatchPositive(o: Odds, s1: nat, s2: nat, first: Player)
    requires Stuck(o) && s1 <= o.setsToWin && s2 < o.setsToWin
    ensures MatchFromSetStart(o, s1, s2, first) > 0.0
    decreases o.setsToWin - s1
  {
    hide Mix;
    hide SetP1;
    if s1 < o.setsToWin {
      var f := first.Other();
      StuckSetPositive(o, 0, 0, first, 0, 0);
      SetP1IsProb(o, 0, 0, first, 0, 0);
      StuckMatchPositive(o, s1 + 1, s2, f);
      MatchFromSetStartIsProb(o, s1, s2 + 1, f);
      Interior.MixPositive(SetP1(o, 0, 0, first, 0, 0),
                           MatchFromSetStart(o, s1 + 1, s2, f), MatchFromSetStart(o, s1, s2 + 1, f));
    }
  }

  lemma MixOfPositives(p: real, x: real, y: real)
    requires IsProb(p) && x > 0.0 && y >= 0.0 && (p > 0.0 || y > 0.0)
    ensures Mix(p, x, y) > 0.0
  {
    if p > 0.0 {
      Interior.MixPositive(p, x, y);
    }
  }

  /** A match that forced play never ends is still given a positive price for player one. */
  lemma EndlessPricePositive(o: Odds, st: Live)
    requires Stuck(o) && Legal(o, st) && !EndsMatch(o, st)
    ensures Price(o, st) > 0.0
  {
    hide Mix;
    hide MatchP1;
    hide MatchFromSetStart;
    hide SetP1;
    hide TbP1;
    var s1, s2 := st.s1, st.s2;
    var x, y := MatchFromSetStart(o, s1 + 1, s2, P1), MatchFromSetStart(o, s1, s2 + 1, P1);
    StuckMatchPositive(o, s1 + 1, s2, P1);
    MatchFromSetStartIsProb(o, s1, s2 + 1, P1);
    if s2 + 1 < o.setsToWin {
      StuckMatchPositive(o, s1, s2 + 1, P1);
    }
    match st
    case InGame(_, _, g1, g2, server, a, b) =>
      FirstServer.NextSetServerIrrelevant(o, s1, s2, g1, g2, server, a, b, P1, P1);
      SetP1IsProb(o, g1, g2, server, a, b);
      if SetWinner(o, st) != Some(P2) {
        StuckSetPositive(o, g1, g2, server, a, b);
      }
      MixOfPositives(SetP1(o, g1, g2, server, a, b), x, y);
    case InTiebreak(_, _, first, a, b) =>
      PointIsForced(o, st);
      TbP1IsProb(o, a, b, first);
      if SetWinner(o, st) != Some(P2) {
        StuckTiebreakPositive(o, a, b, first);
      }
      MixOfPositives(TbP1(o, a, b, first), x, y);
  }

  /** From every legal state, the price is the probability that player one wins exactly when the
      strengths are not stuck or the score forces the end of the match. */
  lemma PriceExactIff(o: Odds, st: Live)
    requires ValidOdds(o) && Legal(o, st)
    ensures Exact(o, st) <==> !Stuck(o) || EndsMatch(o, st)
  {
    hide Price;
    hide WonBy;
    hide Undecided;
    hide EndsMatch;
    ResolvesIff(o, st);
    if !Stuck(o) || EndsMatch(o, st) {
      ResolvesExact(o, st);
    } else {
      EndlessPricePositive(o, st);
      forall n: nat
        ensures WonBy(o, st, P1, n) == 0.0
      {
        ForcedForever(o, st, n);
        OutcomesAddUp(o, st, n);
      }
      assert !Approached(o, st, Price(o, st));
    }
  }

  function Start(server: Player): Live {
    InGame(0, 0, 0, 0, server, 0, 0)
  }

  /** A match that starts stuck is never won, and is quoted at one half. */
  lemma StuckFromTheStart(o: Odds, server: Player, n: nat)
    requires Stuck(o) && o.setsToWin > 0
    ensures !EndsMatch(o, Start(server)) && Undecided(o, Start(server), n) == 1.0
    ensures Price(o, Start(server)) == 0.5
  {
    hide Undecided;
    hide MatchP1;
    ForcedForever(o, Start(server), n);
    EqualPlayersEven(o, 0, server);
  }

  /** Stuck play can still end a match: serving for it with a game in hand. */
  lemma StuckButWon()
    ensures var o := Odds(1.0, 1.0, 1);
            var st := InGame(0, 0, 5, 3, P1, 3, 0);
            Stuck(o) && Legal(o, st) && EndsMatch(o, st) && WonBy(o, st, P1, 1) == 1.0
  {
    var o := Odds(1.0, 1.0, 1);
    var st := InGame(0, 0, 5, 3, P1, 3, 0);
    assert Next(o, st, P1) == Over(P1);
    assert WonBy(o, Over(P1), P1, 0) == 1.0;
  }
}
