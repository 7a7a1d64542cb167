/** The analytic engine of tennis_inplay_backtest.py as mathematics: the uncached recursions for
    a game, a tiebreak, a set and a match, from player one's perspective. */
module Scoring {
  import opened Probability

  /** The parameters an engine is built for: each player's chance of winning a point on serve,
      and the number of sets that wins the match. */
  datatype Odds = Odds(sp1: real, sp2: real, setsToWin: nat)

  predicate ValidOdds(o: Odds) {
    IsProb(o.sp1) && IsProb(o.sp2)
  }

  // ---- Game ----

  /** The player with a points has won the game against the player with b points. */
  predicate GameWon(a: nat, b: nat) {
    a >= 4 && a - b >= 2
  }

  predicate GameLive(a: nat, b: nat) {
    !GameWon(a, b) && !GameWon(b, a)
  }

  lemma DeuceDenominator(p: real)
    ensures p * p + (1.0 - p) * (1.0 - p) > 0.0
  {
    var c := p - 0.5;
    assert p * p + (1.0 - p) * (1.0 - p) == 2.0 * (c * c) + 0.5;
    assert c * c >= 0.0;
  }

  /** Closed form for the server winning from deuce. */
  function Deuce(p: real): real {
    DeuceDenominator(p);
    var q := 1.0 - p;
    p * p / (p * p + q * q)
  }

  /** The server, with a points to b, wins the game. */
  function Gwp(p: real, a: nat, b: nat): real
    decreases 6 - (a + b)
  {
    if GameWon(a, b) then 1.0
    else if GameWon(b, a) then 0.0
    else if a >= 3 && b >= 3 then
      var q := 1.0 - p;
      var d := Deuce(p);
      if a == b then d else if a == b + 1 then p + q * d else p * d
    else
      Mix(p, Gwp(p, a + 1, b), Gwp(p, a, b + 1))
  }

  /** Player one wins the game; a and b are the server's and the returner's points. */
  function GameP1(o: Odds, server: Player, a: nat, b: nat): real {
    if server == P1 then Gwp(o.sp1, a, b) else 1.0 - Gwp(o.sp2, a, b)
  }

  // ---- Tiebreak ----

  predicate TiebreakWon(a: nat, b: nat) {
    a >= 7 && a - b >= 2
  }

  predicate TiebreakLive(a: nat, b: nat) {
    !TiebreakWon(a, b) && !TiebreakWon(b, a)
  }

  /** The chance that the event of weight x comes before the event of weight y; one half when
      neither can happen. */
  function FirstOf(x: real, y: real): real {
    if x + y > 0.0 then x / (x + y) else 0.5
  }

  /** Player one wins two points in a row before player two does, each serving once per pair. */
  function TiebreakDeuce(sp1: real, sp2: real): real {
    FirstOf(sp1 * (1.0 - sp2), (1.0 - sp1) * sp2)
  }

  /** Server of the point played after i points of a tiebreak: one point, then two each. */
  function TiebreakServer(first: Player, i: nat): Player {
    if ((i + 1) / 2) % 2 == 0 then first else first.Other()
  }

  /** Player one wins a single point. */
  function PointP1(o: Odds, server: Player): real {
    if server == P1 then o.sp1 else 1.0 - o.sp2
  }

  function TiebreakRank(a: nat, b: nat): nat {
    if !TiebreakLive(a, b) then 0
    else if a >= 6 && b >= 6 then (if a == b then 0 else 1)
    else 14 - (a + b)
  }

  /** Player one, with a points to b, wins the tiebreak. */
  function TbP1(o: Odds, a: nat, b: nat, first: Player): real
    decreases TiebreakRank(a, b)
  {
    if TiebreakWon(a, b) then 1.0
    else if TiebreakWon(b, a) then 0.0
    else if a >= 6 && b >= 6 && a == b then TiebreakDeuce(o.sp1, o.sp2)
    else
      var pw1 := PointP1(o, TiebreakServer(first, a + b));
      Mix(pw1, TbP1(o, a + 1, b, first), TbP1(o, a, b + 1, first))
  }

  // ---- Set ----

  predicate SetWon(g1: int, g2: int) {
    g1 >= 6 && g1 - g2 >= 2
  }

  /** The game scores on which the set recursion terminates: all but the scores beyond 6-6 that
      are still within one game of each other. */
  predicate SetLegal(g1: int, g2: int) {
    (g1 == 6 && g2 == 6) || SetWon(g1, g2) || SetWon(g2, g1) || g1 <= 5 || g2 <= 5
  }

  function SetRank(g1: int, g2: int): nat {
    if g1 + g2 <= 12 then 12 - (g1 + g2) else 0
  }

  /** Player one wins the set from g1-g2 with the current game at a-b for its server. */
  function SetP1(o: Odds, g1: int, g2: int, server: Player, a: nat, b: nat): real
    requires SetLegal(g1, g2)
    decreases SetRank(g1, g2)
  {
    if SetWon(g1, g2) then 1.0
    else if SetWon(g2, g1) then 0.0
    else if g1 == 6 && g2 == 6 then TbP1(o, 0, 0, server)
    else
      Mix(GameP1(o, server, a, b),
          SetP1(o, g1 + 1, g2, server.Other(), 0, 0),
          SetP1(o, g1, g2 + 1, server.Other(), 0, 0))
  }

  // ---- Match ----

  /** Player one wins the match from the start of a set. */
  function MatchFromSetStart(o: Odds, s1: nat, s2: nat, first: Player): real
    requires s1 <= o.setsToWin && s2 <= o.setsToWin
    decreases 2 * o.setsToWin - s1 - s2
  {
    if s1 == o.setsToWin then 1.0
    else if s2 == o.setsToWin then 0.0
    else
      Mix(SetP1(o, 0, 0, first, 0, 0),
          MatchFromSetStart(o, s1 + 1, s2, first.Other()),
          MatchFromSetStart(o, s1, s2 + 1, first.Other()))
  }

  /** The states the engine prices: while the match is undecided the game score must be legal; once it
      is decided the game score is not looked at. */
  predicate Priceable(o: Odds, s1: nat, s2: nat, g1: int, g2: int) {
    s1 <= o.setsToWin && s2 <= o.setsToWin && (s1 < o.setsToWin && s2 < o.setsToWin ==> SetLegal(g1, g2))
  }

  /** Player one wins the match from a full in-play state. */
  function MatchP1(o: Odds, s1: nat, s2: nat, g1: int, g2: int, server: Player, a: nat, b: nat): real
    requires Priceable(o, s1, s2, g1, g2)
  {
    if s1 == o.setsToWin then 1.0
    else if s2 == o.setsToWin then 0.0
    else
      var nxt := server.Other();
      Mix(SetP1(o, g1, g2, server, a, b),
          MatchFromSetStart(o, s1 + 1, s2, nxt),
          MatchFromSetStart(o, s1, s2 + 1, nxt))
  }

  // ---- When the set recursion comes to an end ----

  /** The call tree of the set recursion at g1-g2 is at most n calls deep. */
  predicate SetReturnsWithin(g1: int, g2: int, n: nat)
    decreases n
  {
    if SetWon(g1, g2) || SetWon(g2, g1) || (g1 == 6 && g2 == 6) then true
    else n > 0 && SetReturnsWithin(g1 + 1, g2, n - 1) && SetReturnsWithin(g1, g2 + 1, n - 1)
  }

  ghost predicate SetReturns(g1: int, g2: int) {
    exists n: nat :: SetReturnsWithin(g1, g2, n)
  }

  lemma {:induction false} SetLegalReturns(g1: int, g2: int)
    requires SetLegal(g1, g2)
    ensures SetReturnsWithin(g1, g2, SetRank(g1, g2))
    decreases SetRank(g1, g2)
  {
    if SetWon(g1, g2) || SetWon(g2, g1) || (g1 == 6 && g2 == 6) {
    } else {
      SetLegalReturns(g1 + 1, g2);
      SetLegalReturns(g1, g2 + 1);
      SetReturnsLater(g1 + 1, g2, SetRank(g1 + 1, g2), SetRank(g1, g2) - 1);
      SetReturnsLater(g1, g2 + 1, SetRank(g1, g2 + 1), SetRank(g1, g2) - 1);
    }
  }

  lemma {:induction false} SetReturnsLater(g1: int, g2: int, n: nat, m: nat)
    requires SetReturnsWithin(g1, g2, n) && n <= m
    ensures SetReturnsWithin(g1, g2, m)
    decreases n
  {
    if SetWon(g1, g2) || SetWon(g2, g1) || (g1 == 6 && g2 == 6) {
    } else {
      SetReturnsLater(g1 + 1, g2, n - 1, m - 1);
      SetReturnsLater(g1, g2 + 1, n - 1, m - 1);
    }
  }

  lemma {:induction false} SetIllegalNeverReturns(g1: int, g2: int, n: nat)
    requires !SetLegal(g1, g2)
    ensures !SetReturnsWithin(g1, g2, n)
    decreases n
  {
    if n == 0 {
    } else {
      if g1 <= g2 {
        SetIllegalNeverReturns(g1 + 1, g2, n - 1);
      } else {
        SetIllegalNeverReturns(g1, g2 + 1, n - 1);
      }
    }
  }

  /** A score is priced in finitely many calls exactly when it is legal; a raw 7-6 is not. */
  lemma SetReturnsIffLegal(g1: int, g2: int)
    ensures SetReturns(g1, g2) <==> SetLegal(g1, g2)
    ensures !SetLegal(7, 6)
  {
    if SetLegal(g1, g2) {
      SetLegalReturns(g1, g2);
    } else {
      forall n: nat
        ensures !SetReturnsWithin(g1, g2, n)
      {
        SetIllegalNeverReturns(g1, g2, n);
      }
    }
  }
}
