/** The quote at six games all against the running tiebreak score. With uncertain serves every point of a
    tiebreak strictly moves its value, so the quote, which never moves, is wrong almost everywhere. */
module SixAll {
  import opened Probability
  import opened Scoring
  import opened OneStep
  import opened PlayerSwap
  import opened FirstServer
  import opened LivePlay
  import opened Interior
  import Monotone

  // ---- Strict order of tiebreak scores ----

  lemma MixChanceStrict(p: real, p': real, x: real, y: real)
    requires p < p' && y < x
    ensures Mix(p, x, y) < Mix(p', x, y)
  {
    hide Mix;
    ProductPositive(p' - p, x - y);
    MixDifference(p, p', x, y);
  }

  lemma MixDifference(p: real, p': real, x: real, y: real)
    ensures Mix(p', x, y) - Mix(p, x, y) == (p' - p) * (x - y)
  {
  }

  lemma MixStrictlyBetween(p: real, x: real, y: real)
    requires 0.0 < p < 1.0 && y < x
    ensures y < Mix(p, x, y) < x
  {
    hide Mix;
    MixChanceStrict(0.0, p, x, y);
    MixChanceStrict(p, 1.0, x, y);
    MixEnds(x, y);
  }

  lemma SwapUncertain(o: Odds)
    requires Uncertain(o)
    ensures Uncertain(Swap(o))
  {
  }

  lemma TbBelowOne(o: Odds, a: nat, b: nat, first: Player)
    requires Uncertain(o) && !TiebreakWon(a, b)
    ensures TbP1(o, a, b, first) < 1.0
  {
    hide TbP1;
    SwapUncertain(o);
    TbPositive(Swap(o), b, a, first.Other());
    TiebreakSwap(o, a, b, first);
  }

  /** The value after winning the next point strictly exceeds the value after losing it. */
  lemma {:induction false} TiebreakPointStrict(o: Odds, a: nat, b: nat, first: Player)
    requires Uncertain(o) && TiebreakLive(a, b)
    ensures TbP1(o, a, b + 1, first) < TbP1(o, a + 1, b, first)
    decreases TiebreakRank(a, b)
  {
    hide Mix;
    hide TbP1;
    if TiebreakWon(a + 1, b) {
      Monotone.TiebreakOver(o, a + 1, b, first);
      TbBelowOne(o, a, b + 1, first);
    } else if TiebreakWon(b + 1, a) {
      Monotone.TiebreakOver(o, a, b + 1, first);
      TbPositive(o, a + 1, b, first);
    } else {
      var p := PointP1(o, TiebreakServer(first, a + b + 1));
      TiebreakOneStep(o, a + 1, b, first);
      TiebreakOneStep(o, a, b + 1, first);
      assert a + 1 + b == a + b + 1 && a + (b + 1) == a + b + 1;
      TiebreakPairStrict(o, a, b, first);
      MixStrict(p, TbP1(o, a + 1, b + 1, first), TbP1(o, a, b + 2, first), TbP1(o, a + 2, b, first),
                TbP1(o, a + 1, b + 1, first));
    }
  }

  lemma {:induction false} TiebreakPairStrict(o: Odds, a: nat, b: nat, first: Player)
    requires Uncertain(o) && TiebreakLive(a, b) && TiebreakLive(a + 1, b) && TiebreakLive(a, b + 1)
    ensures TbP1(o, a, b + 2, first) < TbP1(o, a + 1, b + 1, first) < TbP1(o, a + 2, b, first)
    decreases TiebreakRank(a, b), 0
  {
    hide TbP1;
    if a == b && a >= 6 {
      Monotone.TiebreakOver(o, a + 2, b, first);
      Monotone.TiebreakOver(o, a, b + 2, first);
      TbPositive(o, a + 1, b + 1, first);
      TbBelowOne(o, a + 1, b + 1, first);
    } else {
      TiebreakPointStrict(o, a + 1, b, first);
      TiebreakPointStrict(o, a, b + 1, first);
    }
  }

  /** Every point of a live tiebreak strictly raises or strictly lowers its value. */
  lemma TiebreakPointMoves(o: Odds, a: nat, b: nat, first: Player)
    requires Uncertain(o) && TiebreakLive(a, b)
    ensures TbP1(o, a, b + 1, first) < TbP1(o, a, b, first) < TbP1(o, a + 1, b, first)
  {
    hide Mix;
    hide TbP1;
    TiebreakPointStrict(o, a, b, first);
    TiebreakOneStep(o, a, b, first);
    MixStrictlyBetween(PointP1(o, TiebreakServer(first, a + b)), TbP1(o, a + 1, b, first), TbP1(o, a, b + 1, first));
  }

  /** More points against as many are worth strictly more. */
  lemma {:induction false} TiebreakMorePoints(o: Odds, a: nat, a': nat, b: nat, first: Player)
    requires Uncertain(o) && a < a' && TiebreakLive(a', b) && !TiebreakWon(b, a)
    ensures TbP1(o, a, b, first) < TbP1(o, a', b, first)
    decreases a' - a
  {
    hide TbP1;
    TiebreakPointMoves(o, a, b, first);
    if a + 1 < a' {
      TiebreakMorePoints(o, a + 1, a', b, first);
    }
  }

  lemma {:induction false} TiebreakMoreAgainst(o: Odds, a: nat, b: nat, b': nat, first: Player)
    requires Uncertain(o) && b < b' && TiebreakLive(a, b') && !TiebreakWon(a, b)
    ensures TbP1(o, a, b', first) < TbP1(o, a, b, first)
    decreases b' - b
  {
    hide TbP1;
    TiebreakPointMoves(o, a, b, first);
    if b + 1 < b' {
      TiebreakMoreAgainst(o, a, b + 1, b', first);
    }
  }

  // ---- Level scores between equal players ----

  /** Between equal players a level tiebreak is even, whoever serves. */
  lemma LevelIsEven(o: Odds, a: nat, first: Player)
    requires ValidOdds(o) && o.sp1 == o.sp2
    ensures TbP1(o, a, a, first) == 0.5
  {
    hide TbP1;
    assert Swap(o) == o;
    TiebreakSwap(o, a, a, first);
    TiebreakFirstServer(o, a, a);
  }

  lemma LeaderIsAhead(o: Odds, a: nat, b: nat, first: Player)
    requires Uncertain(o) && o.sp1 == o.sp2 && TiebreakLive(a, b)
    ensures TbP1(o, a, b, first) > 0.5 <==> a > b
    ensures TbP1(o, a, b, first) < 0.5 <==> a < b
  {
    hide TbP1;
    LevelIsEven(o, a, first);
    LevelIsEven(o, b, first);
    if a > b {
      TiebreakMorePoints(o, b, a, b, first);
    } else if a < b {
      TiebreakMoreAgainst(o, a, a, b, first);
    }
  }

  // ---- The quote ----

  /** The quote compares with the price of the running score as the tiebreak's first point compares
      with the running score. */
  lemma QuoteComparison(o: Odds, s1: nat, s2: nat, first: Player, a: nat, b: nat, server: Player, pa: nat, pb: nat)
    requires Uncertain(o) && s1 < o.setsToWin && s2 < o.setsToWin && TiebreakLive(a, b)
    ensures var quote, price := MatchP1(o, s1, s2, 6, 6, server, pa, pb), Price(o, InTiebreak(s1, s2, first, a, b));
            && (quote < price <==> TbP1(o, 0, 0, first) < TbP1(o, a, b, first))
            && (quote == price <==> TbP1(o, 0, 0, first) == TbP1(o, a, b, first))
  {
    hide Mix;
    hide MatchP1;
    hide TbP1;
    hide MatchFromSetStart;
    NextSetServerIrrelevant(o, s1, s2, 6, 6, server, pa, pb, P1, P1);
    TiebreakFirstServer(o, 0, 0);
    EverySetMatters(o, s1, s2, P1);
    SixAllSet(o, server, pa, pb);
    var x, y := MatchFromSetStart(o, s1 + 1, s2, P1), MatchFromSetStart(o, s1, s2 + 1, P1);
    var t, t' := TbP1(o, 0, 0, first), TbP1(o, a, b, first);
    if t < t' {
      MixChanceStrict(t, t', x, y);
    } else if t' < t {
      MixChanceStrict(t', t, x, y);
    }
  }

  lemma SixAllSet(o: Odds, server: Player, pa: nat, pb: nat)
    ensures SetP1(o, 6, 6, server, pa, pb) == TbP1(o, 0, 0, server)
  {
    hide TbP1;
  }

  /** Between equal players the quote is right exactly at level scores; whoever leads is quoted too low. */
  lemma SixAllEqualPlayers(o: Odds, s1: nat, s2: nat, first: Player, a: nat, b: nat, server: Player, pa: nat, pb: nat)
    requires Uncertain(o) && o.sp1 == o.sp2 && s1 < o.setsToWin && s2 < o.setsToWin && TiebreakLive(a, b)
    ensures var quote, price := MatchP1(o, s1, s2, 6, 6, server, pa, pb), Price(o, InTiebreak(s1, s2, first, a, b));
            (quote == price <==> a == b) && (quote < price <==> a > b)
  {
    hide MatchP1;
    hide Price;
    hide TbP1;
    QuoteComparison(o, s1, s2, first, a, b, server, pa, pb);
    LevelIsEven(o, 0, first);
    LeaderIsAhead(o, a, b, first);
  }

  /** Whatever the strengths, a lead to love is quoted too low and a deficit to love too high. */
  lemma LeadToLoveMisquoted(o: Odds, s1: nat, s2: nat, first: Player, n: nat, server: Player, pa: nat, pb: nat)
    requires Uncertain(o) && s1 < o.setsToWin && s2 < o.setsToWin && 0 < n <= 6
    ensures MatchP1(o, s1, s2, 6, 6, server, pa, pb) < Price(o, InTiebreak(s1, s2, first, n, 0))
    ensures Price(o, InTiebreak(s1, s2, first, 0, n)) < MatchP1(o, s1, s2, 6, 6, server, pa, pb)
  {
    hide MatchP1;
    hide Price;
    hide TbP1;
    TiebreakMorePoints(o, 0, n, 0, first);
    TiebreakMoreAgainst(o, 0, 0, n, first);
    QuoteComparison(o, s1, s2, first, n, 0, server, pa, pb);
    QuoteComparison(o, s1, s2, first, 0, n, server, pa, pb);
  }

  /** Whatever the strengths, for each number of points against there is at most one number of points
      for at which the quote is right; at love that is love. */
  lemma SixAllExactAtMostOnce(o: Odds, s1: nat, s2: nat, first: Player, a: nat, a': nat, b: nat, server: Player,
                              pa: nat, pb: nat)
    requires Uncertain(o) && s1 < o.setsToWin && s2 < o.setsToWin && TiebreakLive(a, b) && TiebreakLive(a', b)
    requires MatchP1(o, s1, s2, 6, 6, server, pa, pb) == Price(o, InTiebreak(s1, s2, first, a, b))
    requires MatchP1(o, s1, s2, 6, 6, server, pa, pb) == Price(o, InTiebreak(s1, s2, first, a', b))
    ensures a == a' && (b == 0 ==> a == 0) && (a == 0 ==> b == 0)
  {
    hide MatchP1;
    hide Price;
    hide TbP1;
    QuoteComparison(o, s1, s2, first, a, b, server, pa, pb);
    QuoteComparison(o, s1, s2, first, a', b, server, pa, pb);
    if a < a' {
      TiebreakMorePoints(o, a, a', b, first);
    } else if a' < a {
      TiebreakMorePoints(o, a', a, b, first);
    }
    if b == 0 && a > 0 {
      TiebreakMorePoints(o, 0, a, 0, first);
    }
    if a == 0 && b > 0 {
      TiebreakMoreAgainst(o, 0, 0, b, first);
    }
  }
}
