/** Play over many points: the price is the expected price at every horizon, and unless every point
    goes to the server or every point goes to the returner it is the probability that player one wins
    the match. */
module Horizon {
  import opened Probability
  import opened Scoring
  import opened OneStep
  import opened LivePlay

  /** Expected price after n more points. */
  ghost function ExpectedPrice(o: Odds, st: Live, n: nat): real
    requires Legal(o, st)
    decreases n
  {
    if n == 0 || st.Over? then Price(o, st)
    else Mix(Chance(o, st), ExpectedPrice(o, Next(o, st, P1), n - 1), ExpectedPrice(o, Next(o, st, P2), n - 1))
  }

  /** The given player has won the match within n more points. */
  ghost function WonBy(o: Odds, st: Live, w: Player, n: nat): real
    requires Legal(o, st)
    decreases n
  {
    if st.Over? then (if st.winner == w then 1.0 else 0.0)
    else if n == 0 then 0.0
    else Mix(Chance(o, st), WonBy(o, Next(o, st, P1), w, n - 1), WonBy(o, Next(o, st, P2), w, n - 1))
  }

  /** The match is still going after n more points. */
  ghost function Undecided(o: Odds, st: Live, n: nat): real
    requires Legal(o, st)
    decreases n
  {
    if st.Over? then 0.0
    else if n == 0 then 1.0
    else Mix(Chance(o, st), Undecided(o, Next(o, st, P1), n - 1), Undecided(o, Next(o, st, P2), n - 1))
  }

  lemma {:induction false} PriceAtEveryHorizon(o: Odds, st: Live, n: nat)
    requires ValidOdds(o) && Legal(o, st)
    ensures ExpectedPrice(o, st, n) == Price(o, st)
    decreases n
  {
    hide Mix;
    hide Price;
    hide Next;
    hide Chance;
    if n > 0 && !st.Over? {
      PriceAtEveryHorizon(o, Next(o, st, P1), n - 1);
      PriceAtEveryHorizon(o, Next(o, st, P2), n - 1);
      PriceIsFair(o, st);
    }
  }

  lemma {:induction false} OutcomesAddUp(o: Odds, st: Live, n: nat)
    requires ValidOdds(o) && Legal(o, st)
    ensures WonBy(o, st, P1, n) + WonBy(o, st, P2, n) + Undecided(o, st, n) == 1.0
    ensures IsProb(WonBy(o, st, P1, n)) && IsProb(WonBy(o, st, P2, n)) && IsProb(Undecided(o, st, n))
    decreases n
  {
    hide Mix;
    hide Next;
    hide Chance;
    if n > 0 && !st.Over? {
      var x, y, p := Next(o, st, P1), Next(o, st, P2), Chance(o, st);
      OutcomesAddUp(o, x, n - 1);
      OutcomesAddUp(o, y, n - 1);
      ChanceIsProb(o, st);
      MixIsProb(p, WonBy(o, x, P1, n - 1), WonBy(o, y, P1, n - 1));
      MixIsProb(p, WonBy(o, x, P2, n - 1), WonBy(o, y, P2, n - 1));
      MixIsProb(p, Undecided(o, x, n - 1), Undecided(o, y, n - 1));
      MixSum(p, WonBy(o, x, P1, n - 1), WonBy(o, y, P1, n - 1), WonBy(o, x, P2, n - 1), WonBy(o, y, P2, n - 1),
             Undecided(o, x, n - 1), Undecided(o, y, n - 1));
    }
  }

  lemma MixSum(p: real, x: real, y: real, x': real, y': real, x'': real, y'': real)
    requires x + x' + x'' == 1.0 && y + y' + y'' == 1.0
    ensures Mix(p, x, y) + Mix(p, x', y') + Mix(p, x'', y'') == 1.0
  {
    assert Mix(p, x, y) + Mix(p, x', y') + Mix(p, x'', y'') == Mix(p, x + x' + x'', y + y' + y'');
  }

  /** However many points are played, the price lies between what player one has already won
      and what player two has left over. */
  lemma {:induction false} PriceBracket(o: Odds, st: Live, n: nat)
    requires ValidOdds(o) && Legal(o, st)
    ensures WonBy(o, st, P1, n) <= Price(o, st) <= WonBy(o, st, P1, n) + Undecided(o, st, n)
    decreases n
  {
    hide Mix;
    hide Price;
    hide Next;
    hide Chance;
    if st.Over? {
      OverPrice(o, st);
    } else if n == 0 {
      PriceIsProb(o, st);
    } else {
      var x, y, p := Next(o, st, P1), Next(o, st, P2), Chance(o, st);
      PriceBracket(o, x, n - 1);
      PriceBracket(o, y, n - 1);
      ChanceIsProb(o, st);
      PriceIsFair(o, st);
      var wx, wy := WonBy(o, x, P1, n - 1), WonBy(o, y, P1, n - 1);
      var ux, uy := Undecided(o, x, n - 1), Undecided(o, y, n - 1);
      MixOutcomes(p, wx, wy, Price(o, x), Price(o, y));
      MixOutcomes(p, Price(o, x), Price(o, y), wx + ux, wy + uy);
      MixAdd(p, wx, wy, ux, uy);
    }
  }

  lemma MixAdd(p: real, x: real, y: real, x': real, y': real)
    ensures Mix(p, x + x', y + y') == Mix(p, x, y) + Mix(p, x', y')
  {
  }

  lemma OverPrice(o: Odds, st: Live)
    requires st.Over?
    ensures Price(o, st) == if st.winner == P1 then 1.0 else 0.0
  {
  }

  lemma PriceIsProb(o: Odds, st: Live)
    requires ValidOdds(o) && Legal(o, st)
    ensures IsProb(Price(o, st))
  {
    hide Mix;
    hide MatchP1;
    hide MatchFromSetStart;
    hide TbP1;
    match st
    case InGame(s1, s2, g1, g2, server, a, b) =>
      MatchP1IsProb(o, s1, s2, g1, g2, server, a, b);
    case InTiebreak(s1, s2, first, a, b) =>
      TbP1IsProb(o, a, b, first);
      MatchFromSetStartIsProb(o, s1 + 1, s2, P1);
      MatchFromSetStartIsProb(o, s1, s2 + 1, P1);
      MixIsProb(TbP1(o, a, b, first), MatchFromSetStart(o, s1 + 1, s2, P1), MatchFromSetStart(o, s1, s2 + 1, P1));
    case Over(_) =>
  }

  // ---- Every match ends, or none can ----

  /** Points player w, on x points, must win in a row against y to reach the target by two. */
  function PointsNeeded(target: nat, x: nat, y: nat): int {
    (if target >= y + 2 then target else y + 2) - x
  }

  /** A bound on the points left if w wins every one of them. */
  function Rank(o: Odds, st: Live, w: Player): int {
    match st
    case Over(_) => 0
    case InGame(s1, s2, g1, g2, server, a, b) =>
      100 * (o.setsToWin - (if w == P1 then s1 else s2) - 1) + 10 * (7 - (if w == P1 then g1 else g2))
      + (if w == server then PointsNeeded(4, a, b) else PointsNeeded(4, b, a))
    case InTiebreak(s1, s2, _, a, b) =>
      100 * (o.setsToWin - (if w == P1 then s1 else s2) - 1)
      + (if w == P1 then PointsNeeded(7, a, b) else PointsNeeded(7, b, a))
  }

  lemma RankBound(o: Odds, st: Live, w: Player)
    requires Legal(o, st) && !st.Over?
    ensures 0 < Rank(o, st, w) <= 100 * o.setsToWin
  {
  }

  lemma RankAfterSet(o: Odds, s1: nat, s2: nat, w: Player, next: Player)
    requires s1 < o.setsToWin && s2 < o.setsToWin
    ensures Rank(o, AfterSet(o, s1, s2, w, next), w) <= 100 * (o.setsToWin - (if w == P1 then s1 else s2) - 1)
  {
  }

  lemma RankAfterGame(o: Odds, s1: nat, s2: nat, g1: nat, g2: nat, w: Player, next: Player)
    requires s1 < o.setsToWin && s2 < o.setsToWin && SetLive(g1, g2)
    ensures var st := if w == P1 then AfterGame(o, s1, s2, g1 + 1, g2, next)
                      else AfterGame(o, s1, s2, g1, g2 + 1, next);
            var sets, games := (if w == P1 then s1 else s2), (if w == P1 then g1 else g2);
            Rank(o, st, w) <= 100 * (o.setsToWin - sets - 1) + 10 * (7 - games)
  {
    RankAfterSet(o, s1, s2, w, next);
  }

  lemma RankFalls(o: Odds, st: Live, w: Player)
    requires Legal(o, st) && !st.Over?
    ensures Rank(o, Next(o, st, w), w) < Rank(o, st, w)
  {
    if st.InGame? {
      RankFallsInGame(o, st, w);
    } else {
      RankFallsInTiebreak(o, st, w);
    }
  }

  lemma RankFallsInGame(o: Odds, st: Live, w: Player)
    requires Legal(o, st) && st.InGame?
    ensures Rank(o, Next(o, st, w), w) < Rank(o, st, w)
  {
    hide AfterGame;
    RankAfterGame(o, st.s1, st.s2, st.g1, st.g2, w, st.server.Other());
  }

  lemma RankFallsInTiebreak(o: Odds, st: Live, w: Player)
    requires Legal(o, st) && st.InTiebreak?
    ensures Rank(o, Next(o, st, w), w) < Rank(o, st, w)
  {
    hide AfterSet;
    RankAfterSet(o, st.s1, st.s2, w, st.first.Other());
  }

  function ChanceOf(o: Odds, st: Live, w: Player): real {
    if w == P1 then Chance(o, st) else 1.0 - Chance(o, st)
  }

  ghost function Pow(c: real, n: nat): real {
    if n == 0 then 1.0 else c * Pow(c, n - 1)
  }

  lemma {:induction false} PowIsProb(c: real, n: nat)
    requires 0.0 < c <= 1.0
    ensures 0.0 < Pow(c, n) <= 1.0
  {
    if n == 0 {
    } else {
      PowIsProb(c, n - 1);
      MixBetween(c, Pow(c, n - 1), 0.0);
    }
  }

  /** If w wins each point with chance at least c, the match is over after k points with chance
      at least c to the k, once k points in a row are enough. */
  lemma {:induction false} FinishesByStreak(o: Odds, st: Live, w: Player, c: real, k: nat)
    requires ValidOdds(o) && Legal(o, st) && 0.0 < c <= 1.0
    requires forall s :: Legal(o, s) && !s.Over? ==> c <= ChanceOf(o, s, w)
    requires Rank(o, st, w) <= k
    ensures Undecided(o, st, k) <= 1.0 - Pow(c, k)
    decreases k
  {
    hide Mix;
    hide Next;
    hide Rank;
    hide Chance;
    PowIsProb(c, k);
    if st.Over? {
    } else {
      RankBound(o, st, w);
      RankFalls(o, st, w);
      var win, lose := Next(o, st, w), Next(o, st, w.Other());
      FinishesByStreak(o, win, w, c, k - 1);
      OutcomesAddUp(o, lose, k - 1);
      ChanceIsProb(o, st);
      PowIsProb(c, k - 1);
      StreakStep(ChanceOf(o, st, w), c, Pow(c, k - 1), Undecided(o, win, k - 1), Undecided(o, lose, k - 1));
      MixFlip(Chance(o, st), Undecided(o, win, k - 1), Undecided(o, lose, k - 1));
    }
  }

  lemma MixFlip(p: real, x: real, y: real)
    ensures Mix(1.0 - p, x, y) == Mix(p, y, x)
  {
  }

  lemma StreakStep(p: real, c: real, d: real, x: real, y: real)
    requires IsProb(p) && c <= p && 0.0 <= d && x <= 1.0 - d && y <= 1.0
    ensures Mix(p, x, y) <= 1.0 - c * d
  {
    MixOutcomes(p, x, y, 1.0 - d, 1.0);
    ProductNonNegative(p - c, d);
    assert Mix(p, 1.0 - d, 1.0) == 1.0 - p * d;
  }

  /** K points decide at least a fraction d of the matches, from wherever they start. */
  ghost predicate Contracts(o: Odds, K: nat, d: real) {
    forall s :: Legal(o, s) ==> Undecided(o, s, K) <= 1.0 - d
  }

  lemma ContractsAt(o: Odds, K: nat, d: real, st: Live)
    requires ValidOdds(o) && IsProb(d) && Contracts(o, K, d) && Legal(o, st)
    ensures Undecided(o, st, K) <= 1.0 - d
  {
    hide Undecided;
    hide Legal;
  }

  /** Every further K points leave at most a fixed fraction 1 - d of the matches undecided. */
  lemma {:induction false} UndecidedDecays(o: Odds, st: Live, n: nat, K: nat, d: real)
    requires ValidOdds(o) && Legal(o, st) && IsProb(d)
    requires Contracts(o, K, d)
    ensures Undecided(o, st, n + K) <= Mix(d, 0.0, Undecided(o, st, n))
    decreases n
  {
    hide Mix;
    hide Next;
    hide Chance;
    hide Contracts;
    hide Legal;
    if st.Over? {
      MixSame(d, 0.0);
    } else if n == 0 {
      ContractsAt(o, K, d, st);
      MixToOne(d);
    } else {
      var x, y, p := Next(o, st, P1), Next(o, st, P2), Chance(o, st);
      UndecidedDecays(o, x, n - 1, K, d);
      UndecidedDecays(o, y, n - 1, K, d);
      ChanceIsProb(o, st);
      var ux, uy := Undecided(o, x, n - 1), Undecided(o, y, n - 1);
      assert n + K - 1 == n - 1 + K;
      MixOutcomes(p, Undecided(o, x, n - 1 + K), Undecided(o, y, n - 1 + K), Mix(d, 0.0, ux), Mix(d, 0.0, uy));
      MixScale(p, d, ux, uy);
    }
  }

  lemma MixToOne(d: real)
    ensures Mix(d, 0.0, 1.0) == 1.0 - d
  {
  }

  lemma MixScale(p: real, d: real, x: real, y: real)
    ensures Mix(p, Mix(d, 0.0, x), Mix(d, 0.0, y)) == Mix(d, 0.0, Mix(p, x, y))
  {
  }

  /** m blocks of K points, and the factor by which they shrink the undecided matches. */
  ghost function Blocks(m: nat, K: nat): nat {
    if m == 0 then 0 else Blocks(m - 1, K) + K
  }

  ghost function Growth(m: nat, d: real): real {
    if m == 0 then 1.0 else Growth(m - 1, d) + d
  }

  lemma {:induction false} GrowthUnbounded(m: nat, d: real)
    requires d > 0.0
    ensures Growth(m, d) > m as real * d
  {
    if m == 0 {
    } else {
      GrowthUnbounded(m - 1, d);
      assert m as real * d == (m - 1) as real * d + d;
    }
  }

  lemma {:induction false} GrowthAtLeastOne(m: nat, d: real)
    requires d > 0.0
    ensures Growth(m, d) >= 1.0
  {
    if m == 0 {
    } else {
      GrowthAtLeastOne(m - 1, d);
    }
  }

  lemma {:induction false} UndecidedVanishes(o: Odds, st: Live, m: nat, K: nat, d: real)
    requires ValidOdds(o) && Legal(o, st) && 0.0 < d <= 1.0
    requires Contracts(o, K, d)
    ensures Undecided(o, st, Blocks(m, K)) * Growth(m, d) <= 1.0
    decreases m
  {
    hide Undecided;
    hide Contracts;
    hide Legal;
    hide Mix;
    OutcomesAddUp(o, st, Blocks(m, K));
    if m == 0 {
    } else {
      UndecidedVanishes(o, st, m - 1, K, d);
      UndecidedDecays(o, st, Blocks(m - 1, K), K, d);
      OutcomesAddUp(o, st, Blocks(m - 1, K));
      GrowthAtLeastOne(m - 1, d);
      DecayStep(Undecided(o, st, Blocks(m - 1, K)), Undecided(o, st, Blocks(m, K)), d, Growth(m - 1, d));
    }
  }

  lemma DecayStep(u: real, u': real, d: real, g: real)
    requires IsProb(d) && 1.0 <= g && 0.0 <= u && u' <= Mix(d, 0.0, u)
    requires u * g <= 1.0
    ensures u' * (g + d) <= 1.0
  {
    ProductNonNegative(g + d, (1.0 - d) * u - u');
    ProductNonNegative(d, g - 1.0 + d);
    ProductNonNegative(u, d * (g - 1.0 + d));
    assert (1.0 - d) * (g + d) == g - d * (g - 1.0 + d);
    calc {
      u' * (g + d);
      <= ((1.0 - d) * u) * (g + d);
      == u * ((1.0 - d) * (g + d));
      == u * g - u * (d * (g - 1.0 + d));
    }
  }

  ghost predicate DecidedWithin(o: Odds, st: Live, eps: real)
    requires Legal(o, st)
  {
    exists n: nat :: Undecided(o, st, n) < eps
  }

  /** Whatever the tolerance, enough points decide the match. */
  ghost predicate Resolves(o: Odds, st: Live)
    requires Legal(o, st)
  {
    forall eps: real :: eps > 0.0 ==> DecidedWithin(o, st, eps)
  }

  /** The serve strengths under which a level tiebreak never ends: every point goes to the server,
      or every point goes to the returner. */
  predicate Stuck(o: Odds) {
    (o.sp1 == 0.0 && o.sp2 == 0.0) || (o.sp1 == 1.0 && o.sp2 == 1.0)
  }

  /** Unless stuck, one of the players has a positive chance on every point. */
  lemma SomeoneCanStreak(o: Odds) returns (w: Player, c: real)
    requires ValidOdds(o) && !Stuck(o)
    ensures 0.0 < c <= 1.0
    ensures forall st :: Legal(o, st) && !st.Over? ==> c <= ChanceOf(o, st, w)
  {
    if o.sp1 > 0.0 && o.sp2 < 1.0 {
      w, c := P1, if o.sp1 <= 1.0 - o.sp2 then o.sp1 else 1.0 - o.sp2;
    } else {
      w, c := P2, if o.sp2 <= 1.0 - o.sp1 then o.sp2 else 1.0 - o.sp1;
    }
  }

  lemma EveryStateFinishes(o: Odds, w: Player, c: real)
    requires ValidOdds(o) && 0.0 < c <= 1.0
    requires forall st :: Legal(o, st) && !st.Over? ==> c <= ChanceOf(o, st, w)
    ensures Contracts(o, 100 * o.setsToWin, Pow(c, 100 * o.setsToWin))
  {
    hide Undecided;
    hide Legal;
    hide ChanceOf;
    var K := 100 * o.setsToWin;
    forall st | Legal(o, st)
      ensures Undecided(o, st, K) <= 1.0 - Pow(c, K)
    {
      if !st.Over? {
        RankBound(o, st, w);
      }
      FinishesByStreak(o, st, w, c, K);
    }
  }

  lemma ContractionDecides(o: Odds, st: Live, K: nat, d: real, eps: real)
    requires ValidOdds(o) && Legal(o, st) && 0.0 < d <= 1.0 && Contracts(o, K, d) && eps > 0.0
    ensures DecidedWithin(o, st, eps)
  {
    hide Undecided;
    hide Legal;
    hide Contracts;
    var m := Enough(1.0 / eps, d);
    UndecidedVanishes(o, st, m, K, d);
    Smaller(Undecided(o, st, Blocks(m, K)), eps, Growth(m, d));
  }

  lemma NotStuckResolves(o: Odds, st: Live)
    requires ValidOdds(o) && Legal(o, st) && !Stuck(o)
    ensures Resolves(o, st)
  {
    hide DecidedWithin;
    hide Legal;
    hide ChanceOf;
    hide Pow;
    hide Contracts;
    var w, c := SomeoneCanStreak(o);
    var K := 100 * o.setsToWin;
    PowIsProb(c, K);
    EveryStateFinishes(o, w, c);
    forall eps: real | eps > 0.0
      ensures DecidedWithin(o, st, eps)
    {
      ContractionDecides(o, st, K, Pow(c, K), eps);
    }
  }

  lemma Enough(bound: real, d: real) returns (m: nat)
    requires d > 0.0 && bound > 0.0
    ensures Growth(m, d) > bound
  {
    var r := bound / d;
    m := r.Floor + 1;
    GrowthUnbounded(m, d);
    assert (m as real - r) * d > 0.0;
  }

  lemma Smaller(u: real, eps: real, k: real)
    requires eps > 0.0 && u * k <= 1.0 && k > 1.0 / eps
    ensures u < eps
  {
    var r := 1.0 / eps;
    assert r > 0.0 && r * eps == 1.0;
    var ek, uk := eps * k, u * k;
    Expand(k, r, eps);
    assert ek > 1.0;
    if u >= eps {
      Expand(u, eps, k);
      ProductNonNegative(u - eps, k);
      assert false;
    }
  }

  lemma Expand(x: real, y: real, k: real)
    ensures (x - y) * k == x * k - y * k
    ensures x > y && k > 0.0 ==> (x - y) * k > 0.0
  {
  }

  // ---- The price is the win probability ----

  ghost predicate Approached(o: Odds, st: Live, eps: real)
    requires Legal(o, st)
  {
    exists n: nat :: Price(o, st) - eps < WonBy(o, st, P1, n)
  }

  /** The chance that player one has won comes as close to the price as one likes. */
  ghost predicate Exact(o: Odds, st: Live)
    requires Legal(o, st)
  {
    forall eps: real :: eps > 0.0 ==> Approached(o, st, eps)
  }

  lemma ResolvesExact(o: Odds, st: Live)
    requires ValidOdds(o) && Legal(o, st) && Resolves(o, st)
    ensures Exact(o, st)
  {
    hide Price;
    hide WonBy;
    hide Undecided;
    forall eps: real | eps > 0.0
      ensures Approached(o, st, eps)
    {
      assert DecidedWithin(o, st, eps);
      var n :| Undecided(o, st, n) < eps;
      PriceBracket(o, st, n);
      assert Price(o, st) - eps < WonBy(o, st, P1, n);
    }
  }

  /** From every legal state the engine's price is the limit of the chance that player one has
      won, unless the strengths are stuck. */
  lemma PriceIsWinProbability(o: Odds, st: Live, eps: real) returns (n: nat)
    requires ValidOdds(o) && Legal(o, st) && !Stuck(o) && eps > 0.0
    ensures forall m: nat :: m >= n ==> Price(o, st) - eps < WonBy(o, st, P1, m) <= Price(o, st)
  {
    NotStuckResolves(o, st);
    assert DecidedWithin(o, st, eps);
    n :| Undecided(o, st, n) < eps;
    forall m: nat | m >= n
      ensures Price(o, st) - eps < WonBy(o, st, P1, m) <= Price(o, st)
    {
      PriceBracket(o, st, m);
      UndecidedFalls(o, st, n, m);
    }
  }

  lemma {:induction false} UndecidedFalls(o: Odds, st: Live, n: nat, m: nat)
    requires ValidOdds(o) && Legal(o, st) && n <= m
    ensures Undecided(o, st, m) <= Undecided(o, st, n)
    decreases n
  {
    hide Mix;
    hide Next;
    hide Chance;
    if n == 0 || st.Over? {
      OutcomesAddUp(o, st, m);
    } else {
      var x, y := Next(o, st, P1), Next(o, st, P2);
      UndecidedFalls(o, x, n - 1, m - 1);
      UndecidedFalls(o, y, n - 1, m - 1);
      ChanceIsProb(o, st);
      MixOutcomes(Chance(o, st), Undecided(o, x, m - 1), Undecided(o, y, m - 1),
                  Undecided(o, x, n - 1), Undecided(o, y, n - 1));
    }
  }
}
