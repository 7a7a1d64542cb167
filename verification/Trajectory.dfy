/** Walking a recorded match: the price at every point, from serve probabilities that are updated
    by the points played so far. */
module Trajectory {
  import opened Probability
  import opened Scoring
  import opened InPlayEngine
  import opened Options
  import Monotone
  import OneStep

  /** One line of the point-by-point file. A line whose numeric fields do not parse is Unreadable.
      The scores are the raw strings; a missing score reads as "0". */
  datatype Row =
    | Unreadable
    | Row(setNo: int, g1: int, g2: int, server: int, winner: string, score1: string, score2: string)

  /** Fixed serves, or prior means with a strength; without a strength only the means can be used. */
  datatype Prior =
    | Fixed(sp1: real, sp2: real)
    | Bayes(kappa: real, mu1: real, mu2: real)
    | NoStrength(mu1: real, mu2: real)

  datatype Config = Config(bestOf: nat, prior: Prior, round3: real -> real)

  /** Loop state: sets won, the set being played, its last game score, serve points won and
      played by each player, whether the loop has ended, whether by an error, and the prices so far. */
  datatype State = State(sets1: nat, sets2: nat, curSet: Option<int>, last1: int, last2: int,
                         w1: nat, n1: nat, w2: nat, n2: nat, done: bool, raised: bool, out: seq<real>)

  const INITIAL := State(0, 0, None, 0, 0, 0, 0, 0, 0, false, false, [])

  function Points(score: string): nat {
    if score == "15" then 1
    else if score == "30" then 2
    else if score == "40" then 3
    else if score == "AD" then 4
    else 0
  }

  function ClampSp(x: real): real {
    if x < 0.5 then 0.5 else if x > 0.85 then 0.85 else x
  }

  /** The winner of a set that ended at g1-g2, if it did end there. */
  function WinnerOfSet(g1: int, g2: int): int {
    if (g1 >= 6 || g2 >= 6) && (g1 - g2 >= 2 || g2 - g1 >= 2) then (if g1 > g2 then 1 else 2)
    else if g1 == 7 || g2 == 7 then (if g1 > g2 then 1 else 2)
    else 0
  }

  /** Posterior mean of a serve probability after w points won of n played. */
  function Posterior(kappa: real, mu: real, w: nat, n: nat): real
    requires n > 0 ==> kappa + n as real != 0.0
  {
    if n == 0 then mu else ClampSp((mu * kappa + w as real) / (kappa + n as real))
  }

  /** The posterior divides by the prior strength plus the points played. The source raises when that is
      zero, and when a point has been served and there is no strength. */
  predicate Computes(p: Prior, n1: nat, n2: nat) {
    match p
    case Fixed(_, _) => true
    case Bayes(kappa, _, _) => (n1 > 0 ==> kappa + n1 as real != 0.0) && (n2 > 0 ==> kappa + n2 as real != 0.0)
    case NoStrength(_, _) => n1 == 0 && n2 == 0
  }

  function ServeProbs(p: Prior, w1: nat, n1: nat, w2: nat, n2: nat): (real, real)
    requires Computes(p, n1, n2)
  {
    match p
    case Fixed(sp1, sp2) => (sp1, sp2)
    case Bayes(kappa, mu1, mu2) => (Posterior(kappa, mu1, w1, n1), Posterior(kappa, mu2, w2, n2))
    case NoStrength(mu1, mu2) => (mu1, mu2)
  }

  predicate Playable(r: Row) {
    r.Row? && (r.server == 1 || r.server == 2) && (r.winner == "1" || r.winner == "2")
  }

  /** Count the set that ended when the set number changes. */
  function Roll(st: State, r: Row): State
    requires r.Row?
  {
    var won := if st.curSet.Some? && st.curSet.value != r.setNo then WinnerOfSet(st.last1, st.last2) else 0;
    st.(sets1 := if won == 1 then st.sets1 + 1 else st.sets1,
        sets2 := if won == 2 then st.sets2 + 1 else st.sets2,
        curSet := Some(r.setNo), last1 := r.g1, last2 := r.g2)
  }

  /** The price of the point about to be played, or nothing when the engine cannot price the score
      (its recursion does not return and the error is suppressed). */
  function Quoted(c: Config, sp: (real, real), sets1: nat, sets2: nat, r: Row): (q: seq<real>)
    requires Playable(r) && sets1 < c.bestOf / 2 + 1 && sets2 < c.bestOf / 2 + 1
  {
    var server := if r.server == 1 then P1 else P2;
    var a, b := Points(r.score1), Points(r.score2);
    if SetLegal(r.g1, r.g2) then
      [MatchP1(Odds(c.round3(sp.0), c.round3(sp.1), c.bestOf / 2 + 1), sets1, sets2, r.g1, r.g2, server,
               if server == P1 then a else b, if server == P1 then b else a)]
    else []
  }

  function Tally(st: State, r: Row): State
    requires Playable(r)
  {
    if r.server == 1 then st.(n1 := st.n1 + 1, w1 := st.w1 + (if r.winner == "1" then 1 else 0))
    else st.(n2 := st.n2 + 1, w2 := st.w2 + (if r.winner == "2" then 1 else 0))
  }

  /** One iteration of the walk. */
  function Step(c: Config, st: State, r: Row): State {
    if st.done || !Playable(r) then st
    else
      var rolled := Roll(st, r);
      if rolled.sets1 >= c.bestOf / 2 + 1 || rolled.sets2 >= c.bestOf / 2 + 1 then rolled.(done := true)
      else if !Computes(c.prior, st.n1, st.n2) then rolled.(done := true, raised := true)
      else
        var sp := ServeProbs(c.prior, st.w1, st.n1, st.w2, st.n2);
        Tally(rolled.(out := st.out + Quoted(c, sp, rolled.sets1, rolled.sets2, r)), r)
  }

  function Run(c: Config, rows: seq<Row>): State {
    if rows == [] then INITIAL else Step(c, Run(c, rows[..|rows| - 1]), rows[|rows| - 1])
  }

  /** The list of prices of a match. */
  function Prices(c: Config, rows: seq<Row>): seq<real> {
    Run(c, rows).out
  }

  // ---- The loop ----

  method QuoteRow(c: Config, sp: (real, real), sets1: nat, sets2: nat, r: Row, cache: EngineCache)
    returns (q: seq<real>)
    requires Playable(r) && sets1 < c.bestOf / 2 + 1 && sets2 < c.bestOf / 2 + 1
    requires cache.Valid() && cache.round3 == c.round3
    modifies cache, cache.engines.Values
    ensures cache.Valid() && forall e :: e in cache.engines.Values ==> e in old(cache.engines.Values) || fresh(e)
    ensures q == Quoted(c, sp, sets1, sets2, r)
  {
    hide MatchP1;
    hide SetLegal;
    hide Points;
    var a, b := Points(r.score1), Points(r.score2);
    q := [];
    if SetLegal(r.g1, r.g2) {
      var v := cache.Quote(sp.0, sp.1, c.bestOf, sets1, sets2, r.g1, r.g2, if r.server == 1 then P1 else P2,
                           if r.server == 1 then a else b, if r.server == 1 then b else a);
      q := [v];
    }
  }

  method MatchTrajectory(c: Config, rows: seq<Row>, cache: EngineCache) returns (raised: bool, out: seq<real>)
    requires cache.Valid() && cache.round3 == c.round3
    modifies cache, cache.engines.Values
    ensures cache.Valid() && out == Prices(c, rows) && raised == Run(c, rows).raised
  {
    hide Quoted;
    hide ServeProbs;
    hide Computes;
    hide WinnerOfSet;
    hide Run;
    RunStart(c);
    var stw := c.bestOf / 2 + 1;
    raised, out := false, [];
    var sets1, sets2, curSet, last1, last2 := 0, 0, None, 0, 0;
    var w1, n1, w2, n2 := 0, 0, 0, 0;
    for i := 0 to |rows|
      invariant cache.Valid()
      invariant forall e :: e in cache.engines.Values ==> e in old(cache.engines.Values) || fresh(e)
      invariant Run(c, rows[..i]) == State(sets1, sets2, curSet, last1, last2, w1, n1, w2, n2, false, false, out)
    {
      var r := rows[i];
      RunStep(c, rows, i);
      if !Playable(r) {
        continue;
      }
      if curSet == None {
        curSet := Some(r.setNo);
      }
      if Some(r.setNo) != curSet {
        var wset := WinnerOfSet(last1, last2);
        if wset == 1 {
          sets1 := sets1 + 1;
        } else if wset == 2 {
          sets2 := sets2 + 1;
        }
        curSet := Some(r.setNo);
      }
      last1, last2 := r.g1, r.g2;
      if sets1 >= stw || sets2 >= stw {
        assert Run(c, rows[..i + 1]).done && Run(c, rows[..i + 1]).out == out;
        DoneStays(c, rows, i + 1);
        return;
      }
      if !Computes(c.prior, n1, n2) {
        assert Run(c, rows[..i + 1]).done && Run(c, rows[..i + 1]).raised && Run(c, rows[..i + 1]).out == out;
        DoneStays(c, rows, i + 1);
        return true, out;
      }
      var sp := ServeProbs(c.prior, w1, n1, w2, n2);
      var q := QuoteRow(c, sp, sets1, sets2, r, cache);
      out := out + q;
      if r.server == 1 {
        n1, w1 := n1 + 1, w1 + (if r.winner == "1" then 1 else 0);
      } else {
        n2, w2 := n2 + 1, w2 + (if r.winner == "2" then 1 else 0);
      }
    }
    assert rows[..|rows|] == rows;
  }

  lemma RunStart(c: Config)
    ensures Run(c, []) == INITIAL
  {
  }

  lemma RunStep(c: Config, rows: seq<Row>, i: nat)
    requires i < |rows|
    ensures Run(c, rows[..i + 1]) == Step(c, Run(c, rows[..i]), rows[i])
  {
    assert rows[..i + 1][..i] == rows[..i];
  }

  lemma {:induction false} DoneStays(c: Config, rows: seq<Row>, k: nat)
    requires k <= |rows| && Run(c, rows[..k]).done
    ensures Run(c, rows) == Run(c, rows[..k])
  {
    if k == |rows| {
      assert rows[..k] == rows;
    } else {
      var init := rows[..|rows| - 1];
      assert init[..k] == rows[..k];
      DoneStays(c, init, k);
    }
  }

  // ---- Causality ----

  /** The prices of any prefix of the rows are a prefix of the prices of all the rows. */
  lemma {:induction false} PricesAreCausal(c: Config, rows: seq<Row>, k: nat)
    requires k <= |rows|
    ensures Prices(c, rows[..k]) <= Prices(c, rows)
  {
    hide Quoted;
    if k == |rows| {
      assert rows[..k] == rows;
    } else {
      var init := rows[..|rows| - 1];
      assert init[..k] == rows[..k];
      PricesAreCausal(c, init, k);
    }
  }

  /** Serve points played by a player in rows, and those of them won by the server. */
  function Served(rows: seq<Row>, player: int): nat {
    if rows == [] then 0
    else
      var r := rows[|rows| - 1];
      Served(rows[..|rows| - 1], player) + (if Playable(r) && r.server == player then 1 else 0)
  }

  function Held(rows: seq<Row>, player: int): nat {
    if rows == [] then 0
    else
      var r := rows[|rows| - 1];
      Held(rows[..|rows| - 1], player)
      + (if Playable(r) && r.server == player && r.winner == (if player == 1 then "1" else "2") then 1 else 0)
  }

  lemma {:induction false} TalliesCount(c: Config, rows: seq<Row>)
    requires !Run(c, rows).done
    ensures var st := Run(c, rows);
            && st.n1 == Served(rows, 1) && st.w1 == Held(rows, 1)
            && st.n2 == Served(rows, 2) && st.w2 == Held(rows, 2)
  {
    hide Quoted;
    if rows == [] {
    } else {
      TalliesCount(c, rows[..|rows| - 1]);
    }
  }

  /** The price quoted at row k uses the serve counts of the rows strictly before it, and who wins
      row k itself makes no difference to it. */
  lemma QuoteUsesStrictPast(c: Config, past: seq<Row>, r: Row, winner: string)
    requires Playable(r) && (winner == "1" || winner == "2")
    ensures Prices(c, past + [r]) == Prices(c, past + [r.(winner := winner)])
    ensures var st := Run(c, past + [r]);
            !st.done ==>
              && st.sets1 < c.bestOf / 2 + 1 && st.sets2 < c.bestOf / 2 + 1
              && Computes(c.prior, Served(past, 1), Served(past, 2))
              && var sp := ServeProbs(c.prior, Held(past, 1), Served(past, 1), Held(past, 2), Served(past, 2));
                 Prices(c, past + [r]) == Prices(c, past) + Quoted(c, sp, st.sets1, st.sets2, r)
  {
    hide MatchP1;
    hide ServeProbs;
    hide WinnerOfSet;
    var r' := r.(winner := winner);
    assert (past + [r])[..|past|] == past && (past + [r'])[..|past|] == past;
    assert Run(c, past + [r]) == Step(c, Run(c, past), r);
    assert Run(c, past + [r']) == Step(c, Run(c, past), r');
    if !Run(c, past).done {
      TalliesCount(c, past);
    }
  }

  /** A prior that breaks down after n points served by one player. */
  predicate BreaksAt(p: Prior, n: nat) {
    p.NoStrength? || (p.Bayes? && p.kappa + n as real == 0.0)
  }

  /** The walk raises only when the prior breaks down at a number of points served before. */
  lemma {:induction false} RaisesOnlyAtABreak(c: Config, rows: seq<Row>) returns (n: nat)
    requires Run(c, rows).raised
    ensures 0 < n <= |rows| && BreaksAt(c.prior, n)
  {
    hide Quoted;
    hide ServeProbs;
    var past := rows[..|rows| - 1];
    if Run(c, past).raised {
      n := RaisesOnlyAtABreak(c, past);
    } else {
      TalliesCount(c, past);
      ServedBound(past, 1);
      ServedBound(past, 2);
      var n1 := Served(past, 1);
      n := if n1 > 0 && BreaksAt(c.prior, n1) then n1 else Served(past, 2);
    }
  }

  /** A point served and won by player one at love in the first game. */
  const ACE := Row(1, 0, 0, 1, "1", "0", "0")

  function Aces(n: nat): seq<Row> {
    if n == 0 then [] else Aces(n - 1) + [ACE]
  }

  /** In the first set, after n points all served by player one. */
  predicate Serving(st: State, n: nat) {
    !st.done && st.n1 == n && st.n2 == 0 && st.sets1 == 0 && st.sets2 == 0 && (st.curSet.Some? ==> st.curSet.value == 1)
  }

  lemma AceStep(c: Config, st: State, n: nat)
    requires Serving(st, n)
    ensures n > 0 && BreaksAt(c.prior, n) ==> Step(c, st, ACE).raised
    ensures n == 0 || !BreaksAt(c.prior, n) ==> Serving(Step(c, st, ACE), n + 1)
  {
    hide Quoted;
    hide ServeProbs;
    hide WinnerOfSet;
  }

  /** As long as the prior does not break down, aces keep the walk going in its first set. */
  lemma {:induction false} AcesKeepGoing(c: Config, n: nat)
    requires forall m :: 0 < m < n ==> !BreaksAt(c.prior, m)
    ensures Serving(Run(c, Aces(n)), n)
  {
    hide Step;
    hide BreaksAt;
    if n == 0 {
    } else {
      AcesKeepGoing(c, n - 1);
      OneMoreAce(c, n - 1);
      AceStep(c, Run(c, Aces(n - 1)), n - 1);
    }
  }

  lemma OneMoreAce(c: Config, n: nat)
    ensures Run(c, Aces(n + 1)) == Step(c, Run(c, Aces(n)), ACE)
  {
    hide Step;
    assert Aces(n + 1)[..|Aces(n)|] == Aces(n);
  }

  lemma FirstBreak(p: Prior, n: nat) returns (m: nat)
    requires 0 < n && BreaksAt(p, n)
    ensures 0 < m && BreaksAt(p, m) && forall k :: 0 < k < m ==> !BreaksAt(p, k)
  {
    m := if p.NoStrength? then 1 else n;
  }

  /** No match makes the walk raise exactly when the serves are fixed, or there is a strength and it is
      not minus a positive whole number. */
  lemma NeverRaisesIff(c: Config)
    ensures (forall rows :: !Run(c, rows).raised) <==> forall n: nat :: 0 < n ==> !BreaksAt(c.prior, n)
  {
    hide Step;
    hide Run;
    if n: nat :| 0 < n && BreaksAt(c.prior, n) {
      var m := FirstBreak(c.prior, n);
      AcesKeepGoing(c, m);
      OneMoreAce(c, m);
      AceStep(c, Run(c, Aces(m)), m);
      assert Run(c, Aces(m + 1)).raised;
    } else {
      forall rows
        ensures !Run(c, rows).raised
      {
        if Run(c, rows).raised {
          var n := RaisesOnlyAtABreak(c, rows);
          assert false;
        }
      }
    }
  }

  lemma {:induction false} ServedBound(rows: seq<Row>, player: int)
    ensures Served(rows, player) <= |rows|
  {
    if rows == [] {
    } else {
      ServedBound(rows[..|rows| - 1], player);
    }
  }

  /** Every price is a probability, given prior means and rounding that stay within [0, 1]. */
  lemma {:induction false} PricesAreProbabilities(c: Config, rows: seq<Row>, i: nat)
    requires i < |Prices(c, rows)|
    requires forall x :: IsProb(x) ==> IsProb(c.round3(x))
    requires c.prior.Fixed? ==> IsProb(c.prior.sp1) && IsProb(c.prior.sp2)
    requires !c.prior.Fixed? ==> IsProb(c.prior.mu1) && IsProb(c.prior.mu2)
    ensures IsProb(Prices(c, rows)[i])
  {
    hide MatchP1;
    var st := Run(c, rows[..|rows| - 1]);
    if i < |st.out| {
      PricesAreProbabilities(c, rows[..|rows| - 1], i);
    } else {
      var r := rows[|rows| - 1];
      var rolled := Roll(st, r);
      var sp := ServeProbs(c.prior, st.w1, st.n1, st.w2, st.n2);
      var server := if r.server == 1 then P1 else P2;
      var a, b := Points(r.score1), Points(r.score2);
      assert IsProb(sp.0) && IsProb(sp.1);
      var o := Odds(c.round3(sp.0), c.round3(sp.1), c.bestOf / 2 + 1);
      OneStep.MatchP1IsProb(o, rolled.sets1, rolled.sets2, r.g1, r.g2, server,
                            if server == P1 then a else b, if server == P1 then b else a);
    }
  }

  // ---- Evidence ----

  lemma DivideMonotone(x: real, y: real, k: real)
    requires x <= y && 0.0 < k
    ensures x / k <= y / k
  {
  }

  /** More serve points won out of as many played never lowers the posterior, which stays a
      probability. */
  lemma PosteriorMonotone(kappa: real, mu: real, w: nat, w': nat, n: nat)
    requires (n > 0 ==> kappa + n as real > 0.0) && IsProb(mu) && w <= w'
    ensures Posterior(kappa, mu, w, n) <= Posterior(kappa, mu, w', n)
    ensures IsProb(Posterior(kappa, mu, w, n)) && IsProb(Posterior(kappa, mu, w', n))
  {
    if n > 0 {
      DivideMonotone(mu * kappa + w as real, mu * kappa + w' as real, kappa + n as real);
    }
  }

  /** All else equal, had player one held more of the points served so far, or player two fewer, the
      quoted price would be no lower. */
  lemma EvidenceRaisesThePrice(c: Config, sets1: nat, sets2: nat, r: Row, n1: nat, n2: nat,
                               w1: nat, w2: nat, w1': nat, w2': nat)
    requires Playable(r) && sets1 < c.bestOf / 2 + 1 && sets2 < c.bestOf / 2 + 1 && SetLegal(r.g1, r.g2)
    requires c.prior.Bayes? && IsProb(c.prior.mu1) && IsProb(c.prior.mu2)
    requires (n1 > 0 ==> c.prior.kappa + n1 as real > 0.0) && (n2 > 0 ==> c.prior.kappa + n2 as real > 0.0)
    requires forall x :: IsProb(x) ==> IsProb(c.round3(x))
    requires forall x, y :: x <= y ==> c.round3(x) <= c.round3(y)
    requires w1 <= w1' && w2' <= w2
    ensures var q := Quoted(c, ServeProbs(c.prior, w1, n1, w2, n2), sets1, sets2, r);
            var q' := Quoted(c, ServeProbs(c.prior, w1', n1, w2', n2), sets1, sets2, r);
            |q| == |q'| == 1 && q[0] <= q'[0]
  {
    hide MatchP1;
    hide Posterior;
    PosteriorMonotone(c.prior.kappa, c.prior.mu1, w1, w1', n1);
    PosteriorMonotone(c.prior.kappa, c.prior.mu2, w2', w2, n2);
    var sp, sp' := ServeProbs(c.prior, w1, n1, w2, n2), ServeProbs(c.prior, w1', n1, w2', n2);
    var o := Odds(c.round3(sp.0), c.round3(sp.1), c.bestOf / 2 + 1);
    var o' := Odds(c.round3(sp'.0), c.round3(sp'.1), c.bestOf / 2 + 1);
    var server := if r.server == 1 then P1 else P2;
    var a, b := Points(r.score1), Points(r.score2);
    Monotone.MatchMonotone(o, o', sets1, sets2, r.g1, r.g2, server,
                           if server == P1 then a else b, if server == P1 then b else a);
  }

  // ---- The two set-end rules ----

  /** Exactly the scores at which the walk takes a set to be over, and its winner: those the engine
      counts as won, a tiebreak set at 7-6, and by the same rule the scores 7-7, 8-7 and 7-8 that no
      set with a tiebreak reaches. */
  lemma WinnerOfSetExactly(g1: int, g2: int)
    ensures WinnerOfSet(g1, g2) == 1 <==> SetWon(g1, g2) || (g1 == 7 && g2 == 6) || (g1 == 8 && g2 == 7)
    ensures WinnerOfSet(g1, g2) == 2 <==>
      SetWon(g2, g1) || (g1 == 6 && g2 == 7) || (g1 == 7 && g2 == 7) || (g1 == 7 && g2 == 8)
    ensures WinnerOfSet(g1, g2) in {0, 1, 2}
  {
  }

  /** At every score the walk takes to be over and the engine does not, the engine cannot price. */
  lemma OverButUnpriced(g1: int, g2: int)
    requires WinnerOfSet(g1, g2) != 0 && !SetWon(g1, g2) && !SetWon(g2, g1)
    ensures !SetLegal(g1, g2)
  {
  }
}
