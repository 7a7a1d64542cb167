/** What the walk over a recorded match computes, in terms of the rows alone. */
module TrajectoryMeaning {
  import opened Probability
  import opened Scoring
  import opened Options
  import opened Trajectory
  import FirstServer
  import LivePlay
  import Rulebook

  // ---- Rows ----

  /** A row counts exactly when it can be read, names a server and names the winner of the point. */
  lemma PlayableIff(r: Row)
    ensures Playable(r) <==> r.Row? && r.server in {1, 2} && r.winner in {"1", "2"}
  {
  }

  /** The rows that count, in order. */
  function Played(rows: seq<Row>): (ps: seq<Row>)
    ensures forall k :: 0 <= k < |ps| ==> Playable(ps[k])
  {
    if rows == [] then []
    else Played(rows[..|rows| - 1]) + (if Playable(rows[|rows| - 1]) then [rows[|rows| - 1]] else [])
  }

  /** Any other row changes nothing. */
  lemma SkippedRow(c: Config, rows: seq<Row>, r: Row)
    requires !(r.Row? && r.server in {1, 2} && r.winner in {"1", "2"})
    ensures Run(c, rows + [r]) == Run(c, rows)
  {
    assert (rows + [r])[..|rows|] == rows;
  }

  /** The points of a score text. Anything but these four counts as none. */
  lemma ScoreTexts(score: string)
    ensures Points(score) == 1 <==> score == "15"
    ensures Points(score) == 2 <==> score == "30"
    ensures Points(score) == 3 <==> score == "40"
    ensures Points(score) == 4 <==> score == "AD"
    ensures Points(score) <= 4
  {
  }

  // ---- Sets ----

  /** The last score of a finished set gives it to this player. */
  predicate Takes(r: Row, player: int)
    requires r.Row?
  {
    if player == 1 then (r.g1 >= 6 && r.g1 - r.g2 >= 2) || (r.g1 == 7 && r.g2 == 6) || (r.g1 == 8 && r.g2 == 7)
    else (r.g2 >= 6 && r.g2 - r.g1 >= 2) || (r.g2 == 7 && r.g1 in {6, 7}) || (r.g2 == 8 && r.g1 == 7)
  }

  /** The set number changes after the k-th row, whose score gives the set to the player. */
  predicate SetEnds(ps: seq<Row>, player: int, k: int) {
    0 <= k < |ps| - 1 && ps[k].Row? && ps[k + 1].Row? && ps[k].setNo != ps[k + 1].setNo && Takes(ps[k], player)
  }

  ghost function SetsTaken(ps: seq<Row>, player: int): nat {
    |set k | 0 <= k < |ps| && SetEnds(ps, player, k)|
  }

  lemma OneMoreRow(ps: seq<Row>, r: Row, player: int)
    requires r.Row? && forall k :: 0 <= k < |ps| ==> ps[k].Row?
    ensures SetsTaken(ps + [r], player) == SetsTaken(ps, player) +
      (if ps != [] && ps[|ps| - 1].setNo != r.setNo && Takes(ps[|ps| - 1], player) then 1 else 0)
  {
    var longer, n := ps + [r], |ps| - 1;
    var before := set k | 0 <= k < |ps| && SetEnds(ps, player, k);
    var after := set k | 0 <= k < |longer| && SetEnds(longer, player, k);
    forall k
      ensures k in after <==> k in before || (k == n && SetEnds(longer, player, n))
    {
      if 0 <= k < n {
        assert longer[k] == ps[k] && longer[k + 1] == ps[k + 1];
      }
    }
    if SetEnds(longer, player, n) {
      assert longer[n] == ps[n] && longer[n + 1] == r;
      assert after == before + {n};
    } else {
      assert after == before;
    }
  }

  /** The walk remembers the last row that counted. */
  predicate Remembers(st: State, ps: seq<Row>)
    requires forall k :: 0 <= k < |ps| ==> ps[k].Row?
  {
    if ps == [] then st.curSet == None
    else var r := ps[|ps| - 1]; st.curSet == Some(r.setNo) && st.last1 == r.g1 && st.last2 == r.g2
  }

  lemma RollCounts(st: State, ps: seq<Row>, r: Row)
    requires Playable(r) && (forall k :: 0 <= k < |ps| ==> ps[k].Row?) && Remembers(st, ps)
    requires st.sets1 == SetsTaken(ps, 1) && st.sets2 == SetsTaken(ps, 2)
    ensures Roll(st, r).sets1 == SetsTaken(ps + [r], 1) && Roll(st, r).sets2 == SetsTaken(ps + [r], 2)
    ensures Remembers(Roll(st, r), ps + [r])
  {
    hide SetsTaken;
    OneMoreRow(ps, r, 1);
    OneMoreRow(ps, r, 2);
  }

  /** While the walk goes on, the sets of a player are the set changes between rows that count whose earlier
      row shows a score that gives the set to that player. */
  lemma {:induction false} SetsAreCounted(c: Config, rows: seq<Row>)
    requires !Run(c, rows).done
    ensures Run(c, rows).sets1 == SetsTaken(Played(rows), 1) && Run(c, rows).sets2 == SetsTaken(Played(rows), 2)
    ensures Remembers(Run(c, rows), Played(rows))
  {
    hide SetsTaken;
    hide Step;
    hide Remembers;
    if rows == [] {
      NoRowsNoSets();
      NothingRemembered();
    } else {
      var init, r := rows[..|rows| - 1], rows[|rows| - 1];
      StepKeepsSets(c, Run(c, init), Played(init), r);
      SetsAreCounted(c, init);
      assert Played(init) + [] == Played(init);
    }
  }

  /** Done stays done, and a row that counts rolls the sets. */
  lemma StepKeepsSets(c: Config, st: State, ps: seq<Row>, r: Row)
    requires forall k :: 0 <= k < |ps| ==> ps[k].Row?
    ensures !Step(c, st, r).done ==> !st.done
    ensures !Step(c, st, r).done && Counted(st, ps) ==>
      Counted(Step(c, st, r), if Playable(r) then ps + [r] else ps)
  {
    hide Quoted;
    hide ServeProbs;
    hide Computes;
    hide SetsTaken;
    hide WinnerOfSet;
    if Playable(r) && Counted(st, ps) {
      RollCounts(st, ps, r);
    }
  }

  ghost predicate Counted(st: State, ps: seq<Row>)
    requires forall k :: 0 <= k < |ps| ==> ps[k].Row?
  {
    st.sets1 == SetsTaken(ps, 1) && st.sets2 == SetsTaken(ps, 2) && Remembers(st, ps)
  }

  lemma NothingRemembered()
    ensures Remembers(INITIAL, [])
  {
  }

  lemma NoRowsNoSets()
    ensures SetsTaken([], 1) == 0 && SetsTaken([], 2) == 0
  {
  }

  /** Six games each or more, within one game, and not six all. */
  predicate Unpriceable(g1: int, g2: int) {
    g1 >= 6 && g2 >= 6 && -1 <= g1 - g2 <= 1 && g1 + g2 > 12
  }

  /** A row that counts stops the walk without an error exactly when a player then has the sets that win the
      match; otherwise it adds a price or, where the engine cannot price its score, nothing. */
  lemma WalkStopsIff(c: Config, rows: seq<Row>, r: Row)
    requires !Run(c, rows).done && Playable(r)
    ensures var ps, st := Played(rows) + [r], Run(c, rows + [r]);
            && (st.done && !st.raised <==>
                  SetsTaken(ps, 1) >= c.bestOf / 2 + 1 || SetsTaken(ps, 2) >= c.bestOf / 2 + 1)
            && (st.done ==> Prices(c, rows + [r]) == Prices(c, rows))
            && (!st.done ==> |Prices(c, rows + [r])| == |Prices(c, rows)| + (if Unpriceable(r.g1, r.g2) then 0 else 1))
  {
    hide SetsTaken;
    hide Step;
    hide Unpriceable;
    assert (rows + [r])[..|rows|] == rows;
    SetsAreCounted(c, rows);
    RollCounts(Run(c, rows), Played(rows), r);
    hide Roll;
    NotRaised(c, rows);
    StepStopsIff(c, Run(c, rows), r);
  }

  lemma StepStopsIff(c: Config, st: State, r: Row)
    requires !st.done && !st.raised && Playable(r)
    ensures var rolled, after := Roll(st, r), Step(c, st, r);
            && (after.done && !after.raised <==> rolled.sets1 >= c.bestOf / 2 + 1 || rolled.sets2 >= c.bestOf / 2 + 1)
            && (after.done ==> after.out == st.out)
            && (!after.done ==> |after.out| == |st.out| + (if Unpriceable(r.g1, r.g2) then 0 else 1))
  {
    hide MatchP1;
    hide ServeProbs;
    hide Computes;
    hide WinnerOfSet;
  }

  lemma {:induction false} NotRaised(c: Config, rows: seq<Row>)
    ensures Run(c, rows).raised ==> Run(c, rows).done
  {
    hide Quoted;
    hide ServeProbs;
    hide Computes;
    hide WinnerOfSet;
    if rows == [] {
    } else {
      NotRaised(c, rows[..|rows| - 1]);
    }
  }

  // ---- Quotes ----

  /** The quote at a game in progress is the live price of that state: the server's own points first, the
      rounded serve probabilities of player one and player two, and the sets that win the match. */
  lemma QuoteIsLivePrice(c: Config, sp: (real, real), sets1: nat, sets2: nat, r: Row, st: LivePlay.Live)
    requires Playable(r) && r.g1 >= 0 && r.g2 >= 0 && sets1 < c.bestOf / 2 + 1 && sets2 < c.bestOf / 2 + 1
    requires st == if r.server == 1
                   then LivePlay.InGame(sets1, sets2, r.g1, r.g2, P1, Points(r.score1), Points(r.score2))
                   else LivePlay.InGame(sets1, sets2, r.g1, r.g2, P2, Points(r.score2), Points(r.score1))
    requires LivePlay.Legal(Odds(c.round3(sp.0), c.round3(sp.1), c.bestOf / 2 + 1), st)
    ensures Quoted(c, sp, sets1, sets2, r) ==
      [LivePlay.Price(Odds(c.round3(sp.0), c.round3(sp.1), c.bestOf / 2 + 1), st)]
  {
    hide MatchP1;
  }

  /** At six games all the quote is that of the tiebreak's first point, whatever the point score. */
  lemma QuoteAtSixAll(c: Config, sp: (real, real), sets1: nat, sets2: nat, r: Row)
    requires Playable(r) && sets1 < c.bestOf / 2 + 1 && sets2 < c.bestOf / 2 + 1 && r.g1 == 6 && r.g2 == 6
    ensures var o := Odds(c.round3(sp.0), c.round3(sp.1), c.bestOf / 2 + 1);
            Quoted(c, sp, sets1, sets2, r) == [LivePlay.Price(o, LivePlay.InTiebreak(sets1, sets2, P1, 0, 0))]
  {
    hide MatchFromSetStart;
    hide TbP1;
    hide Mix;
    hide MatchP1;
    hide SetP1;
    var o := Odds(c.round3(sp.0), c.round3(sp.1), c.bestOf / 2 + 1);
    var server := if r.server == 1 then P1 else P2;
    var own := if r.server == 1 then Points(r.score1) else Points(r.score2);
    var other := if r.server == 1 then Points(r.score2) else Points(r.score1);
    FirstServer.TiebreakFirstServer(o, 0, 0);
    FirstServer.NextSetServerIrrelevant(o, sets1, sets2, 6, 6, server, own, other, P1, P1);
    Rulebook.SetByTheBook(o, 6, 6, server, own, other);
  }

  /** The serve probabilities of the two players: as given where they are fixed, the prior means before any
      point served, and then for each player the mean x of the prior and the points won, by weight, kept
      between 0.5 and 0.85. */
  lemma ServeProbsMeaning(p: Prior, w1: nat, n1: nat, w2: nat, n2: nat, x: real, y: real)
    requires Computes(p, n1, n2)
    requires p.Bayes? && n1 > 0 ==> x * (p.kappa + n1 as real) == p.mu1 * p.kappa + w1 as real
    requires p.Bayes? && n2 > 0 ==> y * (p.kappa + n2 as real) == p.mu2 * p.kappa + w2 as real
    ensures var sp := ServeProbs(p, w1, n1, w2, n2);
            && (p.Fixed? ==> sp == (p.sp1, p.sp2))
            && (!p.Fixed? && n1 == 0 ==> sp.0 == p.mu1) && (!p.Fixed? && n2 == 0 ==> sp.1 == p.mu2)
            && (p.Bayes? && n1 > 0 ==> sp.0 == if x < 0.5 then 0.5 else if x > 0.85 then 0.85 else x)
            && (p.Bayes? && n2 > 0 ==> sp.1 == if y < 0.5 then 0.5 else if y > 0.85 then 0.85 else y)
  {
    hide Posterior;
    if p.Bayes? {
      PosteriorIs(p.kappa, p.mu1, w1, n1, x);
      PosteriorIs(p.kappa, p.mu2, w2, n2, y);
    }
  }

  lemma PosteriorIs(kappa: real, mu: real, w: nat, n: nat, x: real)
    requires n > 0 ==> kappa + n as real != 0.0 && x * (kappa + n as real) == mu * kappa + w as real
    ensures Posterior(kappa, mu, w, n) ==
      if n == 0 then mu else if x < 0.5 then 0.5 else if x > 0.85 then 0.85 else x
  {
    if n > 0 {
      UniqueQuotient(x, kappa + n as real, mu * kappa + w as real);
    }
  }

  lemma UniqueQuotient(x: real, s: real, t: real)
    requires s != 0.0 && x * s == t
    ensures t / s == x
  {
    assert (t / s - x) * s == 0.0;
  }
}
