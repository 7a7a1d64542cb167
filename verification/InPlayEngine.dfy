/** The memoised engine. Each method is the cached form of one recursion of Scoring; the tables
    may hold anything computed before, in any order, and never change an answer. */
module InPlayEngine {
  import opened Probability
  import Scoring

  class InPlay {
    const sp1: real
    const sp2: real
    const setsToWin: nat
    var games: map<(real, nat, nat), real>
    var tiebreaks: map<(nat, nat, Player), real>
    var sets: map<(int, int, Player, nat, nat), real>
    var matches: map<(nat, nat, Player), real>

    function Odds(): Scoring.Odds {
      Scoring.Odds(sp1, sp2, setsToWin)
    }

    ghost predicate ValidGames()
      reads this`games
    {
      forall k :: k in games ==> games[k] == Scoring.Gwp(k.0, k.1, k.2)
    }

    ghost predicate ValidTiebreaks()
      reads this`tiebreaks
    {
      forall k :: k in tiebreaks ==> tiebreaks[k] == Scoring.TbP1(Odds(), k.0, k.1, k.2)
    }

    ghost predicate ValidSets()
      reads this`sets
    {
      forall k :: k in sets ==>
        Scoring.SetLegal(k.0, k.1) && sets[k] == Scoring.SetP1(Odds(), k.0, k.1, k.2, k.3, k.4)
    }

    ghost predicate ValidMatches()
      reads this`matches
    {
      forall k :: k in matches ==>
        k.0 <= setsToWin && k.1 <= setsToWin && matches[k] == Scoring.MatchFromSetStart(Odds(), k.0, k.1, k.2)
    }

    /** Every table entry is the value of the uncached recursion at its key. */
    ghost predicate Valid()
      reads this
    {
      ValidGames() && ValidTiebreaks() && ValidSets() && ValidMatches()
    }

    constructor (sp1: real, sp2: real, bestOf: nat := 5)
      ensures Valid() && this.sp1 == sp1 && this.sp2 == sp2 && setsToWin == bestOf / 2 + 1
      ensures games == map[] && tiebreaks == map[] && sets == map[] && matches == map[]
    {
      this.sp1, this.sp2, this.setsToWin := sp1, sp2, bestOf / 2 + 1;
      games, tiebreaks, sets, matches := map[], map[], map[], map[];
    }

    method Gwp(p: real, a: nat, b: nat) returns (r: real)
      requires ValidGames()
      modifies this`games
      ensures ValidGames() && r == Scoring.Gwp(p, a, b)
      decreases 6 - (a + b)
    {
      hide Mix;
      hide Scoring.Deuce;
      if a >= 4 && a - b >= 2 {
        return 1.0;
      }
      if b >= 4 && b - a >= 2 {
        return 0.0;
      }
      if (p, a, b) in games {
        return games[(p, a, b)];
      }
      if a >= 3 && b >= 3 {
        var q := 1.0 - p;
        var d := Scoring.Deuce(p);
        r := if a == b then d else if a == b + 1 then p + q * d else p * d;
      } else {
        var won := Gwp(p, a + 1, b);
        var lost := Gwp(p, a, b + 1);
        r := Mix(p, won, lost);
      }
      games := games[(p, a, b) := r];
    }

    method GameP1(server: Player, a: nat, b: nat) returns (r: real)
      requires ValidGames()
      modifies this`games
      ensures ValidGames() && r == Scoring.GameP1(Odds(), server, a, b)
    {
      if server == P1 {
        r := Gwp(sp1, a, b);
      } else {
        r := Gwp(sp2, a, b);
        r := 1.0 - r;
      }
    }

    method TbP1(a: nat, b: nat, first: Player) returns (r: real)
      requires ValidTiebreaks()
      modifies this`tiebreaks
      ensures ValidTiebreaks() && r == Scoring.TbP1(Odds(), a, b, first)
      decreases Scoring.TiebreakRank(a, b)
    {
      hide Mix;
      hide Scoring.TiebreakDeuce;
      if a >= 7 && a - b >= 2 {
        return 1.0;
      }
      if b >= 7 && b - a >= 2 {
        return 0.0;
      }
      if a >= 6 && b >= 6 && a == b {
        return Scoring.TiebreakDeuce(sp1, sp2);
      }
      if (a, b, first) in tiebreaks {
        return tiebreaks[(a, b, first)];
      }
      var pw1 := Scoring.PointP1(Odds(), Scoring.TiebreakServer(first, a + b));
      var won := TbP1(a + 1, b, first);
      var lost := TbP1(a, b + 1, first);
      r := Mix(pw1, won, lost);
      tiebreaks := tiebreaks[(a, b, first) := r];
    }

    method SetP1(g1: int, g2: int, server: Player, a: nat, b: nat) returns (r: real)
      requires ValidGames() && ValidTiebreaks() && ValidSets() && Scoring.SetLegal(g1, g2)
      modifies this`games, this`tiebreaks, this`sets
      ensures ValidGames() && ValidTiebreaks() && ValidSets()
      ensures r == Scoring.SetP1(Odds(), g1, g2, server, a, b)
      decreases Scoring.SetRank(g1, g2)
    {
      hide Mix;
      hide Scoring.Gwp;
      hide Scoring.TbP1;
      if g1 >= 6 && g1 - g2 >= 2 {
        return 1.0;
      }
      if g2 >= 6 && g2 - g1 >= 2 {
        return 0.0;
      }
      if g1 == 6 && g2 == 6 {
        r := TbP1(0, 0, server);
        return;
      }
      if (g1, g2, server, a, b) in sets {
        return sets[(g1, g2, server, a, b)];
      }
      var gw := GameP1(server, a, b);
      var won := SetP1(g1 + 1, g2, server.Other(), 0, 0);
      var lost := SetP1(g1, g2 + 1, server.Other(), 0, 0);
      r := Mix(gw, won, lost);
      sets := sets[(g1, g2, server, a, b) := r];
    }

    method MatchFromSetStart(s1: nat, s2: nat, first: Player) returns (r: real)
      requires Valid() && s1 <= setsToWin && s2 <= setsToWin
      modifies this
      ensures Valid() && r == Scoring.MatchFromSetStart(Odds(), s1, s2, first)
      decreases 2 * setsToWin - s1 - s2
    {
      hide Mix;
      hide Scoring.SetP1;
      hide Scoring.Gwp;
      hide Scoring.TbP1;
      if s1 == setsToWin {
        return 1.0;
      }
      if s2 == setsToWin {
        return 0.0;
      }
      if (s1, s2, first) in matches {
        return matches[(s1, s2, first)];
      }
      var ws := SetP1(0, 0, first, 0, 0);
      var won := MatchFromSetStart(s1 + 1, s2, first.Other());
      var lost := MatchFromSetStart(s1, s2 + 1, first.Other());
      r := Mix(ws, won, lost);
      matches := matches[(s1, s2, first) := r];
    }

    method MatchP1(s1: nat, s2: nat, g1: int, g2: int, server: Player, a: nat, b: nat) returns (r: real)
      requires Valid() && Scoring.Priceable(Odds(), s1, s2, g1, g2)
      modifies this
      ensures Valid() && r == Scoring.MatchP1(Odds(), s1, s2, g1, g2, server, a, b)
    {
      hide Mix;
      hide Scoring.SetP1;
      hide Scoring.MatchFromSetStart;
      if s1 == setsToWin {
        return 1.0;
      }
      if s2 == setsToWin {
        return 0.0;
      }
      var ws := SetP1(g1, g2, server, a, b);
      var nxt := server.Other();
      var won := MatchFromSetStart(s1 + 1, s2, nxt);
      var lost := MatchFromSetStart(s1, s2 + 1, nxt);
      r := Mix(ws, won, lost);
    }
  }

  /** The process-wide cache of engines by rounded serve probabilities. */
  class EngineCache {
    const round3: real -> real
    var engines: map<(real, real, nat), InPlay>

    ghost predicate Valid()
      reads this, engines.Values
    {
      forall k :: k in engines ==> Holds(k, engines[k]) && engines[k].Valid()
    }

    /** The engine stored under a key was built for that key. */
    static predicate Holds(k: (real, real, nat), e: InPlay) {
      e.sp1 == k.0 && e.sp2 == k.1 && e.setsToWin == k.2 / 2 + 1
    }

    constructor (round3: real -> real)
      ensures Valid() && this.round3 == round3 && engines == map[]
    {
      this.round3 := round3;
      engines := map[];
    }

    method EngineFor(sp1: real, sp2: real, bestOf: nat) returns (e: InPlay)
      requires Valid()
      modifies this
      ensures Valid() && e in engines.Values && Holds((round3(sp1), round3(sp2), bestOf), e)
      ensures e in old(engines.Values) || fresh(e)
      ensures forall k :: k in engines ==> engines[k] == e || (k in old(engines) && engines[k] == old(engines)[k])
      ensures forall k :: k in old(engines) ==> k in engines && engines[k] == old(engines)[k]
    {
      var key := (round3(sp1), round3(sp2), bestOf);
      if key in engines {
        e := engines[key];
      } else {
        e := new InPlay(key.0, key.1, bestOf);
        engines := engines[key := e];
        assert engines[key] == e;
      }
    }

    /** Whatever was priced before, the price is the uncached recursion at the rounded serves. */
    method Quote(sp1: real, sp2: real, bestOf: nat, s1: nat, s2: nat, g1: int, g2: int, server: Player, a: nat, b: nat)
      returns (r: real)
      requires Valid() && Scoring.Priceable(Scoring.Odds(round3(sp1), round3(sp2), bestOf / 2 + 1), s1, s2, g1, g2)
      modifies this, engines.Values
      ensures Valid() && forall e :: e in engines.Values ==> e in old(engines.Values) || fresh(e)
      ensures r == Scoring.MatchP1(Scoring.Odds(round3(sp1), round3(sp2), bestOf / 2 + 1), s1, s2, g1, g2, server, a, b)
    {
      hide Scoring.MatchP1;
      hide Scoring.Priceable;
      var e := EngineFor(sp1, sp2, bestOf);
      r := e.MatchP1(s1, s2, g1, g2, server, a, b);
    }
  }
}
