/** A tiebreak at even scores is a walk of the lead, one pair of points at a time: up by one with chance
    x, down by one with chance y, else unchanged. This decides how a level score compares with love all. */
module LevelScores {
  import opened Probability
  import opened Scoring
  import opened OneStep
  import opened FirstServer
  import opened LivePlay
  import opened Interior
  import Monotone
  import SixAll

  // ---- The walk of the lead ----

  /** The average over one pair of points of the values one up, level and one down. */
  function Pair(x: real, y: real, up: real, same: real, down: real): real {
    x * up + (1.0 - x - y) * same + y * down
  }

  function Weigh(k: real, k': real, a: real, a': real): real {
    k * a - k' * a'
  }

  lemma PairWeigh(x: real, y: real, k: real, k': real, a: real, b: real, c: real, a': real, b': real, c': real)
    ensures Weigh(k, k', Pair(x, y, a, b, c), Pair(x, y, a', b', c')) ==
      Pair(x, y, Weigh(k, k', a, a'), Weigh(k, k', b, b'), Weigh(k, k', c, c'))
  {
  }

  lemma PairSame(x: real, y: real, a: real)
    ensures Pair(x, y, a, a, a) == a
  {
  }

  lemma PairPositive(x: real, y: real, a: real, b: real, c: real)
    requires 0.0 < x && 0.0 < y && x + y < 1.0 && 0.0 <= a && 0.0 <= b && 0.0 <= c
    ensures 0.0 <= Pair(x, y, a, b, c)
    ensures a > 0.0 || b > 0.0 ==> 0.0 < Pair(x, y, a, b, c)
  {
    WeightsPositive(x, 1.0 - x - y, y, a, b, c);
  }

  lemma WeightsPositive(x: real, z: real, y: real, a: real, b: real, c: real)
    requires 0.0 < x && 0.0 < y && 0.0 < z && 0.0 <= a && 0.0 <= b && 0.0 <= c
    ensures 0.0 <= x * a + z * b + y * c
    ensures a > 0.0 || b > 0.0 ==> 0.0 < x * a + z * b + y * c
  {
    ProductNonNegative(x, a);
    ProductNonNegative(z, b);
    ProductNonNegative(y, c);
    if a > 0.0 {
      ProductPositive(x, a);
    }
    if b > 0.0 {
      ProductPositive(z, b);
    }
  }

  /** Player one wins with m pairs to go before six all and a lead of l, d being the value at six all. */
  ghost function Ahead(x: real, y: real, d: real, m: nat, l: int): real {
    if m == 0 then (if l > 0 then 1.0 else if l < 0 then 0.0 else d)
    else Pair(x, y, Ahead(x, y, d, m - 1, l + 1), Ahead(x, y, d, m - 1, l), Ahead(x, y, d, m - 1, l - 1))
  }

  /** The chance that m pairs change the lead by i. */
  ghost function Moves(x: real, y: real, m: nat, i: int): real {
    if m == 0 then (if i == 0 then 1.0 else 0.0)
    else Pair(x, y, Moves(x, y, m - 1, i - 1), Moves(x, y, m - 1, i), Moves(x, y, m - 1, i + 1))
  }

  lemma MovesStep(x: real, y: real, m: nat, i: int)
    requires m > 0
    ensures Moves(x, y, m, i) ==
      Pair(x, y, Moves(x, y, m - 1, i - 1), Moves(x, y, m - 1, i), Moves(x, y, m - 1, i + 1))
  {
  }

  lemma AheadStep(x: real, y: real, d: real, m: nat, l: int)
    requires m > 0
    ensures Ahead(x, y, d, m, l) ==
      Pair(x, y, Ahead(x, y, d, m - 1, l + 1), Ahead(x, y, d, m - 1, l), Ahead(x, y, d, m - 1, l - 1))
  {
  }

  /** A lead that cannot be caught up has won. */
  lemma {:induction false} OutOfReach(x: real, y: real, d: real, m: nat, l: int)
    ensures l > m ==> Ahead(x, y, d, m, l) == 1.0
    ensures l + m < 0 ==> Ahead(x, y, d, m, l) == 0.0
  {
    hide Pair;
    if m == 0 {
    } else {
      OutOfReach(x, y, d, m - 1, l + 1);
      OutOfReach(x, y, d, m - 1, l);
      OutOfReach(x, y, d, m - 1, l - 1);
      PairSame(x, y, 1.0);
      PairSame(x, y, 0.0);
    }
  }

  // ---- The tiebreak is that walk ----

  function Win(o: Odds): real {
    o.sp1 * (1.0 - o.sp2)
  }

  function Lose(o: Odds): real {
    (1.0 - o.sp1) * o.sp2
  }

  lemma PairOfPoints(o: Odds, u: real, v: real, a: real, b: real, c: real)
    requires (u == o.sp1 && v == 1.0 - o.sp2) || (u == 1.0 - o.sp2 && v == o.sp1)
    ensures Mix(u, Mix(v, a, b), Mix(v, b, c)) == Pair(Win(o), Lose(o), a, b, c)
  {
    MixesSpread(u, v, a, b, c);
    assert u * v == Win(o) && (1.0 - u) * (1.0 - v) == Lose(o);
  }

  lemma MixesSpread(u: real, v: real, a: real, b: real, c: real)
    ensures Mix(u, Mix(v, a, b), Mix(v, b, c)) == Pair(u * v, (1.0 - u) * (1.0 - v), a, b, c)
  {
  }

  /** Player one's chance at an even score, in pairs still to play and pairs ahead. */
  lemma {:induction false} TiebreakIsWalk(o: Odds, a: nat, b: nat, first: Player)
    requires (a + b) % 2 == 0 && a + b <= 12
    ensures TbP1(o, a, b, first) ==
      Ahead(Win(o), Lose(o), TiebreakDeuce(o.sp1, o.sp2), 6 - (a + b) / 2, (a - b) / 2)
    decreases 12 - (a + b)
  {
    hide Mix;
    hide Pair;
    hide TiebreakDeuce;
    hide TbP1;
    var x, y, d := Win(o), Lose(o), TiebreakDeuce(o.sp1, o.sp2);
    var m, l := 6 - (a + b) / 2, (a - b) / 2;
    if !TiebreakLive(a, b) {
      Monotone.TiebreakOver(o, a, b, first);
      OutOfReach(x, y, d, m, l);
    } else if a + b == 12 {
      TiebreakAtSixAll(o, first);
      assert a == 6 && b == 6;
    } else {
      hide Ahead;
      AheadStep(x, y, d, m, l);
      TiebreakPair(o, a, b, first);
      TiebreakIsWalk(o, a + 2, b, first);
      TiebreakIsWalk(o, a + 1, b + 1, first);
      TiebreakIsWalk(o, a, b + 2, first);
      var u := PointP1(o, TiebreakServer(first, a + b));
      var v := PointP1(o, TiebreakServer(first, a + b).Other());
      PairOfPoints(o, u, v, TbP1(o, a + 2, b, first), TbP1(o, a + 1, b + 1, first), TbP1(o, a, b + 2, first));
      assert (a + 2 - b) / 2 == l + 1 && (a - (b + 2)) / 2 == l - 1;
    }
  }

  lemma TiebreakAtSixAll(o: Odds, first: Player)
    ensures TbP1(o, 6, 6, first) == TiebreakDeuce(o.sp1, o.sp2)
  {
  }

  // ---- One more pair to play ----

  /** What one more pair to play changes, in proportion. */
  ghost function Gain(x: real, y: real, m: nat, l: int): real {
    Weigh(x * x, y * y, Moves(x, y, m, -1 - l), Moves(x, y, m, 1 - l))
  }

  lemma GainStep(x: real, y: real, m: nat, l: int)
    ensures Gain(x, y, m + 1, l) == Pair(x, y, Gain(x, y, m, l + 1), Gain(x, y, m, l), Gain(x, y, m, l - 1))
  {
    hide Pair;
    hide Weigh;
    PairWeigh(x, y, x * x, y * y, Moves(x, y, m, -2 - l), Moves(x, y, m, -1 - l), Moves(x, y, m, -l),
              Moves(x, y, m, -l), Moves(x, y, m, 1 - l), Moves(x, y, m, 2 - l));
  }

  lemma {:induction false} OneMorePair(x: real, y: real, d: real, m: nat, l: int)
    requires d * (x + y) == x
    ensures Weigh(x + y, x + y, Ahead(x, y, d, m + 1, l), Ahead(x, y, d, m, l)) == Gain(x, y, m, l)
    decreases m
  {
    hide Pair;
    hide Weigh;
    hide Gain;
    if m == 0 {
      FirstPair(x, y, d, l);
    } else {
      var n := m - 1;
      OneMorePair(x, y, d, n, l + 1);
      OneMorePair(x, y, d, n, l);
      OneMorePair(x, y, d, n, l - 1);
      GainStep(x, y, n, l);
      PairWeigh(x, y, x + y, x + y, Ahead(x, y, d, m, l + 1), Ahead(x, y, d, m, l), Ahead(x, y, d, m, l - 1),
                Ahead(x, y, d, n, l + 1), Ahead(x, y, d, n, l), Ahead(x, y, d, n, l - 1));
    }
  }

  lemma FirstPair(x: real, y: real, d: real, l: int)
    requires d * (x + y) == x
    ensures Weigh(x + y, x + y, Ahead(x, y, d, 1, l), Ahead(x, y, d, 0, l)) == Gain(x, y, 0, l)
  {
    assert Ahead(x, y, d, 1, l) == Pair(x, y, Ahead(x, y, d, 0, l + 1), Ahead(x, y, d, 0, l), Ahead(x, y, d, 0, l - 1));
    if l == 0 {
      assert Ahead(x, y, d, 1, l) - d == x - d * (x + y);
    } else if l == 1 {
      FromOneUp(x, y, d);
    } else if l == -1 {
      FromOneDown(x, y, d);
    } else {
      hide Pair;
      PairSame(x, y, 1.0);
      PairSame(x, y, 0.0);
    }
  }

  lemma FromOneUp(x: real, y: real, d: real)
    requires d * (x + y) == x
    ensures Weigh(x + y, x + y, Pair(x, y, 1.0, 1.0, d), 1.0) == -(y * y)
  {
    assert Pair(x, y, 1.0, 1.0, d) - 1.0 == y * d - y;
    assert (x + y) * (y * d - y) == y * (d * (x + y)) - y * (x + y);
  }

  lemma FromOneDown(x: real, y: real, d: real)
    requires d * (x + y) == x
    ensures Weigh(x + y, x + y, Pair(x, y, d, 0.0, 0.0), 0.0) == x * x
  {
    assert (x + y) * (x * d) == x * (d * (x + y));
  }

  // ---- Up and down moves mirror each other ----

  ghost function Power(c: real, n: nat): real {
    if n == 0 then 1.0 else c * Power(c, n - 1)
  }

  predicate Balanced(q: real, a: real, p: real, a': real) {
    q * a == p * a'
  }

  predicate Successive(c: real, p0: real, p1: real, p2: real) {
    p1 == c * p0 && p2 == c * p1
  }

  lemma MirrorStep(x: real, y: real, p0: real, p1: real, p2: real, q0: real, q1: real, q2: real,
                   a: real, b: real, c: real, a': real, b': real, c': real)
    requires Successive(x, p0, p1, p2) && Successive(y, q0, q1, q2)
    requires Balanced(q0, a, p0, a') && Balanced(q1, b, p1, b') && Balanced(q2, c, p2, c')
    ensures Balanced(q1, Pair(x, y, a, b, c), p1, Pair(x, y, c', b', a'))
  {
    MirrorSpread(x, y, q0, q1, q2, a, b, c);
    MirrorSpread(y, x, p0, p1, p2, a', b', c');
    assert Pair(x, y, c', b', a') == Pair(y, x, a', b', c');
    assert (x * y) * (q0 * a) == (y * x) * (p0 * a');
  }

  lemma MirrorSpread(x: real, y: real, q0: real, q1: real, q2: real, a: real, b: real, c: real)
    requires q1 == y * q0 && q2 == y * q1
    ensures q1 * Pair(x, y, a, b, c) == (x * y) * (q0 * a) + (1.0 - x - y) * (q1 * b) + q2 * c
  {
    var z := 1.0 - x - y;
    assert q1 * (x * a) == (x * y) * (q0 * a);
    assert q1 * (z * b) == z * (q1 * b);
    assert q1 * (y * c) == q2 * c;
    Distribute(q1, x * a, z * b, y * c);
  }

  lemma Distribute(k: real, a: real, b: real, c: real)
    ensures k * (a + b + c) == k * a + k * b + k * c
  {
  }

  lemma PowerStep(c: real, n: nat)
    requires n > 0
    ensures Successive(c, Power(c, n - 1), Power(c, n), Power(c, n + 1))
  {
  }

  /** A rise of the lead by j and a fall by j have chances in proportion x to the j against y to the j. */
  lemma {:induction false} Mirror(x: real, y: real, m: nat, j: nat)
    ensures Balanced(Power(y, j), Moves(x, y, m, j), Power(x, j), Moves(x, y, m, 0 - j))
    decreases m
  {
    if m == 0 || j == 0 {
    } else {
      hide Pair;
      hide Moves;
      hide Power;
      hide Balanced;
      hide Successive;
      var n := m - 1;
      MovesStep(x, y, m, j);
      MovesStep(x, y, m, 0 - j);
      Mirror(x, y, n, j - 1);
      Mirror(x, y, n, j);
      Mirror(x, y, n, j + 1);
      PowerStep(x, j);
      PowerStep(y, j);
      MirrorStep(x, y, Power(x, j - 1), Power(x, j), Power(x, j + 1), Power(y, j - 1), Power(y, j), Power(y, j + 1),
                 Moves(x, y, n, j - 1), Moves(x, y, n, j), Moves(x, y, n, j + 1),
                 Moves(x, y, n, 1 - j), Moves(x, y, n, 0 - j), Moves(x, y, n, 0 - j - 1));
    }
  }

  lemma {:induction false} MovesPositive(x: real, y: real, m: nat, i: int)
    requires 0.0 < x && 0.0 < y && x + y < 1.0
    ensures 0.0 <= Moves(x, y, m, i)
    ensures i == 0 || (i == 1 && m > 0) ==> 0.0 < Moves(x, y, m, i)
    decreases m
  {
    hide Pair;
    if m == 0 {
    } else {
      MovesPositive(x, y, m - 1, i - 1);
      MovesPositive(x, y, m - 1, i);
      MovesPositive(x, y, m - 1, i + 1);
      PairPositive(x, y, Moves(x, y, m - 1, i - 1), Moves(x, y, m - 1, i), Moves(x, y, m - 1, i + 1));
    }
  }

  /** From level, one more pair helps whoever is the more likely to win a pair. */
  lemma GainAtLevel(x: real, y: real, m: nat)
    ensures Gain(x, y, m, 0) == (x - y) * (y * Moves(x, y, m, 1))
  {
    hide Moves;
    Mirror(x, y, m, 1);
    assert Power(x, 1) == x && Power(y, 1) == y;
    MirroredGain(x, y, Moves(x, y, m, 1), Moves(x, y, m, -1));
  }

  lemma MirroredGain(x: real, y: real, up: real, down: real)
    requires y * up == x * down
    ensures Weigh(x * x, y * y, down, up) == (x - y) * (y * up)
  {
    assert (x * x) * down == x * (x * down) == x * (y * up);
  }

  lemma SignOfGain(x: real, y: real, s: real, a: real, b: real, k: real)
    requires s > 0.0 && k >= 0.0 && Weigh(s, s, a, b) == (x - y) * k
    ensures x > y ==> a >= b && (k > 0.0 ==> a > b)
    ensures x < y ==> a <= b && (k > 0.0 ==> a < b)
    ensures x == y ==> a == b
  {
    assert s * (a - b) == (x - y) * k;
    if x > y {
      ScaledOrder(s, a, b, x - y, k);
    } else {
      assert s * (b - a) == (y - x) * k;
      ScaledOrder(s, b, a, y - x, k);
      if x == y {
        ScaledOrder(s, a, b, x - y, k);
      }
    }
  }

  lemma ScaledOrder(s: real, a: real, b: real, t: real, k: real)
    requires s > 0.0 && t >= 0.0 && k >= 0.0 && s * (a - b) == t * k
    ensures a >= b && (t > 0.0 && k > 0.0 ==> a > b)
  {
    ProductNonNegative(t, k);
    NonNegativeFactor(a - b, s);
    if t > 0.0 && k > 0.0 {
      ProductPositive(t, k);
    }
  }

  /** The longer a level tiebreak still is, the better for the player more likely to win a pair. */
  lemma {:induction false} LongerFavours(x: real, y: real, d: real, m: nat, n: nat)
    requires 0.0 < x && 0.0 < y && x + y < 1.0 && d * (x + y) == x && m < n
    ensures var a, b := Ahead(x, y, d, n, 0), Ahead(x, y, d, m, 0);
            && (x > y ==> a >= b && (n > 1 ==> a > b))
            && (x < y ==> a <= b && (n > 1 ==> a < b))
            && (x == y ==> a == b)
    decreases n
  {
    hide Ahead;
    hide Gain;
    hide Weigh;
    hide Moves;
    var k := y * Moves(x, y, n - 1, 1);
    MovesPositive(x, y, n - 1, 1);
    ProductNonNegative(y, Moves(x, y, n - 1, 1));
    if n > 1 {
      ProductPositive(y, Moves(x, y, n - 1, 1));
    }
    OneMorePair(x, y, d, n - 1, 0);
    GainAtLevel(x, y, n - 1);
    SignOfGain(x, y, x + y, Ahead(x, y, d, n, 0), Ahead(x, y, d, n - 1, 0), k);
    if m < n - 1 {
      LongerFavours(x, y, d, m, n - 1);
    }
  }

  // ---- Level scores ----

  lemma PairChances(o: Odds)
    requires Uncertain(o)
    ensures 0.0 < Win(o) && 0.0 < Lose(o) && Win(o) + Lose(o) < 1.0 && Win(o) - Lose(o) == o.sp1 - o.sp2
    ensures TiebreakDeuce(o.sp1, o.sp2) * (Win(o) + Lose(o)) == Win(o)
  {
    hide FirstOf;
    hide TiebreakDeuce;
    hide Win;
    hide Lose;
    WinIsProduct(o);
    ChancesOfSplit(o.sp1, 1.0 - o.sp1, o.sp2, 1.0 - o.sp2, Win(o), Lose(o));
  }

  lemma WinIsProduct(o: Odds)
    ensures Win(o) == o.sp1 * (1.0 - o.sp2) && Lose(o) == (1.0 - o.sp1) * o.sp2
    ensures TiebreakDeuce(o.sp1, o.sp2) == FirstOf(Win(o), Lose(o))
  {
  }

  lemma ChancesOfSplit(p: real, p': real, q: real, q': real, x: real, y: real)
    requires 0.0 < p && 0.0 < p' && p + p' == 1.0 && 0.0 < q && 0.0 < q' && q + q' == 1.0
    requires x == p * q' && y == p' * q
    ensures 0.0 < x && 0.0 < y && x + y < 1.0 && x - y == p - q && FirstOf(x, y) * (x + y) == x
  {
    hide FirstOf;
    var both, neither := p * q, p' * q';
    ProductPositive(p, q');
    ProductPositive(p', q);
    ProductPositive(p, q);
    ProductPositive(p', q');
    ShareOfOne(p, q, q');
    ShareOfOne(p', q, q');
    ShareOfOne(q, p, p');
    assert both + x == p && y + neither == p' && both + y == q;
    FirstOfComplement(x, y);
  }

  lemma ShareOfOne(p: real, q: real, q': real)
    requires q + q' == 1.0
    ensures p * q + p * q' == p
  {
    assert p * q + p * q' == p * (q + q');
  }

  lemma LevelIsWalk(o: Odds, k: nat, first: Player)
    ensures TbP1(o, k, k, first) ==
      Ahead(Win(o), Lose(o), TiebreakDeuce(o.sp1, o.sp2), if k < 6 then 6 - k else 0, 0)
  {
    if k <= 6 {
      hide Ahead;
      TiebreakIsWalk(o, k, k, first);
    }
  }

  /** A level score reached later is worth less than love all to the better server, and more to the
      other player. */
  lemma LevelAgainstLove(o: Odds, k: nat, first: Player)
    requires Uncertain(o) && k > 0
    ensures TbP1(o, 0, 0, first) < TbP1(o, k, k, first) <==> o.sp1 < o.sp2
    ensures TbP1(o, 0, 0, first) == TbP1(o, k, k, first) <==> o.sp1 == o.sp2
  {
    hide TbP1;
    hide TiebreakDeuce;
    hide Win;
    hide Lose;
    hide Ahead;
    LevelIsWalk(o, 0, first);
    LevelIsWalk(o, k, first);
    PairChances(o);
    LongerFavours(Win(o), Lose(o), TiebreakDeuce(o.sp1, o.sp2), if k < 6 then 6 - k else 0, 6);
  }

  /** At a level score after the first pair, the six-all quote is right exactly between equal servers, and
      too low exactly for the weaker one. */
  lemma SixAllLevelScores(o: Odds, s1: nat, s2: nat, first: Player, k: nat, server: Player, pa: nat, pb: nat)
    requires Uncertain(o) && s1 < o.setsToWin && s2 < o.setsToWin && k > 0
    ensures var quote, price := MatchP1(o, s1, s2, 6, 6, server, pa, pb), Price(o, InTiebreak(s1, s2, first, k, k));
            (quote == price <==> o.sp1 == o.sp2) && (quote < price <==> o.sp1 < o.sp2)
  {
    hide MatchP1;
    hide Price;
    hide TbP1;
    SixAll.QuoteComparison(o, s1, s2, first, k, k, server, pa, pb);
    LevelAgainstLove(o, k, first);
  }

  /** Not behind against the better server, the quote is too low; not ahead of the worse one, too high.
      Only equal servers at a level score, and love all, are left out. */
  lemma SixAllAgainstTheOdds(o: Odds, s1: nat, s2: nat, first: Player, a: nat, b: nat, server: Player, pa: nat, pb: nat)
    requires Uncertain(o) && s1 < o.setsToWin && s2 < o.setsToWin && TiebreakLive(a, b)
    requires a + b > 0 && !(a == b && o.sp1 == o.sp2)
    ensures var quote, price := MatchP1(o, s1, s2, 6, 6, server, pa, pb), Price(o, InTiebreak(s1, s2, first, a, b));
            && (o.sp1 <= o.sp2 && a >= b ==> quote < price)
            && (o.sp1 >= o.sp2 && a <= b ==> price < quote)
  {
    hide MatchP1;
    hide Price;
    hide TbP1;
    SixAll.QuoteComparison(o, s1, s2, first, a, b, server, pa, pb);
    var low := if a <= b then a else b;
    if low > 0 {
      LevelAgainstLove(o, low, first);
    }
    if a > b {
      SixAll.TiebreakMorePoints(o, b, a, b, first);
    } else if a < b {
      SixAll.TiebreakMoreAgainst(o, a, a, b, first);
    }
  }
}
