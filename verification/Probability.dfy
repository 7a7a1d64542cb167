/** Convex combinations of probabilities: the only arithmetic the win-probability engine uses
    outside its two closed forms. */
module Probability {

  datatype Player = P1 | P2 {
    /** The engine's `3 - server`. */
    function Other(): Player {
      match this
      case P1 => P2
      case P2 => P1
    }
  }

  predicate IsProb(p: real) {
    0.0 <= p <= 1.0
  }

  /** The value of a bet that is worth x with probability p and y otherwise. */
  function Mix(p: real, x: real, y: real): real {
    p * x + (1.0 - p) * y
  }

  lemma NonNegativeFactor(x: real, k: real)
    requires k > 0.0 && 0.0 <= x * k
    ensures 0.0 <= x
  {
  }

  lemma ProductNonNegative(x: real, y: real)
    requires 0.0 <= x && 0.0 <= y
    ensures 0.0 <= x * y
  {
  }

  lemma MixBetween(p: real, x: real, y: real)
    requires IsProb(p) && y <= x
    ensures y <= Mix(p, x, y) <= x
  {
    ProductNonNegative(p, x - y);
    ProductNonNegative(1.0 - p, x - y);
    assert Mix(p, x, y) == y + p * (x - y);
    assert Mix(p, x, y) == x - (1.0 - p) * (x - y);
  }

  lemma MixIsProb(p: real, x: real, y: real)
    requires IsProb(p) && IsProb(x) && IsProb(y)
    ensures IsProb(Mix(p, x, y))
  {
    if y <= x {
      MixBetween(p, x, y);
    } else {
      MixBetween(1.0 - p, y, x);
    }
  }

  lemma MixSame(p: real, x: real)
    ensures Mix(p, x, x) == x
  {
  }

  /** Raising either outcome raises the bet. */
  lemma MixOutcomes(p: real, x: real, y: real, x': real, y': real)
    requires IsProb(p) && x <= x' && y <= y'
    ensures Mix(p, x, y) <= Mix(p, x', y')
  {
    ProductNonNegative(p, x' - x);
    ProductNonNegative(1.0 - p, y' - y);
    assert Mix(p, x', y') - Mix(p, x, y) == p * (x' - x) + (1.0 - p) * (y' - y);
  }

  /** Raising the chance of the better outcome raises the bet. */
  lemma MixChance(p: real, p': real, x: real, y: real)
    requires p <= p' && y <= x
    ensures Mix(p, x, y) <= Mix(p', x, y)
  {
    ProductNonNegative(p' - p, x - y);
    assert Mix(p', x, y) - Mix(p, x, y) == (p' - p) * (x - y);
  }

  lemma MixMonotone(p: real, x: real, y: real, p': real, x': real, y': real)
    requires IsProb(p) && IsProb(p') && p <= p'
    requires x <= x' && y <= y' && y <= x
    ensures Mix(p, x, y) <= Mix(p', x', y')
  {
    MixChance(p, p', x, y);
    MixOutcomes(p', x, y, x', y');
  }

  lemma MixComplement(p: real, x: real, y: real)
    ensures Mix(1.0 - p, 1.0 - y, 1.0 - x) == 1.0 - Mix(p, x, y)
    ensures Mix(p, 1.0 - x, 1.0 - y) == 1.0 - Mix(p, x, y)
  {
  }

  /** Two independent rounds may be played in either order. */
  lemma MixSwap(p: real, q: real, x: real, y: real, z: real)
    ensures Mix(p, Mix(q, x, y), Mix(q, y, z)) == Mix(q, Mix(p, x, y), Mix(p, y, z))
  {
  }

  /** A bet on a bet: mixing is linear in the chance of winning. */
  lemma MixNested(p: real, g: real, h: real, x: real, y: real)
    ensures Mix(Mix(p, g, h), x, y) == Mix(p, Mix(g, x, y), Mix(h, x, y))
  {
  }
}
