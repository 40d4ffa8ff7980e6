/** Faulty memory cells as memtester can meet them: a cell stores every word it is given, and a fault
    changes what a later read returns. */
module MemoryFaults {
  import opened Words

  /** Permanently low and high bits, or two bits of the word shorted to each other. */
  datatype Fault =
    | Stuck(low: Word, high: Word)
    | WiredAnd(x: nat, y: nat)
    | WiredOr(x: nat, y: nat)

  const HEALTHY := Stuck({}, {})

  predicate ValidFault(f: Fault, W: nat) {
    match f
    case Stuck(low, high) => low <= Ones(W) && high <= Ones(W)
    case WiredAnd(x, y) => x < y < W
    case WiredOr(x, y) => x < y < W
  }

  /** What a read of the cell returns when v was stored last. */
  function Sense(f: Fault, v: Word): Word {
    match f
    case Stuck(low, high) => (v + high) - low
    case WiredAnd(x, y) => if x in v && y in v then v else v - {x, y}
    case WiredOr(x, y) => if x in v || y in v then v + {x, y} else v
  }

  /** A bit that is pulled both ways reads low, so only the high bits that are not low matter. */
  predicate SameStuckBits(f: Fault, g: Fault) {
    f.Stuck? && g.Stuck? && f.low == g.low && f.high - f.low == g.high - g.low
  }

  predicate SameFault(f: Fault, g: Fault) {
    SameStuckBits(f, g) || f == g
  }

  lemma SameFaultsSenseAlike(f: Fault, g: Fault, v: Word)
    requires SameFault(f, g)
    ensures Sense(f, v) == Sense(g, v)
  {
    if f != g {
      assert forall b: nat :: b in Sense(f, v) <==> b in Sense(g, v) by {
        assert forall b: nat :: b !in f.low ==> (b in f.high <==> b in f.high - f.low);
        assert forall b: nat :: b !in g.low ==> (b in g.high <==> b in g.high - g.low);
      }
    }
  }

  /** Two stuck-at cells that read alike for a word with bit b set and a word with bit b clear treat bit b alike. */
  lemma ReadsFixStuckBit(f: Fault, g: Fault, zero: Word, one: Word, b: nat)
    requires f.Stuck? && g.Stuck?
    requires b !in zero && b in one
    requires Sense(f, zero) == Sense(g, zero) && Sense(f, one) == Sense(g, one)
    ensures b in f.low <==> b in g.low
    ensures b in f.high - f.low <==> b in g.high - g.low
  {
    assert b in Sense(f, one) <==> b !in f.low;
    assert b in Sense(g, one) <==> b !in g.low;
    assert b in Sense(f, zero) <==> b in f.high - f.low;
    assert b in Sense(g, zero) <==> b in g.high - g.low;
  }
}
