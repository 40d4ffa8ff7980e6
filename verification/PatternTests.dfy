/** memtester's comparison tests: write the same words to two halves of memory, then compare the halves. */
module PatternTests {
  import opened Arithmetic
  import opened Words
  import opened MemoryFaults

  /** Bit Spread shifts a 1 beyond the end of the word; `over` is what the machine makes of that in each pass and at each
      index. */
  datatype Pattern =
    | SolidBits | Checkerboard | BlockSequential | WalkingZeroes | WalkingOnes | BitFlip
    | BitSpread(over: (nat, nat) -> Word)

  /** How many times a test fills and compares the two halves. */
  function Passes(p: Pattern, W: nat): nat {
    match p
    case SolidBits => 64
    case Checkerboard => 64
    case BlockSequential => 256
    case WalkingZeroes => W * 2
    case WalkingOnes => W * 2
    case BitFlip => W * 8
    case BitSpread(_) => W * 2
  }

  predicate WideEnough(p: Pattern, W: nat) {
    if p.BitSpread? then W >= 4 else W >= 2
  }

  /** The bit that a walking test, or Bit Spread, singles out in pass j: up from 0, then back down. */
  function WalkBit(W: nat, j: nat): (b: nat)
    requires j < W * 2
    ensures b < W
    ensures j == b || j == W * 2 - 1 - b
  {
    if j < W then j else W * 2 - j - 1
  }

  /** CHECKERBOARD1 (parity 0, 0x55...) and CHECKERBOARD2 (parity 1, 0xaa...). */
  function AlternateBits(W: nat, parity: nat): Word {
    set b | b in Ones(W) && b % 2 == parity
  }

  /** UL_BYTE: the byte x in every byte of the word. */
  function RepeatByte(W: nat, x: nat): Word {
    set b | b in Ones(W) && Bit(x, b % 8)
  }

  function EvenOdd(W: nat, i: nat, q: Word): Word {
    if i % 2 == 0 then q else Not(q, W)
  }

  /** The word that pass j of test p stores at index i of both halves. */
  function Written(p: Pattern, W: nat, j: nat, i: nat): Word
    requires j < Passes(p, W)
  {
    match p
    case SolidBits => EvenOdd(W, i, if j % 2 == 0 then Ones(W) else {})
    case Checkerboard => EvenOdd(W, i, AlternateBits(W, j % 2))
    case BlockSequential => RepeatByte(W, j)
    case WalkingZeroes => {WalkBit(W, j)}
    case WalkingOnes => Xor(Ones(W), {WalkBit(W, j)})
    case BitFlip => EvenOdd(W, i, if j % 8 % 2 == 0 then Not({j / 8}, W) else {j / 8})
    case BitSpread(over) =>
      var b := WalkBit(W, j);
      EvenOdd(W, i, {b} + if b + 2 < W then {b + 2} else over(j, i) * Ones(W))
  }

  /** Two cells with the same index answer alike in every pass of test p. */
  predicate CellsAgree(p: Pattern, W: nat, i: nat, f: Fault, g: Fault) {
    forall j :: 0 <= j < Passes(p, W) ==> Sense(f, Written(p, W, j, i)) == Sense(g, Written(p, W, j, i))
  }

  /** Return 0 exactly when the two halves read alike at every index. */
  method CompareRegions(bufa: array<Word>, fa: seq<Fault>, bufb: array<Word>, fb: seq<Fault>, count: nat)
    returns (r: int)
    requires count <= bufa.Length && count <= bufb.Length && count <= |fa| && count <= |fb|
    ensures r == 0 || r == -1
    ensures r == 0 <==> forall i :: 0 <= i < count ==> Sense(fa[i], bufa[i]) == Sense(fb[i], bufb[i])
  {
    r := 0;
    for i := 0 to count
      invariant r == 0 || r == -1
      invariant r == 0 <==> forall k :: 0 <= k < i ==> Sense(fa[k], bufa[k]) == Sense(fb[k], bufb[k])
    {
      if Sense(fa[i], bufa[i]) != Sense(fb[i], bufb[i]) {
        r := -1;
      }
    }
  }

  /** One of the seven pattern tests, on halves whose cells may be faulty in any way. */
  method RunPattern(p: Pattern, W: nat, bufa: array<Word>, fa: seq<Fault>, bufb: array<Word>, fb: seq<Fault>,
                    count: nat) returns (r: int)
    requires count <= bufa.Length && count <= bufb.Length && count <= |fa| && count <= |fb|
    requires bufa != bufb
    modifies bufa, bufb
    ensures r == 0 || r == -1
    ensures r == 0 <==> forall i :: 0 <= i < count ==> CellsAgree(p, W, i, fa[i], fb[i])
  {
    for j := 0 to Passes(p, W)
      invariant forall i, k :: 0 <= i < count && 0 <= k < j ==>
                  Sense(fa[i], Written(p, W, k, i)) == Sense(fb[i], Written(p, W, k, i))
    {
      for i := 0 to count
        invariant forall k :: 0 <= k < i ==> bufa[k] == bufb[k] == Written(p, W, j, k)
      {
        bufb[i] := Written(p, W, j, i);
        bufa[i] := Written(p, W, j, i);
      }
      r := CompareRegions(bufa, fa, bufb, fb, count);
      if r != 0 {
        var i :| 0 <= i < count && Sense(fa[i], bufa[i]) != Sense(fb[i], bufb[i]);
        assert !CellsAgree(p, W, i, fa[i], fb[i]);
        return -1;
      }
    }
    r := 0;
  }

  /** The words at neighbouring indices are complements, and so are the words of successive passes over one index. */
  lemma NeighboursComplement(p: Pattern, W: nat, j: nat, i: nat, b: nat)
    requires p.SolidBits? || p.Checkerboard? || p.BitFlip?
    requires b < W && j + 1 < Passes(p, W)
    ensures b in Written(p, W, j, i) <==> b !in Written(p, W, j, i + 1)
    ensures (p.BitFlip? && j % 8 == 7) || (b in Written(p, W, j, i) <==> b !in Written(p, W, j + 1, i))
  {
    if p.BitFlip? && j % 8 != 7 {
      NextDivMod(j, 8);
    }
  }

  /** Within a word: all bits the same, neighbouring bits different, one bit different from all others, or one byte again
      and again that counts the passes. */
  lemma WordsInShape(W: nat, j: nat, i: nat, b: nat, c: nat)
    requires b < W && c < W
    ensures j < 64 ==> (b in Written(SolidBits, W, j, i) <==> c in Written(SolidBits, W, j, i))
    ensures j < 64 && c == b + 1 ==> (b in Written(Checkerboard, W, j, i) <==> c !in Written(Checkerboard, W, j, i))
    ensures j < 8 * W && b == j / 8 && b != c ==> (b in Written(BitFlip, W, j, i) <==> c !in Written(BitFlip, W, j, i))
    ensures j < 2 * W && (b == j || b == 2 * W - 1 - j) ==> Written(WalkingZeroes, W, j, i) == {b}
    ensures j < 2 * W && (b == j || b == 2 * W - 1 - j) ==> Written(WalkingOnes, W, j, i) == Ones(W) - {b}
    ensures j < 256 ==> (b in Written(BlockSequential, W, j, i) <==> Bit(j, b % 8))
  {
  }

  /** In every pattern test, each bit of each index is written once as 0 and once as 1. */
  lemma EveryBitTakesBothValues(p: Pattern, W: nat, i: nat, b: nat) returns (j0: nat, j1: nat)
    requires WideEnough(p, W) && b < W
    ensures j0 < Passes(p, W) && j1 < Passes(p, W)
    ensures b !in Written(p, W, j0, i) && b in Written(p, W, j1, i)
  {
    var flip := i % 2;
    match p
    case SolidBits => j0, j1 := 1 - flip, flip;
    case Checkerboard =>
      j1 := (b + i) % 2;
      j0 := 1 - j1;
    case BlockSequential =>
      j0, j1 := 0, 255;
      ByteBits(b % 8);
    case WalkingZeroes => j0, j1 := if b == 0 then 1 else 0, b;
    case WalkingOnes => j0, j1 := b, if b == 0 then 1 else 0;
    case BitFlip =>
      j0, j1 := FlippedBit(W, i, b);
    case BitSpread(_) =>
      j0, j1 := SpreadBit(p, W, i, b);
  }

  lemma FlippedBit(W: nat, i: nat, b: nat) returns (j0: nat, j1: nat)
    requires b < W
    ensures j0 < Passes(BitFlip, W) && j1 < Passes(BitFlip, W)
    ensures b !in Written(BitFlip, W, j0, i) && b in Written(BitFlip, W, j1, i)
  {
    var flip := i % 2;
    j0, j1 := 8 * b + flip, 8 * b + 1 - flip;
    assert j0 / 8 == b && j1 / 8 == b;
  }

  lemma SpreadBit(p: Pattern, W: nat, i: nat, b: nat) returns (j0: nat, j1: nat)
    requires p.BitSpread? && WideEnough(p, W) && b < W
    ensures j0 < Passes(p, W) && j1 < Passes(p, W)
    ensures b !in Written(p, W, j0, i) && b in Written(p, W, j1, i)
  {
    var set1 := if b + 2 < W then b else b - 2;
    var set0 := if b == 0 || b == 2 then 1 else 0;
    j0, j1 := if i % 2 == 0 then set0 else set1, if i % 2 == 0 then set1 else set0;
  }

  lemma ByteBits(b: nat)
    requires b < 8
    ensures !Bit(0, b) && Bit(255, b)
  {
    BitOfZero(b);
    assert Pow2(8) == 2 * Pow2(7) == 4 * Pow2(6) == 8 * Pow2(5) == 256;
    AllOnes(8, 255, b);
  }

  lemma {:induction false} BitOfZero(b: nat)
    ensures !Bit(0, b)
  {
    if b > 0 {
      BitOfZero(b - 1);
    }
  }

  lemma {:induction false} AllOnes(k: nat, n: nat, b: nat)
    requires n == Pow2(k) - 1 && b < k
    ensures Bit(n, b)
  {
    var half := Pow2(k - 1) - 1;
    assert n == 2 * half + 1 && n / 2 == half && n % 2 == 1;
    if b > 0 {
      AllOnes(k - 1, half, b - 1);
    }
  }

  /** Each pattern test passes at an index exactly when the two cells have the same stuck bits. */
  lemma PatternsCatchStuckBits(p: Pattern, W: nat, i: nat, f: Fault, g: Fault)
    requires WideEnough(p, W)
    requires ValidFault(f, W) && ValidFault(g, W) && f.Stuck? && g.Stuck?
    ensures CellsAgree(p, W, i, f, g) <==> SameStuckBits(f, g)
  {
    if CellsAgree(p, W, i, f, g) {
      forall b: nat
        ensures b in f.low <==> b in g.low
        ensures b in f.high - f.low <==> b in g.high - g.low
      {
        if b < W {
          var j0, j1 := EveryBitTakesBothValues(p, W, i, b);
          ReadsFixStuckBit(f, g, Written(p, W, j0, i), Written(p, W, j1, i), b);
        }
      }
    } else if SameStuckBits(f, g) {
      forall j | 0 <= j < Passes(p, W)
        ensures Sense(f, Written(p, W, j, i)) == Sense(g, Written(p, W, j, i))
      {
        SameFaultsSenseAlike(f, g, Written(p, W, j, i));
      }
    }
  }

  /** What the walking tests store for bit b. */
  lemma WalkPatterns(W: nat, i: nat, b: nat)
    requires b < W
    ensures Written(WalkingZeroes, W, b, i) == {b}
    ensures Written(WalkingOnes, W, b, i) == Ones(W) - {b}
  {
  }

  /** Either walking test alone tells a short between two bits from a healthy cell. */
  lemma WalksCatchShorts(p: Pattern, W: nat, i: nat, short: Fault)
    requires p.WalkingZeroes? || p.WalkingOnes?
    requires ValidFault(short, W) && !short.Stuck?
    ensures !CellsAgree(p, W, i, short, HEALTHY) && !CellsAgree(p, W, i, HEALTHY, short)
  {
    WalkPatterns(W, i, short.x);
    var v := Written(p, W, short.x, i);
    assert Sense(HEALTHY, v) == v;
    assert (short.x in v) != (short.y in v);
    assert Sense(short, v) != v by {
      assert short.x in Sense(short, v) <==> short.y in Sense(short, v);
    }
  }

  /** The walking tests together tell apart any two single faults of a word: the two halves pass both tests
      exactly when, at every index, they are faulty in the same way. */
  lemma BothWalksIdentifyFaults(W: nat, i: nat, f: Fault, g: Fault)
    requires W >= 3
    requires ValidFault(f, W) && ValidFault(g, W)
    ensures CellsAgree(WalkingZeroes, W, i, f, g) && CellsAgree(WalkingOnes, W, i, f, g) <==> SameFault(f, g)
  {
    if SameFault(f, g) {
      forall p: Pattern, j | 0 <= j < Passes(p, W)
        ensures Sense(f, Written(p, W, j, i)) == Sense(g, Written(p, W, j, i))
      {
        SameFaultsSenseAlike(f, g, Written(p, W, j, i));
      }
    } else if CellsAgree(WalkingZeroes, W, i, f, g) && CellsAgree(WalkingOnes, W, i, f, g) {
      forall b: nat | b < W
        ensures Sense(f, {b}) == Sense(g, {b}) && Sense(f, Ones(W) - {b}) == Sense(g, Ones(W) - {b})
      {
        WalkPatterns(W, i, b);
        assert Sense(f, Written(WalkingZeroes, W, b, i)) == Sense(g, Written(WalkingZeroes, W, b, i));
        assert Sense(f, Written(WalkingOnes, W, b, i)) == Sense(g, Written(WalkingOnes, W, b, i));
      }
      if f.Stuck? && g.Stuck? {
        PatternsCatchStuckBits(WalkingZeroes, W, i, f, g);
      } else if f.Stuck? {
        ShortIsNoStuckBit(W, g, f);
      } else if g.Stuck? {
        ShortIsNoStuckBit(W, f, g);
      } else {
        ShortsDiffer(W, f, g);
      }
    }
  }

  lemma ShortIsNoStuckBit(W: nat, short: Fault, stuck: Fault)
    requires W >= 3
    requires ValidFault(short, W) && ValidFault(stuck, W) && !short.Stuck? && stuck.Stuck?
    ensures exists b: nat :: b < W && (Sense(short, {b}) != Sense(stuck, {b})
                                       || Sense(short, Ones(W) - {b}) != Sense(stuck, Ones(W) - {b}))
  {
    var x, y := short.x, short.y;
    var z: nat := if x != 0 then 0 else if y != 1 then 1 else 2;
    if short.WiredAnd? {
      assert x !in Sense(short, {x});
      assert x in Sense(short, Ones(W) - {z});
      if Sense(short, {x}) == Sense(stuck, {x}) {
        assert x in stuck.low;
        assert x !in Sense(stuck, Ones(W) - {z});
      }
    } else {
      assert y in Sense(short, {x});
      assert y !in Sense(short, {z});
      if Sense(short, {x}) == Sense(stuck, {x}) {
        assert y in stuck.high && y !in stuck.low;
        assert y in Sense(stuck, {z});
      }
    }
  }

  lemma ShortsDiffer(W: nat, f: Fault, g: Fault)
    requires W >= 3
    requires ValidFault(f, W) && ValidFault(g, W) && !f.Stuck? && !g.Stuck? && f != g
    ensures exists b: nat :: b < W && Sense(f, {b}) != Sense(g, {b})
  {
    if f.WiredAnd? && g.WiredOr? {
      assert f.x !in Sense(f, {f.x}) && f.x in Sense(g, {f.x});
    } else if f.WiredOr? && g.WiredAnd? {
      assert g.x in Sense(f, {g.x}) && g.x !in Sense(g, {g.x});
    } else if f.WiredAnd? {
      var b := if f.x != g.x && f.x != g.y then f.x else f.y;
      assert b !in Sense(f, {b}) && b in Sense(g, {b});
    } else {
      var b := if f.x != g.x && f.x != g.y then f.x else f.y;
      var other := if b == f.x then f.y else f.x;
      assert other in Sense(f, {b}) && other !in Sense(g, {b});
    }
  }

  /** Walking Zeroes alone cannot tell two shorted bits from two bits stuck low; Walking Ones is needed too. */
  lemma WalkingZeroesAloneMisses(W: nat, i: nat, x: nat, y: nat)
    requires x < y < W
    ensures CellsAgree(WalkingZeroes, W, i, WiredAnd(x, y), Stuck({x, y}, {}))
  {
    forall j | 0 <= j < Passes(WalkingZeroes, W)
      ensures Sense(WiredAnd(x, y), Written(WalkingZeroes, W, j, i))
           == Sense(Stuck({x, y}, {}), Written(WalkingZeroes, W, j, i))
    {
    }
  }
}
