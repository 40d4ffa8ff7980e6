/** A whole memtester run: how the buffer is split, the loop over all tests, and the exit code. */
module Memtester {
  import opened Arithmetic
  import opened Words
  import opened MemoryFaults
  import opened PatternTests
  import StuckAddress

  const EXIT_FAIL_ADDRESSLINES: bv8 := 0x02
  const EXIT_FAIL_OTHERTEST: bv8 := 0x04

  /** One bit of physical memory. */
  datatype BitFault = Free | Low | High

  datatype Operator = XorOp | SubOp | MulOp | DivOp | OrOp | AndOp

  datatype Test =
    | RandomValue
    | Compare(op: Operator)
    | SequentialIncrement
    | Patterned(p: Pattern)
    | NarrowWrites(size: nat)

  /** The table `tests`, in its order. */
  function Tests(over: (nat, nat) -> Word): seq<Test> {
    [RandomValue, Compare(XorOp), Compare(SubOp), Compare(MulOp), Compare(DivOp), Compare(OrOp), Compare(AndOp),
     SequentialIncrement, Patterned(SolidBits), Patterned(BlockSequential), Patterned(Checkerboard),
     Patterned(BitSpread(over)), Patterned(BitFlip), Patterned(WalkingOnes), Patterned(WalkingZeroes),
     NarrowWrites(8), NarrowWrites(16)]
  }

  /** The tests that there are: the narrow stores are of 8 and 16 bits. */
  ghost predicate IsTest(t: Test, over: (nat, nat) -> Word) {
    && (t.NarrowWrites? ==> t.size == 8 || t.size == 16)
    && (t.Patterned? && t.p.BitSpread? ==> t.p.over == over)
  }

  /** Every test is in the table, once: there are as many entries as tests. */
  lemma EveryTestIsThere(over: (nat, nat) -> Word, t: Test)
    requires IsTest(t, over)
    ensures |Tests(over)| == 17 && t in Tests(over)
  {
    var tests := Tests(over);
    var i: nat :=
      match t
      case RandomValue => 0
      case Compare(op) =>
        (match op case XorOp => 1 case SubOp => 2 case MulOp => 3 case DivOp => 4 case OrOp => 5 case AndOp => 6)
      case SequentialIncrement => 7
      case Patterned(p) =>
        (match p
         case SolidBits => 8
         case BlockSequential => 9
         case Checkerboard => 10
         case BitSpread(_) => 11
         case BitFlip => 12
         case WalkingOnes => 13
         case WalkingZeroes => 14)
      case NarrowWrites(size) => if size == 8 then 15 else 16;
    assert tests[i] == t;
  }

  /** `*p op= q` on W-bit words; a zero divisor is replaced by 1. */
  function Apply(op: Operator, v: Word, q: Word, W: nat): Word {
    match op
    case XorOp => Xor(v, q)
    case SubOp => Sub(v, q, W)
    case MulOp => Mul(v, q, W)
    case DivOp => if ToNat(q, W) == 0 then v else Div(v, q, W)
    case OrOp => v + q
    case AndOp => v * q
  }

  /** What the operators mean: bit by bit, or on the numbers that the words stand for. */
  lemma OperatorsMean(op: Operator, v: Word, q: Word, W: nat)
    ensures var r := Apply(op, v, q, W);
            match op
            case XorOp => forall b: nat :: b in r <==> (b in v <==> b !in q)
            case OrOp => forall b: nat :: b in r <==> b in v || b in q
            case AndOp => forall b: nat :: b in r <==> b in v && b in q
            case SubOp => (ToNat(r, W) + ToNat(q, W)) % Pow2(W) == ToNat(v, W)
            case MulOp => ToNat(r, W) == Times(ToNat(v, W), ToNat(q, W)) % Pow2(W)
            case DivOp =>
              if ToNat(q, W) == 0 then r == v
              else Times(ToNat(q, W), ToNat(r, W)) <= ToNat(v, W) < Times(ToNat(q, W), ToNat(r, W)) + ToNat(q, W)
  {
    match op
    case SubOp => SubUndone(v, q, W);
    case MulOp => MulModulo(v, q, W);
    case DivOp =>
      if ToNat(q, W) != 0 {
        DivRoundsDown(v, q, W);
      }
    case _ =>
  }

  /** The word cell made of these bits of physical memory. */
  function WordFault(bits: seq<BitFault>): (f: Fault)
    ensures f.Stuck? && ValidFault(f, |bits|)
  {
    Stuck((set b | b in Ones(|bits|) && bits[b] == Low), (set b | b in Ones(|bits|) && bits[b] == High))
  }

  /** The consecutive W-bit words that a stretch of physical memory holds. */
  function RegionFaults(bits: seq<BitFault>, W: nat): (fs: seq<Fault>)
    requires W >= 1
    ensures StuckRegion(fs, W)
  {
    if |bits| < W then [] else [WordFault(bits[..W])] + RegionFaults(bits[W..], W)
  }

  predicate ValidRegion(fs: seq<Fault>, W: nat) {
    forall i :: 0 <= i < |fs| ==> ValidFault(fs[i], W)
  }

  predicate StuckRegion(fs: seq<Fault>, W: nat) {
    forall i :: 0 <= i < |fs| ==> fs[i].Stuck? && ValidFault(fs[i], W)
  }

  /** Where the two halves lie: `bufsize` bytes, `count` words in each half, the second half at byte `halflen`. */
  function HalfLen(bufsize: nat): nat {
    bufsize / 2
  }

  function HalfCount(bufsize: nat, W: nat): nat
    requires W >= 8
  {
    HalfLen(bufsize) / (W / 8)
  }

  /** How many bits so many words have. */
  function BitsIn(words: nat, W: nat): nat {
    if words == 0 then 0 else BitsIn(words - 1, W) + W
  }

  lemma {:induction false} BitsOfBytes(words: nat, size: nat)
    ensures BitsIn(words, 8 * size) == 8 * (size * words)
  {
    if words > 0 {
      BitsOfBytes(words - 1, size);
      assert size * words == size * (words - 1) + size;
    }
  }

  /** The whole words in `bytes` bytes do not reach beyond them. */
  lemma WordsFit(bytes: nat, W: nat)
    requires W >= 8 && W % 8 == 0
    ensures BitsIn(bytes / (W / 8), W) <= 8 * bytes
  {
    BitsOfBytes(bytes / (W / 8), W / 8);
    WholeMultiples(bytes, W / 8);
  }

  /** The halves do not overlap and do not leave the buffer, also when `halflen` is not a multiple of the word size. */
  lemma HalvesFit(bufsize: nat, W: nat)
    requires W >= 8 && W % 8 == 0
    ensures BitsIn(HalfCount(bufsize, W), W) <= 8 * HalfLen(bufsize)
    ensures 8 * HalfLen(bufsize) + BitsIn(HalfCount(bufsize, W), W) <= 8 * bufsize
    ensures BitsIn(WholeWords(bufsize, W), W) <= 8 * bufsize
  {
    WordsFit(HalfLen(bufsize), W);
    WordsFit(bufsize, W);
  }

  function WholeWords(bufsize: nat, W: nat): nat
    requires W >= 8
  {
    bufsize / (W / 8)
  }

  function FirstHalf(bits: seq<BitFault>, bufsize: nat, W: nat): (half: seq<BitFault>)
    requires W >= 16 && W % 16 == 0 && |bits| == 8 * bufsize
    ensures |half| == BitsIn(HalfCount(bufsize, W), W)
  {
    HalvesFit(bufsize, W);
    bits[..BitsIn(HalfCount(bufsize, W), W)]
  }

  function SecondHalf(bits: seq<BitFault>, bufsize: nat, W: nat): (half: seq<BitFault>)
    requires W >= 16 && W % 16 == 0 && |bits| == 8 * bufsize
    ensures |half| == BitsIn(HalfCount(bufsize, W), W)
  {
    HalvesFit(bufsize, W);
    bits[8 * HalfLen(bufsize)..8 * HalfLen(bufsize) + BitsIn(HalfCount(bufsize, W), W)]
  }

  /** The whole words of the buffer. */
  function AllWords(bits: seq<BitFault>, bufsize: nat, W: nat): (words: seq<BitFault>)
    requires W >= 16 && W % 16 == 0 && |bits| == 8 * bufsize
    ensures |words| == BitsIn(WholeWords(bufsize, W), W)
  {
    HalvesFit(bufsize, W);
    bits[..BitsIn(WholeWords(bufsize, W), W)]
  }

  /** The two halves break the same bits in the same way. */
  predicate HalvesAlike(bits: seq<BitFault>, bufsize: nat, W: nat)
    requires W >= 16 && W % 16 == 0 && |bits| == 8 * bufsize
  {
    FirstHalf(bits, bufsize, W) == SecondHalf(bits, bufsize, W)
  }

  /** No bit of the whole words of the buffer is stuck. */
  predicate NothingStuck(bits: seq<BitFault>, bufsize: nat, W: nat)
    requires W >= 16 && W % 16 == 0 && |bits| == 8 * bufsize
  {
    AllFree(AllWords(bits, bufsize, W))
  }

  lemma {:induction false} WholeNumberOfWords(words: nat, W: nat)
    requires W >= 1
    ensures BitsIn(words, W) % W == 0
  {
    if words > 0 {
      WholeNumberOfWords(words - 1, W);
      DivModStep(BitsIn(words - 1, W), W);
    }
  }

  /** How many bits are in the whole words of so many bytes. */
  function WholeBits(bytes: nat, W: nat): (length: nat)
    requires W >= 1
    ensures length % W == 0 && length <= 8 * bytes < length + W
  {
    LargestMultiple(8 * bytes, W);
    8 * bytes - 8 * bytes % W
  }

  lemma LargestMultiple(n: nat, d: nat)
    requires d >= 1
    ensures 0 <= n - n % d <= n < n - n % d + d && (n - n % d) % d == 0
  {
    assert n == d * (n / d) + n % d;
    DivModUnique(n - n % d, d, n / d, 0);
  }

  /** So many whole words are in that many bytes. */
  lemma AllThatFit(bytes: nat, W: nat)
    requires W >= 8 && W % 8 == 0
    ensures BitsIn(bytes / (W / 8), W) == WholeBits(bytes, W)
  {
    var size := W / 8;
    var words := bytes / size;
    BitsOfBytes(words, size);
    WholeNumberOfWords(words, W);
    WholeMultiples(bytes, size);
    assert bytes == size * words + bytes % size;
    var length := BitsIn(words, W);
    assert length == W * (length / W);
    DivModUnique(8 * bytes, W, length / W, 8 * bytes - length);
  }

  /** The halves begin at byte 0 and at byte bufsize / 2, and each has all the whole words of bufsize / 2 bytes; Stuck
      Address has all the whole words of the buffer. */
  lemma HalvesCover(bits: seq<BitFault>, bufsize: nat, W: nat)
    requires W >= 16 && W % 16 == 0 && |bits| == 8 * bufsize
    ensures var half, length := 8 * (bufsize / 2), WholeBits(bufsize / 2, W);
            && length <= half && half + length <= |bits|
            && FirstHalf(bits, bufsize, W) == bits[..length]
            && SecondHalf(bits, bufsize, W) == bits[half..half + length]
    ensures WholeBits(bufsize, W) <= |bits| && AllWords(bits, bufsize, W) == bits[..WholeBits(bufsize, W)]
  {
    assert W % 8 == 0;
    AllThatFit(bufsize / 2, W);
    AllThatFit(bufsize, W);
  }

  predicate AllFree(bits: seq<BitFault>) {
    forall k :: 0 <= k < |bits| ==> bits[k] == Free
  }

  predicate OnlyStuckBit(bits: seq<BitFault>, k: nat) {
    k < |bits| && bits[k] != Free && forall j :: 0 <= j < |bits| && j != k ==> bits[j] == Free
  }

  /** Bit k is one of `length` bits from `start` on. */
  predicate Among(k: nat, start: nat, length: nat) {
    start <= k < start + length
  }

  /** One stuck bit anywhere: it is found by Stuck Address if it lies in a whole word of the buffer, and makes the halves
      differ if it lies in a whole word of one of them. */
  lemma OneStuckBit(bits: seq<BitFault>, bufsize: nat, W: nat, k: nat)
    requires W >= 16 && W % 16 == 0 && |bits| == 8 * bufsize && OnlyStuckBit(bits, k)
    ensures NothingStuck(bits, bufsize, W) <==> !Among(k, 0, WholeBits(bufsize, W))
    ensures HalvesAlike(bits, bufsize, W)
            <==> !Among(k, 0, WholeBits(bufsize / 2, W)) && !Among(k, 8 * (bufsize / 2), WholeBits(bufsize / 2, W))
  {
    HalvesCover(bits, bufsize, W);
    OneInPrefix(bits, k, WholeBits(bufsize, W));
    OneInHalves(bits, k, 8 * (bufsize / 2), WholeBits(bufsize / 2, W));
  }

  lemma OneInPrefix(bits: seq<BitFault>, k: nat, length: nat)
    requires OnlyStuckBit(bits, k) && length <= |bits|
    ensures AllFree(bits[..length]) <==> k >= length
  {
    if k < length {
      assert bits[..length][k] == bits[k];
    }
  }

  lemma OneInHalves(bits: seq<BitFault>, k: nat, half: nat, length: nat)
    requires OnlyStuckBit(bits, k) && length <= half && half + length <= |bits|
    ensures bits[..length] == bits[half..half + length] <==> k >= length && !(half <= k < half + length)
  {
    if k < length {
      assert bits[..length][k] == bits[k] && bits[half..half + length][k] == bits[half + k];
    } else if half <= k < half + length {
      assert bits[..length][k - half] == bits[k - half] && bits[half..half + length][k - half] == bits[k];
    }
  }

  /** The cells of each index have the same fault. */
  predicate RegionsAlike(fa: seq<Fault>, fb: seq<Fault>) {
    |fa| == |fb| && forall i :: 0 <= i < |fa| ==> SameFault(fa[i], fb[i])
  }

  /** Words are alike exactly when their bits are. */
  lemma WordsAlike(v: seq<BitFault>, w: seq<BitFault>)
    requires |v| == |w|
    ensures SameFault(WordFault(v), WordFault(w)) <==> v == w
  {
    var f, g := WordFault(v), WordFault(w);
    assert f.high - f.low == f.high && g.high - g.low == g.high;
    if SameFault(f, g) {
      forall b: nat | b < |v| ensures v[b] == w[b] {
        assert b in f.low <==> b in g.low;
        assert b in f.high <==> b in g.high;
      }
    }
  }

  /** Regions are alike exactly when their bits are. */
  lemma {:induction false} RegionsOfBits(s: seq<BitFault>, t: seq<BitFault>, W: nat, count: nat)
    requires W >= 1 && |s| == |t| == BitsIn(count, W)
    ensures |RegionFaults(s, W)| == |RegionFaults(t, W)| == count
    ensures RegionsAlike(RegionFaults(s, W), RegionFaults(t, W)) <==> s == t
  {
    if count > 0 {
      RegionsOfBits(s[W..], t[W..], W, count - 1);
      RegionStep(s, t, W);
    }
  }

  lemma RegionStep(s: seq<BitFault>, t: seq<BitFault>, W: nat)
    requires 1 <= W <= |s| == |t|
    requires |RegionFaults(s[W..], W)| == |RegionFaults(t[W..], W)|
    requires RegionsAlike(RegionFaults(s[W..], W), RegionFaults(t[W..], W)) <==> s[W..] == t[W..]
    ensures |RegionFaults(s, W)| == |RegionFaults(t, W)| == 1 + |RegionFaults(s[W..], W)|
    ensures RegionsAlike(RegionFaults(s, W), RegionFaults(t, W)) <==> s == t
  {
    WordsAlike(s[..W], t[..W]);
    assert s == s[..W] + s[W..] && t == t[..W] + t[W..];
    PrependAlike(WordFault(s[..W]), RegionFaults(s[W..], W), WordFault(t[..W]), RegionFaults(t[W..], W));
  }

  lemma PrependAlike(f: Fault, fa: seq<Fault>, g: Fault, fb: seq<Fault>)
    requires |fa| == |fb|
    ensures RegionsAlike([f] + fa, [g] + fb) <==> SameFault(f, g) && RegionsAlike(fa, fb)
  {
    if RegionsAlike([f] + fa, [g] + fb) {
      assert SameFault(([f] + fa)[0], ([g] + fb)[0]);
      forall i | 0 <= i < |fa| ensures SameFault(fa[i], fb[i]) {
        assert SameFault(([f] + fa)[i + 1], ([g] + fb)[i + 1]);
      }
    }
  }

  predicate NoStuckWord(fs: seq<Fault>) {
    forall i :: 0 <= i < |fs| ==> StuckAddress.NoStuckBit(fs[i])
  }

  /** The words of a region have no stuck bit exactly when all its bits are free. */
  lemma {:induction false} FreeRegion(bits: seq<BitFault>, W: nat, count: nat)
    requires W >= 1 && |bits| == BitsIn(count, W)
    ensures |RegionFaults(bits, W)| == count
    ensures AllFree(bits) <==> NoStuckWord(RegionFaults(bits, W))
  {
    if count > 0 {
      FreeRegion(bits[W..], W, count - 1);
      FreeWord(bits[..W]);
      var f, fs := WordFault(bits[..W]), RegionFaults(bits[W..], W);
      FreeAppend(bits[..W], bits[W..]);
      assert bits == bits[..W] + bits[W..];
      if NoStuckWord([f] + fs) {
        assert StuckAddress.NoStuckBit(([f] + fs)[0]);
        forall i | 0 <= i < |fs| ensures StuckAddress.NoStuckBit(fs[i]) {
          assert StuckAddress.NoStuckBit(([f] + fs)[i + 1]);
        }
      }
    }
  }

  lemma FreeAppend(front: seq<BitFault>, back: seq<BitFault>)
    ensures AllFree(front + back) <==> AllFree(front) && AllFree(back)
  {
    if AllFree(front + back) {
      forall k | 0 <= k < |front| ensures front[k] == Free {
        assert (front + back)[k] == front[k];
      }
      forall k | 0 <= k < |back| ensures back[k] == Free {
        assert (front + back)[|front| + k] == back[k];
      }
    }
  }

  lemma FreeWord(word: seq<BitFault>)
    ensures AllFree(word) <==> StuckAddress.NoStuckBit(WordFault(word))
  {
    var f := WordFault(word);
    if f.low == {} && f.high == {} {
      forall b: nat | b < |word| ensures word[b] == Free {
        assert b !in f.low && b !in f.high;
      }
    }
  }

  /** test_xor_comparison to test_and_comparison: the same update on both halves, then compare. */
  method CompareTest(op: Operator, q: Word, W: nat, bufa: array<Word>, fa: seq<Fault>, bufb: array<Word>,
                     fb: seq<Fault>, count: nat) returns (r: int)
    requires bufa.Length == bufb.Length == |fa| == |fb| == count && bufa != bufb
    modifies bufa, bufb
    ensures forall i :: 0 <= i < count ==> bufa[i] == Apply(op, Sense(fa[i], old(bufa[i])), q, W)
    ensures forall i :: 0 <= i < count ==> bufb[i] == Apply(op, Sense(fb[i], old(bufb[i])), q, W)
    ensures r == 0 <==> forall i :: 0 <= i < count ==> Sense(fa[i], bufa[i]) == Sense(fb[i], bufb[i])
    ensures RegionsAlike(fa, fb) && old(bufa[..]) == old(bufb[..]) ==> r == 0 && bufa[..] == bufb[..]
  {
    for i := 0 to count
      invariant forall k :: 0 <= k < i ==> bufa[k] == Apply(op, Sense(fa[k], old(bufa[k])), q, W)
      invariant forall k :: 0 <= k < i ==> bufb[k] == Apply(op, Sense(fb[k], old(bufb[k])), q, W)
      invariant forall k :: i <= k < count ==> bufa[k] == old(bufa[k]) && bufb[k] == old(bufb[k])
    {
      bufa[i] := Apply(op, Sense(fa[i], bufa[i]), q, W);
      bufb[i] := Apply(op, Sense(fb[i], bufb[i]), q, W);
    }
    r := CompareRegions(bufa, fa, bufb, fb, count);
    if RegionsAlike(fa, fb) && old(bufa[..]) == old(bufb[..]) {
      forall i | 0 <= i < count ensures bufa[i] == bufb[i] && Sense(fa[i], bufa[i]) == Sense(fb[i], bufb[i]) {
        assert old(bufa[..])[i] == old(bufb[..])[i];
        SameFaultsSenseAlike(fa[i], fb[i], old(bufa[i]));
        SameFaultsSenseAlike(fa[i], fb[i], bufa[i]);
      }
    }
  }

  /** test_random_value and test_seqinc_comparison: fill both halves with the same words, then compare. */
  method FillTest(words: seq<Word>, bufa: array<Word>, fa: seq<Fault>, bufb: array<Word>, fb: seq<Fault>,
                  count: nat) returns (r: int)
    requires bufa.Length == bufb.Length == |fa| == |fb| == |words| == count && bufa != bufb
    modifies bufa, bufb
    ensures bufa[..] == words && bufb[..] == words
    ensures r == 0 <==> SensedAlike(fa, fb, words)
    ensures RegionsAlike(fa, fb) ==> r == 0
  {
    for i := 0 to count
      invariant forall k :: 0 <= k < i ==> bufa[k] == bufb[k] == words[k]
    {
      bufb[i] := words[i];
      bufa[i] := words[i];
    }
    r := CompareRegions(bufa, fa, bufb, fb, count);
    if RegionsAlike(fa, fb) {
      AlikeSensedAlike(fa, fb, words);
    }
  }

  /** A cell after a store of `size` of its bits: piece k of the word w. */
  function Narrow(cell: Word, w: Word, size: nat, k: nat, W: nat): Word
    requires size >= 1
  {
    set b | b in Ones(W) && if b / size == k then b in w else b in cell
  }

  /** The inner loop of the narrow-write tests: the pieces of a word, one after another, make the word. */
  method StorePieces(w: Word, size: nat, W: nat, buf: array<Word>, i: nat)
    requires size >= 1 && W % size == 0 && W >= size && w <= Ones(W) && i < buf.Length
    modifies buf
    ensures buf[..] == old(buf[..])[i := w]
  {
    for k := 0 to W / size
      invariant forall j :: 0 <= j < buf.Length && j != i ==> buf[j] == old(buf[j])
      invariant buf[i] == if k == 0 then old(buf[i]) else FirstPieces(old(buf[i]), w, size, k, W)
    {
      NextPiece(old(buf[i]), w, size, k, W);
      buf[i] := Narrow(buf[i], w, size, k, W);
    }
    AllPieces(old(buf[i]), w, size, W);
  }

  /** The cell after the stores of the first k pieces. */
  function FirstPieces(cell: Word, w: Word, size: nat, k: nat, W: nat): Word
    requires size >= 1
  {
    set b | b in Ones(W) && if b / size < k then b in w else b in cell
  }

  lemma NextPiece(cell: Word, w: Word, size: nat, k: nat, W: nat)
    requires size >= 1
    ensures Narrow(FirstPieces(cell, w, size, k, W), w, size, k, W) == FirstPieces(cell, w, size, k + 1, W)
    ensures k == 0 ==> Narrow(cell, w, size, k, W) == FirstPieces(cell, w, size, k + 1, W)
  {
  }

  lemma AllPieces(cell: Word, w: Word, size: nat, W: nat)
    requires size >= 1 && W % size == 0 && w <= Ones(W)
    ensures FirstPieces(cell, w, size, W / size, W) == w
  {
    forall b | b in Ones(W) ensures b / size < W / size {
      QuotientBelow(b, size, W / size);
    }
  }

  /** One attempt of a narrow-write test: whole words to one half, their pieces to the other. */
  method NarrowFill(words: seq<Word>, size: nat, W: nat, narrow: array<Word>, wide: array<Word>, count: nat)
    requires size >= 1 && W % size == 0 && W >= size && narrow != wide
    requires narrow.Length == wide.Length == |words| == count && forall k :: 0 <= k < count ==> words[k] <= Ones(W)
    modifies narrow, wide
    ensures narrow[..] == wide[..] == words
  {
    for i := 0 to count
      invariant forall k :: 0 <= k < i ==> narrow[k] == wide[k] == words[k]
    {
      wide[i] := words[i];
      ghost var before := narrow[..];
      StorePieces(words[i], size, W, narrow, i);
      assert forall k :: 0 <= k < i ==> narrow[..][k] == before[k];
    }
  }

  /** test_8bit_wide_random and test_16bit_wide_random pass exactly when the two cells of each index return the same for
      the word of the first attempt and for that of the second. */
  method NarrowTest(first: seq<Word>, second: seq<Word>, size: nat, W: nat, bufa: array<Word>, fa: seq<Fault>,
                    bufb: array<Word>, fb: seq<Fault>, count: nat) returns (r: int, used: nat)
    requires size >= 1 && W % size == 0 && W >= size
    requires bufa.Length == bufb.Length == |fa| == |fb| == |first| == |second| == count && bufa != bufb
    requires forall k :: 0 <= k < count ==> first[k] <= Ones(W) && second[k] <= Ones(W)
    modifies bufa, bufb
    ensures r == 0 <==> SensedAlike(fa, fb, first) && SensedAlike(fa, fb, second)
    ensures r == 0 ==> bufa[..] == bufb[..] == second && used == 2 * count
    ensures RegionsAlike(fa, fb) ==> r == 0
  {
    if RegionsAlike(fa, fb) {
      AlikeSensedAlike(fa, fb, first);
      AlikeSensedAlike(fa, fb, second);
    }
    NarrowFill(first, size, W, bufb, bufa, count);
    assert forall i :: 0 <= i < count ==> bufa[i] == bufb[i] == first[i];
    r := CompareRegions(bufa, fa, bufb, fb, count);
    if r != 0 {
      return r, count;
    }
    NarrowFill(second, size, W, bufa, bufb, count);
    assert forall i :: 0 <= i < count ==> bufa[i] == bufb[i] == second[i];
    r := CompareRegions(bufa, fa, bufb, fb, count);
    used := 2 * count;
  }

  /** The two cells of every index return the same when they hold the same of these words. */
  predicate SensedAlike(fa: seq<Fault>, fb: seq<Fault>, words: seq<Word>)
    requires |fa| == |fb| == |words|
  {
    forall i :: 0 <= i < |words| ==> Sense(fa[i], words[i]) == Sense(fb[i], words[i])
  }

  lemma AlikeSensedAlike(fa: seq<Fault>, fb: seq<Fault>, words: seq<Word>)
    requires |fa| == |fb| == |words| && RegionsAlike(fa, fb)
    ensures SensedAlike(fa, fb, words)
  {
    forall i | 0 <= i < |words| ensures Sense(fa[i], words[i]) == Sense(fb[i], words[i]) {
      SameFaultsSenseAlike(fa[i], fb[i], words[i]);
    }
  }

  /** So many random W-bit words. */
  function RandomWords(rand: nat -> Word, next: nat, count: nat, W: nat): (words: seq<Word>)
    ensures |words| == count && forall k :: 0 <= k < count ==> words[k] == rand(next + k) * Ones(W) <= Ones(W)
  {
    seq(count, i requires 0 <= i => rand(next + i) * Ones(W))
  }

  /** No index shows a difference in this pattern test. */
  predicate AllCellsAgree(p: Pattern, W: nat, fa: seq<Fault>, fb: seq<Fault>)
    requires |fa| == |fb|
  {
    forall i :: 0 <= i < |fa| ==> CellsAgree(p, W, i, fa[i], fb[i])
  }

  lemma PatternMeaning(p: Pattern, W: nat, fa: seq<Fault>, fb: seq<Fault>)
    requires WideEnough(p, W) && |fa| == |fb| && ValidRegion(fa, W) && ValidRegion(fb, W)
    ensures RegionsAlike(fa, fb) ==> AllCellsAgree(p, W, fa, fb)
    ensures StuckRegion(fa, W) && StuckRegion(fb, W) ==> (AllCellsAgree(p, W, fa, fb) <==> RegionsAlike(fa, fb))
  {
    if RegionsAlike(fa, fb) {
      forall i, j | 0 <= i < |fa| && 0 <= j < Passes(p, W)
        ensures Sense(fa[i], Written(p, W, j, i)) == Sense(fb[i], Written(p, W, j, i))
      {
        SameFaultsSenseAlike(fa[i], fb[i], Written(p, W, j, i));
      }
    } else if StuckRegion(fa, W) && StuckRegion(fb, W) {
      var i :| 0 <= i < |fa| && !SameFault(fa[i], fb[i]);
      PatternsCatchStuckBits(p, W, i, fa[i], fb[i]);
    }
  }

  /** Whatever the faults are, stuck bits or shorts, the two walking tests find every difference. */
  lemma WalksTellRegionsApart(W: nat, fa: seq<Fault>, fb: seq<Fault>)
    requires W >= 3 && |fa| == |fb| && ValidRegion(fa, W) && ValidRegion(fb, W)
    ensures AllCellsAgree(WalkingOnes, W, fa, fb) && AllCellsAgree(WalkingZeroes, W, fa, fb) <==> RegionsAlike(fa, fb)
  {
    forall i | 0 <= i < |fa|
      ensures CellsAgree(WalkingZeroes, W, i, fa[i], fb[i]) && CellsAgree(WalkingOnes, W, i, fa[i], fb[i])
              <==> SameFault(fa[i], fb[i])
    {
      BothWalksIdentifyFaults(W, i, fa[i], fb[i]);
    }
  }

  /** The word stands for i more than q, modulo 2^W. */
  predicate Follows(w: Word, i: nat, q: Word, W: nat) {
    ToNat(w, W) == (i + ToNat(q, W)) % Pow2(W)
  }

  /** `i + q` for every index. */
  function Increasing(q: Word, count: nat, W: nat): (words: seq<Word>)
    ensures |words| == count && forall i :: 0 <= i < count ==> Follows(words[i], i, q, W)
  {
    var words := seq(count, i requires 0 <= i => Add(FromNat(i, W), q, W));
    forall i | 0 <= i < count ensures Follows(words[i], i, q, W) {
      AddFollows(i, q, W);
    }
    words
  }

  lemma AddFollows(i: nat, q: Word, W: nat)
    ensures Follows(Add(FromNat(i, W), q, W), i, q, W)
  {
    AddModulo(FromNat(i, W), q, W);
    NatRoundTrip(i, W);
    ReduceFirst(i, ToNat(q, W), Pow2(W));
  }

  lemma ReduceFirst(m: nat, n: nat, p: nat)
    requires p >= 1
    ensures (m % p + n) % p == (m + n) % p
  {
    var k, r := m / p, (m % p + n) % p;
    var d := (m % p + n) / p;
    assert m == p * k + m % p && m % p + n == p * d + r;
    assert p * (k + d) == p * k + p * d;
    DivModUnique(m + n, p, k + d, r);
  }

  /** One entry of the table. `rand` is the stream of random words and `next` the position reached in it. */
  method RunTest(t: Test, W: nat, bufa: array<Word>, fa: seq<Fault>, bufb: array<Word>, fb: seq<Fault>, count: nat,
                 rand: nat -> Word, next: nat) returns (r: int, next': nat)
    requires W >= 16 && W % 16 == 0
    requires bufa.Length == bufb.Length == |fa| == |fb| == count && bufa != bufb
    requires ValidRegion(fa, W) && ValidRegion(fb, W)
    requires t.NarrowWrites? ==> t.size == 8 || t.size == 16
    modifies bufa, bufb
    ensures RegionsAlike(fa, fb) && (t.Compare? ==> old(bufa[..]) == old(bufb[..])) ==> r == 0
    ensures RegionsAlike(fa, fb) && !t.Patterned? && (t.Compare? ==> old(bufa[..]) == old(bufb[..]))
            ==> bufa[..] == bufb[..]
    ensures t.Patterned? ==> (r == 0 <==> AllCellsAgree(t.p, W, fa, fb))
    ensures t.Patterned? && StuckRegion(fa, W) && StuckRegion(fb, W) ==> (r == 0 <==> RegionsAlike(fa, fb))
    ensures t.RandomValue? || t.SequentialIncrement? || t.Compare?
            ==> (r == 0 <==> forall i :: 0 <= i < count ==> Sense(fa[i], bufa[i]) == Sense(fb[i], bufb[i]))
    ensures t.RandomValue?
            ==> next' == next + count && forall i :: 0 <= i < count ==> bufa[i] == bufb[i] == rand(next + i)
    ensures t.SequentialIncrement?
            ==> next' == next + 1 && forall i :: 0 <= i < count ==> bufa[i] == bufb[i] && Follows(bufa[i], i, rand(next), W)
    ensures t.Compare?
            ==> next' == next + 1
                && forall i :: 0 <= i < count ==> bufa[i] == Apply(t.op, Sense(fa[i], old(bufa[i])), rand(next), W)
                                                  && bufb[i] == Apply(t.op, Sense(fb[i], old(bufb[i])), rand(next), W)
    ensures t.NarrowWrites?
            ==> (r == 0 <==> SensedAlike(fa, fb, RandomWords(rand, next, count, W))
                             && SensedAlike(fa, fb, RandomWords(rand, next + count, count, W)))
  {
    match t
    case RandomValue =>
      var words := seq(count, i requires 0 <= i => rand(next + i));
      r := FillTest(words, bufa, fa, bufb, fb, count);
      assert forall i :: 0 <= i < count ==> bufa[..][i] == bufb[..][i] == words[i];
      next' := next + count;
    case Compare(op) =>
      r := CompareTest(op, rand(next), W, bufa, fa, bufb, fb, count);
      next' := next + 1;
    case SequentialIncrement =>
      r := FillTest(Increasing(rand(next), count, W), bufa, fa, bufb, fb, count);
      next' := next + 1;
    case Patterned(p) =>
      r := RunPattern(p, W, bufa, fa, bufb, fb, count);
      PatternMeaning(p, W, fa, fb);
      next' := next;
    case NarrowWrites(size) =>
      assert W % 8 == 0;
      var used;
      r, used := NarrowTest(RandomWords(rand, next, count, W), RandomWords(rand, next + count, count, W), size, W,
                            bufa, fa, bufb, fb, count);
      next' := next + used;
  }

  /** The inner loop of main: every test of the table once. */
  method RunTable(W: nat, bufa: array<Word>, fa: seq<Fault>, bufb: array<Word>, fb: seq<Fault>, count: nat,
                  rand: nat -> Word, start: nat, over: (nat, nat) -> Word) returns (failed: bool, next: nat)
    requires W >= 16 && W % 16 == 0
    requires bufa.Length == bufb.Length == |fa| == |fb| == count && bufa != bufb
    requires ValidRegion(fa, W) && ValidRegion(fb, W)
    modifies bufa, bufb
    ensures failed <==> !RegionsAlike(fa, fb)
  {
    failed, next := false, start;
    for i := 0 to |Tests(over)|
      invariant RegionsAlike(fa, fb) ==> !failed
      invariant RegionsAlike(fa, fb) && 0 < i <= 8 ==> bufa[..] == bufb[..]
      invariant i > 13 && !AllCellsAgree(WalkingOnes, W, fa, fb) ==> failed
      invariant i > 14 && !AllCellsAgree(WalkingZeroes, W, fa, fb) ==> failed
    {
      var r;
      r, next := RunTest(Tests(over)[i], W, bufa, fa, bufb, fb, count, rand, next);
      if r != 0 {
        failed := true;
      }
    }
    WalksTellRegionsApart(W, fa, fb);
  }

  /** The outer loop of main. */
  method RunLoops(W: nat, base: nat, cells: array<Word>, decode: seq<nat>, faults: seq<Fault>,
                  bufa: array<Word>, fa: seq<Fault>, bufb: array<Word>, fb: seq<Fault>,
                  loops: nat, rand: nat -> Word, over: (nat, nat) -> Word) returns (exitCode: bv8)
    requires loops >= 1 && W >= 16 && W % 16 == 0
    requires StuckAddress.Wiring(decode, faults, W, |decode|) && StuckAddress.GoodBuffer(base, W, |decode|)
    requires cells.Length == |faults|
    requires bufa.Length == bufb.Length == |fa| == |fb| && bufa != bufb && cells != bufa && cells != bufb
    requires ValidRegion(fa, W) && ValidRegion(fb, W)
    modifies cells, bufa, bufb
    ensures exitCode == ExitCode(StuckAddress.Sound(decode, faults, W, |decode|), RegionsAlike(fa, fb))
  {
    exitCode := 0;
    var next := 0;
    for loop := 0 to loops
      invariant exitCode == if loop == 0 then 0
                            else ExitCode(StuckAddress.Sound(decode, faults, W, |decode|), RegionsAlike(fa, fb))
    {
      var r := StuckAddress.TestStuckAddress(cells, decode, faults, base, W, |decode|);
      if r != 0 {
        exitCode := exitCode | EXIT_FAIL_ADDRESSLINES;
      }
      var failed;
      failed, next := RunTable(W, bufa, fa, bufb, fb, bufa.Length, rand, next, over);
      if failed {
        exitCode := exitCode | EXIT_FAIL_OTHERTEST;
      }
    }
  }

  function ExitCode(addressesOk: bool, testsOk: bool): bv8 {
    (if addressesOk then 0 else EXIT_FAIL_ADDRESSLINES) | (if testsOk then 0 else EXIT_FAIL_OTHERTEST)
  }

  /** main from the split of the buffer on: for any stuck bits, any buffer size, any random numbers and any positive
      number of loops the exit code reports exactly the two kinds of finding. Without a fault it is 0. With one stuck bit it
      is the sum of 2, if the bit lies in a whole word of the buffer, and 4, if it lies in a whole word of a half. */
  method RunMemtester(W: nat, base: nat, bufsize: nat, bits: seq<BitFault>, loops: nat, rand: nat -> Word,
                      over: (nat, nat) -> Word) returns (exitCode: bv8)
    requires loops >= 1
    requires W >= 16 && W % 16 == 0 && |bits| == 8 * bufsize
    requires base % (W / 8) == 0 && base + bufsize <= Pow2(W)
    ensures exitCode == ExitCode(NothingStuck(bits, bufsize, W), HalvesAlike(bits, bufsize, W))
    ensures AllFree(bits) ==> exitCode == 0
    ensures forall k :: OnlyStuckBit(bits, k) ==>
              exitCode == (if Among(k, 0, WholeBits(bufsize, W)) then 2 else 0)
                          + (if Among(k, 0, WholeBits(bufsize / 2, W)) || Among(k, 8 * (bufsize / 2), WholeBits(bufsize / 2, W)) then 4 else 0)
  {
    if AllFree(bits) {
      FaultFreeMemoryExitsZero(W, bufsize, bits);
    }
    forall k | OnlyStuckBit(bits, k)
      ensures NothingStuck(bits, bufsize, W) <==> !Among(k, 0, WholeBits(bufsize, W))
      ensures HalvesAlike(bits, bufsize, W)
              <==> !Among(k, 0, WholeBits(bufsize / 2, W)) && !Among(k, 8 * (bufsize / 2), WholeBits(bufsize / 2, W))
    {
      OneStuckBit(bits, bufsize, W, k);
    }
    WholeBufferFits(base, bufsize, W);
    exitCode := RunOnWords(W, base, AllWords(bits, bufsize, W), WholeWords(bufsize, W), FirstHalf(bits, bufsize, W),
                           SecondHalf(bits, bufsize, W), HalfCount(bufsize, W), loops, rand, over);
  }

  lemma WholeBufferFits(base: nat, bufsize: nat, W: nat)
    requires W >= 16 && W % 16 == 0
    requires base % (W / 8) == 0 && base + bufsize <= Pow2(W)
    ensures StuckAddress.GoodBuffer(base, W, WholeWords(bufsize, W))
  {
    var size, words := W / 8, WholeWords(bufsize, W);
    WholeMultiples(bufsize, size);
    assert words * size == size * words;
  }

  method RunOnWords(W: nat, base: nat, buffer: seq<BitFault>, whole: nat, firstHalf: seq<BitFault>,
                    secondHalf: seq<BitFault>, count: nat, loops: nat, rand: nat -> Word,
                    over: (nat, nat) -> Word) returns (exitCode: bv8)
    requires loops >= 1 && W >= 16 && W % 16 == 0
    requires StuckAddress.GoodBuffer(base, W, whole)
    requires |buffer| == BitsIn(whole, W) && |firstHalf| == |secondHalf| == BitsIn(count, W)
    ensures exitCode == ExitCode(AllFree(buffer), firstHalf == secondHalf)
  {
    var faults, fa, fb := RegionFaults(buffer, W), RegionFaults(firstHalf, W), RegionFaults(secondHalf, W);
    FreeRegion(buffer, W, whole);
    RegionsOfBits(firstHalf, secondHalf, W, count);
    var cells := new Word[whole](_ => {});
    var bufa := new Word[count](_ => {});
    var bufb := new Word[count](_ => {});
    var decode := seq(whole, i requires 0 <= i => i);
    WiringIsSound(decode, faults, W);
    exitCode := RunLoops(W, base, cells, decode, faults, bufa, fa, bufb, fb, loops, rand, over);
  }

  /** With every address line in order, Stuck Address reports exactly that some bit is stuck. */
  lemma WiringIsSound(decode: seq<nat>, faults: seq<Fault>, W: nat)
    requires |decode| == |faults| && forall i :: 0 <= i < |decode| ==> decode[i] == i
    requires StuckRegion(faults, W)
    ensures StuckAddress.Wiring(decode, faults, W, |decode|)
    ensures StuckAddress.Sound(decode, faults, W, |decode|)
            <==> NoStuckWord(faults)
  {
    if StuckAddress.Sound(decode, faults, W, |decode|) {
      forall i | 0 <= i < |faults| ensures StuckAddress.NoStuckBit(faults[i]) {
        assert StuckAddress.NoStuckBit(faults[decode[i]]);
      }
    }
  }

  /** Memory without a fault ends with exit code 0. */
  lemma FaultFreeMemoryExitsZero(W: nat, bufsize: nat, bits: seq<BitFault>)
    requires W >= 16 && W % 16 == 0 && |bits| == 8 * bufsize
    requires AllFree(bits)
    ensures ExitCode(NothingStuck(bits, bufsize, W), HalvesAlike(bits, bufsize, W)) == 0
  {
    HalvesFit(bufsize, W);
    FreeSlice(bits, 0, BitsIn(WholeWords(bufsize, W), W));
    FreeSlice(bits, 0, BitsIn(HalfCount(bufsize, W), W));
    FreeSlice(bits, 8 * HalfLen(bufsize), BitsIn(HalfCount(bufsize, W), W));
  }

  lemma FreeSlice(bits: seq<BitFault>, at: nat, length: nat)
    requires AllFree(bits) && at + length <= |bits|
    ensures bits[at..at + length] == seq(length, _ => Free)
  {
    var part := bits[at..at + length];
    forall k | 0 <= k < |part| ensures part[k] == Free {
      assert part[k] == bits[at + k];
    }
  }
}
