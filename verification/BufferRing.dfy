/** netperf's ring of aligned buffers. */
module BufferRings {
  import opened Arithmetic
  import opened Pigeonhole

  // ----- alignment -----

  /** x & ~m */
  function AndNot(x: nat, m: nat): (r: nat)
    ensures r <= x <= r + m
  {
    if x == 0 then 0 else 2 * AndNot(x / 2, m / 2) + if x % 2 == 1 && m % 2 == 0 then 1 else 0
  }

  predicate IsPowerOfTwo(n: nat) {
    n == 1 || (n > 1 && n % 2 == 0 && IsPowerOfTwo(n / 2))
  }

  /** `(base + alignment - 1) & ~(alignment - 1)`; an alignment of 0 leaves no bit. */
  function AlignUp(base: nat, alignment: nat): nat {
    if alignment == 0 then 0 else AndNot(base + alignment - 1, alignment - 1)
  }

  /** With any alignment but 0 the aligned address is less than `alignment` above the base. */
  lemma AlignedNearBase(base: nat, alignment: nat)
    requires alignment >= 1
    ensures base <= AlignUp(base, alignment) < base + alignment
  {
  }

  lemma {:induction false} MaskRemovesRemainder(x: nat, alignment: nat)
    requires IsPowerOfTwo(alignment)
    ensures AndNot(x, alignment - 1) == x - x % alignment
    decreases alignment
  {
    if alignment == 1 {
      KeepsAll(x);
    } else {
      var half := alignment / 2;
      assert (alignment - 1) / 2 == half - 1 && (alignment - 1) % 2 == 1;
      MaskRemovesRemainder(x / 2, half);
      HalvedRemainder(x, half);
    }
  }

  lemma {:induction false} KeepsAll(x: nat)
    ensures AndNot(x, 0) == x
  {
    if x > 0 {
      KeepsAll(x / 2);
    }
  }

  lemma HalvedRemainder(x: nat, half: nat)
    requires half >= 1
    ensures x % (2 * half) == 2 * (x / 2 % half) + x % 2
  {
    var q, r := x / 2 / half, x / 2 % half;
    assert x / 2 == half * q + r;
    assert x == 2 * half * q + (2 * r + x % 2);
    DivModUnique(x, 2 * half, q, 2 * r + x % 2);
  }

  /** With a power of two the aligned address is the least multiple at or above the base. */
  lemma LeastMultiple(base: nat, alignment: nat, other: nat)
    requires IsPowerOfTwo(alignment)
    ensures AlignUp(base, alignment) % alignment == 0
    ensures other >= base && other % alignment == 0 ==> other >= AlignUp(base, alignment)
  {
    var x, aligned := base + alignment - 1, AlignUp(base, alignment);
    MaskRemovesRemainder(x, alignment);
    assert aligned == x - x % alignment;
    WholePart(x, alignment);
    if other >= base && other % alignment == 0 {
      NoneBetween(x, alignment, other);
    }
  }

  lemma NoneBetween(x: nat, d: nat, other: nat)
    requires d >= 1 && x < other + d && other % d == 0
    ensures other >= x - x % d
  {
    WholePart(x, d);
    WholePart(other, d);
    NoMultipleBetween(x, d, other / d);
  }

  lemma WholePart(x: nat, d: nat)
    requires d >= 1
    ensures x - x % d == d * (x / d) && (x - x % d) % d == 0
  {
    DivModUnique(d * (x / d), d, x / d, 0);
  }

  lemma NoMultipleBetween(x: nat, d: nat, m: nat)
    requires d >= 1 && x < d * m + d
    ensures d * (x / d) <= d * m
  {
    assert d * (m + 1) == d * m + d;
    QuotientBelow(x, d, m + 1);
    assert d * m == d * (x / d) + d * (m - x / d);
    if m > x / d {
      MultipleAtLeast(d, m - x / d);
    }
  }

  /** The lowest bit of a number. */
  lemma {:induction false} LowestBit(a: nat)
    requires a >= 1
    ensures 1 <= AndNot(a, a - 1) <= a && IsPowerOfTwo(AndNot(a, a - 1))
  {
    var h := a / 2;
    if a % 2 == 1 {
      assert (a - 1) / 2 == h;
      NothingLeft(h);
    } else {
      assert (a - 1) / 2 == h - 1 && (a - 1) % 2 == 1;
      LowestBit(h);
    }
  }

  lemma {:induction false} NothingLeft(x: nat)
    ensures AndNot(x, x) == 0
  {
    if x > 0 {
      NothingLeft(x / 2);
    }
  }

  ghost predicate AlwaysAligns(alignment: nat) {
    alignment >= 1 && forall base: nat :: AlignUp(base, alignment) % alignment == 0
  }

  /** The mask aligns every address exactly when the alignment is a power of two: for any other, an address of 1 goes to
      the alignment's lowest bit, which is not a multiple of it. */
  lemma AlignsExactly(alignment: nat)
    ensures AlwaysAligns(alignment) <==> IsPowerOfTwo(alignment)
  {
    if IsPowerOfTwo(alignment) {
      forall base: nat ensures AlignUp(base, alignment) % alignment == 0 {
        LeastMultiple(base, alignment, 0);
      }
    } else if alignment >= 1 {
      LowestBit(alignment);
      var bit := AlignUp(1, alignment);
      assert bit < alignment;
      DivModUnique(bit, alignment, 0, bit);
    }
  }

  /** An alignment of 6 moves the address 1 to 2. */
  lemma SixDoesNotAlign()
    ensures AlignUp(1, 6) == 2 && 2 % 6 != 0
  {
    assert AndNot(6, 5) == 2 * AndNot(3, 2);
    assert AndNot(3, 2) == 2 * AndNot(1, 1) + 1 && AndNot(1, 1) == 2 * AndNot(0, 0);
  }

  // ----- the ring -----

  class RingElt {
    var next: RingElt?
    var bufferBase: nat
    var bufferPtr: nat

    constructor (bufferBase: nat)
      ensures this.bufferBase == bufferBase && next == null
    {
      this.bufferBase, bufferPtr, next := bufferBase, 0, null;
    }
  }

  /** The elements in the order they were made, each pointing back to the one before it and the first to the last. */
  ghost predicate Ring(nodes: seq<RingElt>)
    reads nodes
  {
    && nodes != [] && Distinct(nodes) && Chain(nodes)
    && nodes[0].next == nodes[|nodes| - 1]
  }

  ghost predicate Chain(nodes: seq<RingElt>)
    reads nodes
  {
    forall i :: 0 < i < |nodes| ==> nodes[i].next == nodes[i - 1]
  }

  /** The buffers that malloc gave, and where the data starts in each. */
  ghost predicate Buffers(nodes: seq<RingElt>, bases: seq<nat>, alignment: nat, offset: nat)
    reads nodes
  {
    |nodes| <= |bases| && forall i :: 0 <= i < |nodes| ==>
                                        nodes[i].bufferBase == bases[i]
                                        && nodes[i].bufferPtr == AlignUp(bases[i], alignment) + offset
  }

  /** `bases` are the addresses that malloc returns. */
  method AllocateBufferRing(width: nat, alignment: nat, offset: nat, bases: seq<nat>)
    returns (first: RingElt, ghost nodes: seq<RingElt>)
    requires width >= 1 && |bases| == width
    ensures |nodes| == width && first == nodes[0] && Ring(nodes) && Buffers(nodes, bases, alignment, offset)
    ensures IsPowerOfTwo(alignment) ==> forall i :: 0 <= i < width ==> BehindBoundary(nodes[i], bases[i], alignment, offset)
    ensures fresh(nodes)
  {
    nodes := [];
    var prevLink: RingElt? := null;
    var firstLink: RingElt? := null;
    for i := 0 to width
      invariant |nodes| == i && fresh(nodes) && Distinct(nodes) && Chain(nodes)
      invariant i > 0 ==> firstLink == nodes[0] && prevLink == nodes[i - 1]
      invariant Buffers(nodes, bases, alignment, offset)
    {
      var link := new RingElt(bases[i]);
      if i == 0 {
        firstLink := link;
      }
      link.bufferPtr := AlignUp(link.bufferBase, alignment);
      link.bufferPtr := link.bufferPtr + offset;
      link.next := prevLink;
      prevLink := link;
      nodes := nodes + [link];
    }
    first := firstLink;
    first.next := prevLink;
    AllBehindBoundary(nodes, bases, alignment, offset);
  }

  /** The data begins `offset` bytes behind the first boundary that is not below the base. */
  predicate BehindBoundary(node: RingElt, base: nat, alignment: nat, offset: nat)
    requires alignment >= 1
    reads node
  {
    && node.bufferBase == base
    && node.bufferPtr >= offset && (node.bufferPtr - offset) % alignment == 0
    && base <= node.bufferPtr - offset < base + alignment
  }

  lemma AllBehindBoundary(nodes: seq<RingElt>, bases: seq<nat>, alignment: nat, offset: nat)
    requires Buffers(nodes, bases, alignment, offset)
    ensures IsPowerOfTwo(alignment) ==>
              forall i :: 0 <= i < |nodes| ==> BehindBoundary(nodes[i], bases[i], alignment, offset)
  {
    if IsPowerOfTwo(alignment) {
      forall i | 0 <= i < |nodes| ensures BehindBoundary(nodes[i], bases[i], alignment, offset) {
        LeastMultiple(bases[i], alignment, 0);
        AlignedNearBase(bases[i], alignment);
      }
    }
  }

  /** The data of every buffer lies inside what was allocated for it. */
  lemma DataInsideAllocation(nodes: seq<RingElt>, bases: seq<nat>, size: nat, alignment: nat, offset: nat, i: nat)
    requires Buffers(nodes, bases, alignment, offset) && alignment >= 1 && i < |nodes|
    ensures nodes[i].bufferBase <= nodes[i].bufferPtr
    ensures nodes[i].bufferPtr + size <= nodes[i].bufferBase + (size + alignment + offset)
  {
    AlignedNearBase(bases[i], alignment);
  }

  lemma NextInRing(nodes: seq<RingElt>, i: nat)
    requires Ring(nodes) && i < |nodes|
    ensures nodes[i].next == nodes[if i == 0 then |nodes| - 1 else i - 1]
  {
  }

  /** Where `send_ring = send_ring->next` has got to after k sends. */
  ghost function Follow(nodes: seq<RingElt>, start: RingElt, k: nat): (r: RingElt)
    requires Ring(nodes) && start in nodes
    reads nodes
    ensures r in nodes
  {
    if k == 0 then start else
      var before := Follow(nodes, start, k - 1);
      assert before.next != null && before.next in nodes by {
        var i :| 0 <= i < |nodes| && nodes[i] == before;
        NextInRing(nodes, i);
      }
      before.next
  }

  lemma {:induction false} FollowBack(nodes: seq<RingElt>, i: nat, k: nat)
    requires Ring(nodes) && i < |nodes| && k <= i + |nodes|
    ensures Follow(nodes, nodes[i], k) == nodes[if k <= i then i - k else i + |nodes| - k]
  {
    if k > 0 {
      FollowBack(nodes, i, k - 1);
      NextInRing(nodes, if k - 1 <= i then i - (k - 1) else i + |nodes| - (k - 1));
    }
  }

  /** One cycle: from any element, the next ones up to the width are all different, and then it is back. */
  lemma OneCycle(nodes: seq<RingElt>, start: RingElt, j: nat, k: nat)
    requires Ring(nodes) && start in nodes && j < k <= |nodes|
    ensures Follow(nodes, start, |nodes|) == start
    ensures Follow(nodes, start, j) == Follow(nodes, start, k) <==> j == 0 && k == |nodes|
  {
    var i :| 0 <= i < |nodes| && nodes[i] == start;
    FollowBack(nodes, i, j);
    FollowBack(nodes, i, k);
    FollowBack(nodes, i, |nodes|);
  }

  lemma {:induction false} FollowOn(nodes: seq<RingElt>, start: RingElt, j: nat, d: nat)
    requires Ring(nodes) && start in nodes
    ensures Follow(nodes, start, j + d) == Follow(nodes, Follow(nodes, start, j), d)
  {
    if d > 0 {
      FollowOn(nodes, start, j, d - 1);
    }
  }

  // ----- the width of the ring -----

  /** The width when the user has set none: `socketSize` is what the system reports, or -1. */
  function RingWidth(socketSize: int, sendSize: int): int
    requires sendSize > 0
  {
    var width := Quotient(socketSize, sendSize) + 1;
    if width == 1 then 2 else width
  }

  /** allocate_buffer_ring's assertion holds unless the socket size is minus the send size or less. */
  lemma WidthAllowed(socketSize: int, sendSize: int)
    requires sendSize > 0
    ensures RingWidth(socketSize, sendSize) >= 1 <==> socketSize > -sendSize
    ensures RingWidth(socketSize, sendSize) >= 1 ==> RingWidth(socketSize, sendSize) >= 2
  {
    if socketSize < 0 {
      AtLeastOnce(-socketSize, sendSize);
    } else {
      AtLeastOnce(socketSize, sendSize);
    }
  }

  lemma AtLeastOnce(m: nat, d: nat)
    requires d >= 1
    ensures m / d >= 0 && (m / d >= 1 <==> m >= d)
  {
    var q, r := m / d, m % d;
    assert m == d * q + r;
    if q >= 1 {
      MultipleAtLeast(d, q);
    }
  }

  /** One more than the whole sends that the socket buffer holds, and two if it holds none. */
  lemma RingWidthExactly(socketSize: int, sendSize: int)
    requires sendSize > 0 && socketSize > -sendSize
    ensures var width := RingWidth(socketSize, sendSize);
            if socketSize < sendSize then width == 2
            else (width - 1) * sendSize <= socketSize < width * sendSize
  {
    if socketSize < 0 {
      AtLeastOnce(-socketSize, sendSize);
    } else {
      AtLeastOnce(socketSize, sendSize);
      var q := socketSize / sendSize;
      assert socketSize == sendSize * q + socketSize % sendSize;
      assert q * sendSize == sendSize * q && (q + 1) * sendSize == q * sendSize + sendSize;
    }
  }

  /** A buffer is used again after `width` sends, with `width - 1` others in between. Those cover the socket buffer exactly
      when it is smaller than one send or a whole number of them. */
  lemma CoversExactly(socketSize: int, sendSize: int)
    requires sendSize > 0 && socketSize > -sendSize
    ensures (RingWidth(socketSize, sendSize) - 1) * sendSize >= socketSize
            <==> socketSize < sendSize || socketSize % sendSize == 0
  {
    if socketSize >= 0 {
      var q, r := socketSize / sendSize, socketSize % sendSize;
      assert socketSize == sendSize * q + r;
      assert sendSize * q == q * sendSize;
      if q >= 1 {
        MultipleAtLeast(sendSize, q);
      }
    } else {
      WidthAllowed(socketSize, sendSize);
      MultipleAtLeast(sendSize, RingWidth(socketSize, sendSize) - 1);
    }
  }

  /** Two different sends use the same buffer only if they are at least the width of the ring apart. */
  lemma ReuseDistance(nodes: seq<RingElt>, start: RingElt, j: nat, k: nat)
    requires Ring(nodes) && start in nodes && j < k && Follow(nodes, start, j) == Follow(nodes, start, k)
    ensures k - j >= |nodes|
  {
    FollowOn(nodes, start, j, k - j);
    if k - j < |nodes| {
      OneCycle(nodes, Follow(nodes, start, j), 0, k - j);
    }
  }

  /** Between any two sends from one buffer at least a socket buffer's worth of other bytes is sent. */
  ghost predicate AlwaysCovered(nodes: seq<RingElt>, start: RingElt, socketSize: int, sendSize: int)
    requires Ring(nodes) && start in nodes
    reads nodes
  {
    forall j: nat, k: nat :: j < k && Follow(nodes, start, j) == Follow(nodes, start, k)
                             ==> (k - j - 1) * sendSize >= socketSize
  }

  /** A ring of the computed width keeps a buffer from being used again too early exactly when the socket buffer is
      smaller than one send or a whole number of them. */
  lemma SafeReuse(nodes: seq<RingElt>, start: RingElt, socketSize: int, sendSize: int)
    requires Ring(nodes) && start in nodes && sendSize > 0 && |nodes| == RingWidth(socketSize, sendSize)
    ensures AlwaysCovered(nodes, start, socketSize, sendSize)
            <==> socketSize < sendSize || socketSize % sendSize == 0
  {
    WidthAllowed(socketSize, sendSize);
    CoversExactly(socketSize, sendSize);
    if (|nodes| - 1) * sendSize >= socketSize {
      forall j: nat, k: nat | j < k && Follow(nodes, start, j) == Follow(nodes, start, k)
        ensures (k - j - 1) * sendSize >= socketSize
      {
        ReuseDistance(nodes, start, j, k);
        MoreOfThem(sendSize, |nodes| - 1, k - j - 1);
      }
    } else {
      OneCycle(nodes, start, 0, |nodes|);
      assert Follow(nodes, start, 0) == Follow(nodes, start, |nodes|);
    }
  }

  /** Sends of 3 bytes through a socket buffer of 5: the ring has two buffers, and only 3 other bytes lie between two uses
      of one of them. */
  lemma FiveNotCoveredByThrees()
    ensures RingWidth(5, 3) == 2 && (RingWidth(5, 3) - 1) * 3 < 5
  {
  }

  lemma MoreOfThem(size: nat, few: nat, many: nat)
    requires few <= many
    ensures few * size <= many * size
  {
    assert many * size == few * size + (many - few) * size;
  }
}
