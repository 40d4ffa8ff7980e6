/** memtester's Stuck Address test, on memory whose address lines may send several addresses to one cell. */
module StuckAddress {
  import opened Arithmetic
  import opened Words
  import opened MemoryFaults

  /** The word `(ul) p1` for the i-th word of the buffer. */
  function Address(base: nat, W: nat, i: nat): Word {
    FromNat(base + i * (W / 8), W)
  }

  /** What pass j stores at index i: the address itself and its complement, alternating. */
  function Stored(base: nat, W: nat, j: nat, i: nat): Word {
    if (j + i) % 2 == 0 then Address(base, W, i) else Not(Address(base, W, i), W)
  }

  predicate Reached(decode: seq<nat>, c: nat, n: nat)
    requires n <= |decode|
  {
    exists k :: 0 <= k < n && decode[k] == c
  }

  /** Of the first n indices, the last one that is sent to cell c. */
  function LastWriter(decode: seq<nat>, c: nat, n: nat): (m: nat)
    requires n <= |decode| && Reached(decode, c, n)
    ensures m < n && decode[m] == c
    ensures forall k :: m < k < n ==> decode[k] != c
  {
    if decode[n - 1] == c then n - 1 else LastWriter(decode, c, n - 1)
  }

  /** Every address has a cell of its own. */
  predicate Injective(decode: seq<nat>, count: nat)
    requires count <= |decode|
  {
    forall i, k :: 0 <= i < k < count ==> decode[i] != decode[k]
  }

  predicate NoStuckBit(f: Fault) {
    f.Stuck? && f.low == {} && f.high == {}
  }

  /** The buffer is word aligned and inside the address space; words are at least two bytes. */
  predicate GoodBuffer(base: nat, W: nat, count: nat) {
    W >= 16 && W % 16 == 0 && base % (W / 8) == 0 && base + count * (W / 8) <= Pow2(W)
  }

  /** What is stored at an index, taken back from its complement where it is one, is the address of that word in bytes. */
  lemma StoredIsAddress(base: nat, W: nat, count: nat, j: nat, i: nat)
    requires GoodBuffer(base, W, count) && i < count
    ensures Stored(base, W, j + 1, i) == Not(Stored(base, W, j, i), W)
    ensures ToNat(if (j + i) % 2 == 0 then Stored(base, W, j, i) else Not(Stored(base, W, j, i), W), W)
            == base + i * (W / 8)
  {
    AddressInBytes(base, W, count, i);
    TwiceComplement(Address(base, W, i), W);
  }

  lemma AddressInBytes(base: nat, W: nat, count: nat, i: nat)
    requires GoodBuffer(base, W, count) && i < count
    ensures ToNat(Address(base, W, i), W) == base + i * (W / 8)
  {
    ScaledLess(W / 8, i, count);
    StoredNumber(base + i * (W / 8), W);
  }

  lemma StoredNumber(n: nat, W: nat)
    requires n < Pow2(W)
    ensures ToNat(FromNat(n, W), W) == n
  {
    NatRoundTrip(n, W);
    SmallModulo(n, Pow2(W));
  }

  lemma TwiceComplement(w: Word, W: nat)
    requires w <= Ones(W)
    ensures Not(Not(w, W), W) == w
  {
  }

  /** The machine: `decode` sends buffer index to cell, and each cell may have stuck bits. */
  predicate Wiring(decode: seq<nat>, faults: seq<Fault>, W: nat, count: nat) {
    && count <= |decode|
    && (forall i :: 0 <= i < count ==> decode[i] < |faults|)
    && (forall c :: 0 <= c < |faults| ==> faults[c].Stuck? && ValidFault(faults[c], W))
  }

  /** No two indices share a cell and no cell they reach has a stuck bit. */
  predicate Sound(decode: seq<nat>, faults: seq<Fault>, W: nat, count: nat)
    requires Wiring(decode, faults, W, count)
  {
    Injective(decode, count) && forall i :: 0 <= i < count ==> NoStuckBit(faults[decode[i]])
  }

  /** What index i reads back at the end of the writes of pass j. */
  function ReadBack(decode: seq<nat>, faults: seq<Fault>, base: nat, W: nat, count: nat, j: nat, i: nat): Word
    requires Wiring(decode, faults, W, count) && i < count
  {
    Sense(faults[decode[i]], Stored(base, W, j, LastWriter(decode, decode[i], count)))
  }

  predicate PassOk(decode: seq<nat>, faults: seq<Fault>, base: nat, W: nat, count: nat, j: nat)
    requires Wiring(decode, faults, W, count)
  {
    forall i :: 0 <= i < count ==> ReadBack(decode, faults, base, W, count, j, i) == Stored(base, W, j, i)
  }

  /** The setting half of pass j. */
  method SetAddresses(cells: array<Word>, decode: seq<nat>, faults: seq<Fault>, base: nat, W: nat, count: nat, j: nat)
    requires Wiring(decode, faults, W, count) && cells.Length == |faults|
    modifies cells
    ensures forall i :: 0 <= i < count ==>
              cells[decode[i]] == Stored(base, W, j, LastWriter(decode, decode[i], count))
  {
    for i := 0 to count
      invariant forall k :: 0 <= k < i ==> Reached(decode, decode[k], i)
      invariant forall k :: 0 <= k < i ==>
                  cells[decode[k]] == Stored(base, W, j, LastWriter(decode, decode[k], i))
    {
      cells[decode[i]] := Stored(base, W, j, i);
    }
  }

  /** The testing half of pass j. */
  method CheckAddresses(cells: array<Word>, decode: seq<nat>, faults: seq<Fault>, base: nat, W: nat, count: nat,
                        j: nat) returns (ok: bool)
    requires Wiring(decode, faults, W, count) && cells.Length == |faults|
    ensures ok <==> forall i :: 0 <= i < count ==>
                      Sense(faults[decode[i]], cells[decode[i]]) == Stored(base, W, j, i)
  {
    for i := 0 to count
      invariant forall k :: 0 <= k < i ==> Sense(faults[decode[k]], cells[decode[k]]) == Stored(base, W, j, k)
    {
      if Sense(faults[decode[i]], cells[decode[i]]) != Stored(base, W, j, i) {
        return false;
      }
    }
    ok := true;
  }

  /** The 16 passes, which stop at the first pass that reads a wrong word. */
  method RunPasses(cells: array<Word>, decode: seq<nat>, faults: seq<Fault>, base: nat, W: nat, count: nat)
    returns (r: int)
    requires Wiring(decode, faults, W, count) && cells.Length == |faults|
    modifies cells
    ensures r == 0 || r == -1
    ensures r == 0 <==> forall j :: 0 <= j < 16 ==> PassOk(decode, faults, base, W, count, j)
  {
    for j := 0 to 16
      invariant forall k :: 0 <= k < j ==> PassOk(decode, faults, base, W, count, k)
    {
      SetAddresses(cells, decode, faults, base, W, count, j);
      var ok := CheckAddresses(cells, decode, faults, base, W, count, j);
      assert ok <==> PassOk(decode, faults, base, W, count, j);
      if !ok {
        return -1;
      }
    }
    r := 0;
  }

  /** test_stuck_address: 0 exactly when no two indices share a cell and no reached cell has a stuck bit. */
  method TestStuckAddress(cells: array<Word>, decode: seq<nat>, faults: seq<Fault>, base: nat, W: nat, count: nat)
    returns (r: int)
    requires Wiring(decode, faults, W, count) && GoodBuffer(base, W, count) && cells.Length == |faults|
    modifies cells
    ensures r == 0 || r == -1
    ensures r == 0 <==> Sound(decode, faults, W, count)
  {
    r := RunPasses(cells, decode, faults, base, W, count);
    PassesDetectUnsoundMemory(decode, faults, base, W, count);
  }

  lemma PassesDetectUnsoundMemory(decode: seq<nat>, faults: seq<Fault>, base: nat, W: nat, count: nat)
    requires Wiring(decode, faults, W, count) && GoodBuffer(base, W, count)
    ensures (forall j :: 0 <= j < 16 ==> PassOk(decode, faults, base, W, count, j))
            <==> Sound(decode, faults, W, count)
  {
    if Sound(decode, faults, W, count) {
      forall j | 0 <= j < 16 ensures PassOk(decode, faults, base, W, count, j) {
        SoundMemoryPasses(decode, faults, base, W, count, j);
      }
    } else if PassOk(decode, faults, base, W, count, 0) && PassOk(decode, faults, base, W, count, 1) {
      TwoPassesSuffice(decode, faults, base, W, count);
    }
  }

  /** On sound memory no pass fails. */
  lemma SoundMemoryPasses(decode: seq<nat>, faults: seq<Fault>, base: nat, W: nat, count: nat, j: nat)
    requires Wiring(decode, faults, W, count) && Sound(decode, faults, W, count)
    ensures PassOk(decode, faults, base, W, count, j)
  {
    forall i | 0 <= i < count
      ensures ReadBack(decode, faults, base, W, count, j, i) == Stored(base, W, j, i)
    {
      assert LastWriter(decode, decode[i], count) == i;
      assert NoStuckBit(faults[decode[i]]);
    }
  }

  lemma ReachedCellHasNoStuckBit(decode: seq<nat>, faults: seq<Fault>, base: nat, W: nat, count: nat, i: nat)
    requires Wiring(decode, faults, W, count) && i < count
    requires PassOk(decode, faults, base, W, count, 0) && PassOk(decode, faults, base, W, count, 1)
    ensures NoStuckBit(faults[decode[i]])
  {
    var last := LastWriter(decode, decode[i], count);
    assert ReadBack(decode, faults, base, W, count, 0, last) == Stored(base, W, 0, last);
    assert ReadBack(decode, faults, base, W, count, 1, last) == Stored(base, W, 1, last);
    var address := Address(base, W, last);
    assert Not(Not(address, W), W) == address;
    ComplementsExposeStuckBits(faults[decode[i]], Stored(base, W, 0, last), Stored(base, W, 1, last), W);
  }

  lemma NoAlias(decode: seq<nat>, faults: seq<Fault>, base: nat, W: nat, count: nat, i: nat, k: nat)
    requires Wiring(decode, faults, W, count) && GoodBuffer(base, W, count) && i < k < count
    requires PassOk(decode, faults, base, W, count, 0) && PassOk(decode, faults, base, W, count, 1)
    ensures decode[i] != decode[k]
  {
    if decode[i] == decode[k] {
      var last := LastWriter(decode, decode[i], count);
      ReachedCellHasNoStuckBit(decode, faults, base, W, count, i);
      assert ReadBack(decode, faults, base, W, count, 0, i) == Stored(base, W, 0, i);
      AddressesDiffer(base, W, count, i, last);
    }
  }

  /** Passes 0 and 1 already expose every alias and every stuck bit, also where both occur together. */
  lemma TwoPassesSuffice(decode: seq<nat>, faults: seq<Fault>, base: nat, W: nat, count: nat)
    requires Wiring(decode, faults, W, count) && GoodBuffer(base, W, count)
    requires PassOk(decode, faults, base, W, count, 0) && PassOk(decode, faults, base, W, count, 1)
    ensures Sound(decode, faults, W, count)
  {
    forall i | 0 <= i < count
      ensures NoStuckBit(faults[decode[i]])
    {
      ReachedCellHasNoStuckBit(decode, faults, base, W, count, i);
    }
    forall i, k | 0 <= i < k < count
      ensures decode[i] != decode[k]
    {
      NoAlias(decode, faults, base, W, count, i, k);
    }
  }

  /** A cell that returns both a word and its complement has no stuck bit. */
  lemma ComplementsExposeStuckBits(f: Fault, v: Word, w: Word, W: nat)
    requires f.Stuck? && ValidFault(f, W)
    requires v <= Ones(W) && w == Not(v, W) && Sense(f, v) == v && Sense(f, w) == w
    ensures NoStuckBit(f)
  {
    forall b: nat | b < W
      ensures b !in f.low && b !in f.high
    {
      assert b in v <==> b !in w;
    }
  }

  /** Two word-aligned addresses are neither equal nor complements of each other. */
  lemma AddressesDiffer(base: nat, W: nat, count: nat, i: nat, k: nat)
    requires GoodBuffer(base, W, count) && i < k < count
    ensures Stored(base, W, 0, i) != Stored(base, W, 0, k)
  {
    EvenAddress(base, W, count, i);
    EvenAddress(base, W, count, k);
    var step := W / 8;
    assert base + i * step < base + k * step < base + count * step by {
      ScaledLess(step, i, k);
      ScaledLess(step, k, count);
    }
    if Address(base, W, i) == Address(base, W, k) {
      FromNatInjective(base + i * step, base + k * step, W);
    }
    var a, c := Address(base, W, i), Address(base, W, k);
    assert a <= Ones(W) && c <= Ones(W);
    assert a != Not(c, W) && Not(a, W) != c by {
      assert 0 !in a && 0 !in c && 0 in Not(a, W) && 0 in Not(c, W);
    }
    assert Not(Not(a, W), W) == a && Not(Not(c, W), W) == c;
  }

  lemma EvenAddress(base: nat, W: nat, count: nat, i: nat)
    requires GoodBuffer(base, W, count)
    ensures 0 !in Address(base, W, i)
  {
    var half := W / 16;
    assert W / 8 == 2 * half;
    var q := base / (W / 8);
    assert base == (W / 8) * q == 2 * (half * q);
    assert i * (W / 8) == 2 * (i * half);
    assert base + i * (W / 8) == 2 * (half * q + i * half);
  }
}
