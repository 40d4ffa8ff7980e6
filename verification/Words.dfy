/** Machine words of any width, held as the set of the positions of their 1 bits.
    memtester is written for 32-bit and 64-bit `unsigned long`; nothing below fixes the width `W`. */
module Words {
  import opened Arithmetic

  type Word = set<nat>

  /** UL_ONEBITS: every bit of a W-bit word is 1. */
  function Ones(W: nat): (w: Word)
    ensures forall b: nat :: b in w <==> b < W
  {
    if W == 0 then {} else Ones(W - 1) + {W - 1}
  }

  /** C's `~` on a W-bit word. */
  function Not(w: Word, W: nat): Word {
    Ones(W) - w
  }

  /** C's `^`. */
  function Xor(v: Word, w: Word): Word {
    (v - w) + (w - v)
  }

  function Pow2(n: nat): (p: nat)
    ensures p >= 1
  {
    if n == 0 then 1 else 2 * Pow2(n - 1)
  }

  /** Bit b of the binary numeral of n. */
  predicate Bit(n: nat, b: nat)
    decreases b
  {
    if b == 0 then n % 2 == 1 else Bit(n / 2, b - 1)
  }

  /** The low W bits of a number, which is how an `unsigned long` holds it. */
  function FromNat(n: nat, W: nat): Word {
    set b | b in Ones(W) && Bit(n, b)
  }

  /** The number that bits b.. of a W-bit word stand for. */
  function ValueFrom(w: Word, b: nat, W: nat): nat
    requires b <= W
    decreases W - b
  {
    if b == W then 0 else (if b in w then 1 else 0) + 2 * ValueFrom(w, b + 1, W)
  }

  function ToNat(w: Word, W: nat): nat {
    ValueFrom(w, 0, W)
  }

  /** Modular arithmetic on W-bit words, as C's unsigned operators do it. */
  function Add(v: Word, w: Word, W: nat): Word {
    FromNat((ToNat(v, W) + ToNat(w, W)) % Pow2(W), W)
  }

  function Sub(v: Word, w: Word, W: nat): Word {
    FromNat(Difference(ToNat(v, W), ToNat(w, W), Pow2(W)), W)
  }

  function Difference(m: nat, n: nat, p: nat): nat
    requires p >= 1
  {
    (m - n) % p
  }

  function Mul(v: Word, w: Word, W: nat): Word {
    FromNat((ToNat(v, W) * ToNat(w, W)) % Pow2(W), W)
  }

  function Div(v: Word, w: Word, W: nat): Word
    requires ToNat(w, W) != 0
  {
    FromNat(Divided(ToNat(v, W), ToNat(w, W)), W)
  }

  function Divided(m: nat, n: nat): nat
    requires n != 0
  {
    m / n
  }

  lemma HalvesModulo(m: nat, p: nat)
    requires p >= 1
    ensures m % (2 * p) == m % 2 + 2 * (m / 2 % p)
  {
    var q, r := m / 2 / p, m / 2 % p;
    assert m / 2 == p * q + r;
    assert m == 2 * p * q + (2 * r + m % 2);
    assert 2 * r + m % 2 < 2 * p;
    DivModUnique(m, 2 * p, q, 2 * r + m % 2);
  }

  /** A word that carries the bits of m from position b on stands for m modulo its width. */
  lemma {:induction false} ValueOfBits(w: Word, m: nat, b: nat, W: nat)
    requires b <= W
    requires forall c :: b <= c < W ==> (c in w <==> Bit(m, c - b))
    ensures ValueFrom(w, b, W) == m % Pow2(W - b)
    decreases W - b
  {
    if b < W {
      forall c | b + 1 <= c < W ensures c in w <==> Bit(m / 2, c - (b + 1)) {
        assert Bit(m, c - b) == Bit(m / 2, c - b - 1);
      }
      ValueOfBits(w, m / 2, b + 1, W);
      assert b in w <==> Bit(m, b - b);
      HalvesModulo(m, Pow2(W - b - 1));
    }
  }

  /** Storing a number in a W-bit word and reading it back keeps it modulo 2^W. */
  lemma NatRoundTrip(n: nat, W: nat)
    ensures ToNat(FromNat(n, W), W) == n % Pow2(W)
  {
    ValueOfBits(FromNat(n, W), n, 0, W);
  }

  /** Different numbers below 2^W are different words. */
  lemma FromNatInjective(m: nat, n: nat, W: nat)
    requires m < Pow2(W) && n < Pow2(W)
    requires FromNat(m, W) == FromNat(n, W)
    ensures m == n
  {
    NatRoundTrip(m, W);
    NatRoundTrip(n, W);
    DivModUnique(m, Pow2(W), 0, m);
    DivModUnique(n, Pow2(W), 0, n);
  }

  lemma {:induction false} ValueBelow(w: Word, b: nat, W: nat)
    requires b <= W
    ensures ValueFrom(w, b, W) < Pow2(W - b)
    decreases W - b
  {
    if b < W {
      ValueBelow(w, b + 1, W);
    }
  }

  lemma SubtractAndAdd(m: nat, n: nat, p: nat)
    requires m < p && n < p
    ensures Difference(m, n, p) < p && (Difference(m, n, p) + n) % p == m
  {
    if m >= n {
      DivModUnique(m - n, p, 0, m - n);
      DivModUnique(m, p, 0, m);
    } else {
      AroundOnce(m - n, p);
      DivModUnique(m + p, p, 1, m);
    }
  }

  lemma AroundOnce(d: int, p: nat)
    requires d < 0 <= d + p
    ensures d % p == d + p
  {
    var q := d / p;
    assert d == p * q + d % p;
    assert p * (-q - 1) == -(p * q) - p;
    if q <= -2 {
      MultipleAtLeast(p, -q - 1);
    }
  }

  lemma SmallModulo(m: nat, p: nat)
    requires m < p
    ensures m % p == m
  {
    SmallMod(m, p);
  }

  /** A difference wraps around: adding again gives the word it was taken from. */
  lemma SubUndone(v: Word, w: Word, W: nat)
    ensures (ToNat(Sub(v, w, W), W) + ToNat(w, W)) % Pow2(W) == ToNat(v, W)
  {
    var m, n, p := ToNat(v, W), ToNat(w, W), Pow2(W);
    ValueBelow(v, 0, W);
    ValueBelow(w, 0, W);
    SubtractAndAdd(m, n, p);
    NatRoundTrip(Difference(m, n, p), W);
    SmallModulo(Difference(m, n, p), p);
  }

  /** A sum is exact modulo 2^W. */
  lemma AddModulo(v: Word, w: Word, W: nat)
    ensures ToNat(Add(v, w, W), W) == (ToNat(v, W) + ToNat(w, W)) % Pow2(W)
  {
    var m, p := ToNat(v, W) + ToNat(w, W), Pow2(W);
    Reduced(m, p);
    NatRoundTrip(m % p, W);
    SmallModulo(m % p, p);
  }

  /** A product is exact modulo 2^W. */
  lemma MulModulo(v: Word, w: Word, W: nat)
    ensures ToNat(Mul(v, w, W), W) == Times(ToNat(v, W), ToNat(w, W)) % Pow2(W)
  {
    var m, p := Times(ToNat(v, W), ToNat(w, W)), Pow2(W);
    Reduced(m, p);
    NatRoundTrip(m % p, W);
    SmallModulo(m % p, p);
  }

  function Times(m: nat, n: nat): nat {
    m * n
  }

  lemma Reduced(m: nat, p: nat)
    requires p >= 1
    ensures 0 <= m % p < p
  {
  }

  /** A quotient is rounded down. */
  lemma DivRoundsDown(v: Word, w: Word, W: nat)
    requires ToNat(w, W) != 0
    ensures var n, q := ToNat(w, W), ToNat(Div(v, w, W), W);
            Times(n, q) <= ToNat(v, W) < Times(n, q) + n
  {
    var m, n, p := ToNat(v, W), ToNat(w, W), Pow2(W);
    ValueBelow(v, 0, W);
    NatRoundTrip(Divided(m, n), W);
    DividedBetween(m, n);
    SmallModulo(Divided(m, n), p);
  }

  lemma DividedBetween(m: nat, n: nat)
    requires n != 0
    ensures Times(n, Divided(m, n)) <= m < Times(n, Divided(m, n)) + n
    ensures Divided(m, n) <= m
  {
    var q := m / n;
    assert m == n * q + m % n;
    if q >= 1 {
      MultipleAtLeast(q, n);
      assert q * n == n * q;
    }
  }
}
