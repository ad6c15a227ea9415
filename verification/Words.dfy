/** Bytes and unsigned 64-bit machine words as integers, with the bitwise AND the modelled code relies on. */
module Words {

  const TWO_32: int := 0x1_0000_0000
  const TWO_64: int := 0x1_0000_0000_0000_0000

  type Word = w: int | 0 <= w < 0x1_0000_0000_0000_0000

  type Byte = b: int | 0 <= b < 256

  function Wrap(x: int): Word {
    x % TWO_64
  }

  function Pow2(k: nat): (p: nat)
    ensures p > 0
  {
    if k == 0 then 1 else 2 * Pow2(k - 1)
  }

  predicate IsPow2(a: nat) {
    a == 1 || (a > 0 && a % 2 == 0 && IsPow2(a / 2))
  }

  /** Bit k of w. */
  predicate Bit(w: nat, k: nat) {
    if k == 0 then w % 2 == 1 else Bit(w / 2, k - 1)
  }

  /** Bitwise AND, one bit at a time. */
  function And(a: nat, b: nat): (r: nat)
    ensures r <= a && r <= b
  {
    if a == 0 || b == 0 then 0 else (a % 2) * (b % 2) + 2 * And(a / 2, b / 2)
  }

  /** AND is the pointwise conjunction of the bits: this pins And down without naming its body. */
  lemma {:induction false} AndBits(a: nat, b: nat, k: nat)
    ensures Bit(And(a, b), k) <==> Bit(a, k) && Bit(b, k)
    decreases k
  {
    if a == 0 || b == 0 {
      ZeroHasNoBits(k);
    } else if k > 0 {
      AndBits(a / 2, b / 2, k - 1);
      assert And(a, b) / 2 == And(a / 2, b / 2);
    }
  }

  lemma {:induction false} ZeroHasNoBits(k: nat)
    ensures !Bit(0, k)
  {
    if k > 0 {
      ZeroHasNoBits(k - 1);
    }
  }

  lemma {:induction false} AndStep(w: nat, bit: nat, m: nat)
    requires bit <= 1
    ensures And(w, 2 * m + bit) == (w % 2) * bit + 2 * And(w / 2, m)
  {
    var b := 2 * m + bit;
    assert b / 2 == m && b % 2 == bit;
  }

  /** Masking with 2^k isolates bit k. */
  lemma {:induction false} AndSingleBit(w: nat, k: nat)
    ensures And(w, Pow2(k)) == if Bit(w, k) then Pow2(k) else 0
    decreases k
  {
    if w == 0 {
      ZeroHasNoBits(k);
    } else if k == 0 {
      assert And(w / 2, 0) == 0;
    } else {
      AndSingleBit(w / 2, k - 1);
      assert Pow2(k) / 2 == Pow2(k - 1) && Pow2(k) % 2 == 0;
    }
  }

  lemma {:induction false} AndAllButLowest(w: nat, p: nat, n: nat)
    requires p == Pow2(n) && w < 2 * p
    ensures And(w, 2 * p - 2) == w - w % 2
  {
    AndLowMask(w / 2, n);
    SmallMod(w / 2, p);
    AndStep(w, 0, p - 1);
  }

  /** Masking an n-bit word with all n bits but bit k clears exactly bit k. */
  lemma {:induction false} AndAllButBit(w: nat, n: nat, k: nat)
    requires w < Pow2(n) && k < n
    ensures Pow2(k) < Pow2(n)
    ensures And(w, Pow2(n) - 1 - Pow2(k)) == if Bit(w, k) then w - Pow2(k) else w
  {
    Pow2Grows(k, n);
    AllButBit(w, Pow2(n), Pow2(k), n, k);
  }

  lemma {:induction false} AllButBit(w: nat, p: nat, q: nat, n: nat, k: nat)
    requires p == Pow2(n) && q == Pow2(k) && q < p && w < p && k < n
    ensures And(w, p - 1 - q) == if Bit(w, k) then w - q else w
    decreases n
  {
    if k == 0 {
      AndAllButLowest(w, Pow2(n - 1), n - 1);
    } else {
      Pow2Grows(k - 1, n - 1);
      AllButBit(w / 2, Pow2(n - 1), Pow2(k - 1), n - 1, k - 1);
      AllButStep(w, p, q, Pow2(n - 1), Pow2(k - 1), Bit(w / 2, k - 1));
    }
  }

  lemma {:induction false} AllButStep(w: nat, p: nat, q: nat, p': nat, q': nat, on: bool)
    requires q' < p' && p == 2 * p' && q == 2 * q'
    requires And(w / 2, p' - 1 - q') == if on then w / 2 - q' else w / 2
    ensures And(w, p - 1 - q) == if on then w - q else w
  {
    AndStep(w, 1, p' - 1 - q');
    assert 2 * (p' - 1 - q') + 1 == p - 1 - q;
  }

  /** Masking with 2^k - 1 is the remainder modulo 2^k. */
  lemma {:induction false} AndLowMask(w: nat, k: nat)
    ensures And(w, Pow2(k) - 1) == w % Pow2(k)
  {
    LowMask(w, Pow2(k), k);
  }

  lemma {:induction false} LowMask(w: nat, p: nat, k: nat)
    requires p == Pow2(k)
    ensures And(w, p - 1) == w % p
    decreases k
  {
    if k > 0 {
      LowMask(w / 2, Pow2(k - 1), k - 1);
      LowMaskStep(w, Pow2(k - 1), p);
    }
  }

  lemma {:induction false} LowMaskStep(w: nat, p: nat, m: nat)
    requires p > 0 && m == 2 * p && And(w / 2, p - 1) == (w / 2) % p
    ensures And(w, m - 1) == w % m
  {
    HalfMod(w, p);
    AndStep(w, 1, p - 1);
    assert 2 * (p - 1) + 1 == m - 1;
  }

  lemma {:induction false} Pow2Grows(k: nat, n: nat)
    requires k < n
    ensures 2 * Pow2(k) <= Pow2(n)
    decreases n
  {
    if k < n - 1 {
      Pow2Grows(k, n - 1);
    }
  }

  lemma {:induction false} Pow2Add(j: nat, k: nat)
    ensures Pow2(j) * Pow2(k) == Pow2(j + k)
    decreases j
  {
    if j > 0 {
      Pow2Add(j - 1, k);
      Doubled(Pow2(j - 1), Pow2(k), Pow2(j));
      assert Pow2(j + k) == 2 * Pow2(j - 1 + k);
    }
  }

  lemma Doubled(half: nat, b: nat, a: nat)
    requires a == 2 * half
    ensures a * b == 2 * (half * b)
  {
  }

  /** Every power of two in the sense of IsPow2 is some Pow2(k). */
  lemma {:induction false} Pow2Exponent(a: nat) returns (k: nat)
    requires IsPow2(a)
    ensures a == Pow2(k)
  {
    if a == 1 {
      k := 0;
    } else {
      var j := Pow2Exponent(a / 2);
      k := j + 1;
    }
  }

  lemma SmallMod(x: nat, m: nat)
    requires x < m
    ensures x % m == x && x / m == 0
  {
  }

  lemma HalfMod(w: nat, p: nat)
    requires p > 0
    ensures w % (2 * p) == 2 * ((w / 2) % p) + w % 2
  {
    var q, r := (w / 2) / p, (w / 2) % p;
    assert w / 2 == q * p + r;
    assert w == q * (2 * p) + (2 * r + w % 2);
    DivModUnique(w, 2 * p, q, 2 * r + w % 2);
  }

  lemma DivModUnique(x: int, m: int, q: int, r: int)
    requires m > 0 && 0 <= r < m && x == q * m + r
    ensures x / m == q && x % m == r
  {
    var d := x / m - q;
    assert d * m == r - x % m by {
      assert (x / m) * m + x % m == x;
      assert d * m == (x / m) * m - q * m;
    }
    MulAtLeast(d, m);
  }

  lemma MulAtLeast(d: int, m: nat)
    ensures d >= 1 ==> d * m >= m
    ensures d <= -1 ==> d * m + m <= 0
  {
  }

  lemma {:induction false} Pow2Values()
    ensures Pow2(9) == 0x200 && Pow2(12) == 0x1000 && Pow2(16) == 0x1_0000 && Pow2(32) == TWO_32 && Pow2(64) == TWO_64
  {
    assert Pow2(4) == 16;
    assert Pow2(8) == 256;
    assert Pow2(12) == 0x1000;
    assert Pow2(16) == 0x10000;
    Pow2Add(16, 16);
    Pow2Add(32, 32);
  }
}
