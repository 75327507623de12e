/** Bitwise operations on natural numbers and big-endian conversion, as math/big and net use them. */
module Bits {
  import opened Base

  function Pow2(n: nat): (p: nat)
    ensures p >= 1
  {
    if n == 0 then 1 else 2 * Pow2(n - 1)
  }

  lemma {:induction false} Pow2Sum(m: nat, n: nat)
    ensures Pow2(m + n) == Pow2(m) * Pow2(n)
  {
    if m > 0 {
      Pow2Sum(m - 1, n);
    }
  }

  lemma Pow2Of32()
    ensures Pow2(32) == 0x1_0000_0000
  {
    assert Pow2(8) == 256;
    Pow2Sum(8, 8);
    Pow2Sum(16, 16);
  }

  function And(a: nat, b: nat): nat {
    if a == 0 then 0 else (if a % 2 == 1 && b % 2 == 1 then 1 else 0) + 2 * And(a / 2, b / 2)
  }

  function Or(a: nat, b: nat): nat
    decreases a + b
  {
    if a == 0 && b == 0 then 0 else (if a % 2 == 1 || b % 2 == 1 then 1 else 0) + 2 * Or(a / 2, b / 2)
  }

  lemma {:induction false} OrZero(a: nat)
    ensures Or(0, a) == a == Or(a, 0)
  {
    if a > 0 {
      OrZero(a / 2);
    }
  }

  lemma {:induction false} AndZero(a: nat)
    ensures And(a, 0) == 0
  {
    if a > 0 {
      AndZero(a / 2);
    }
  }

  /** Or with all-ones below a multiple of 2^h is addition. */
  lemma {:induction false} OrFillsLowBits(a: nat, h: nat)
    requires a % Pow2(h) == 0
    ensures Or(Pow2(h) - 1, a) == a + Pow2(h) - 1
  {
    if h == 0 {
      OrZero(a);
    } else {
      var p := Pow2(h - 1);
      var q := a / Pow2(h);
      assert a == q * (2 * p) == 2 * (q * p) by { assert a == Pow2(h) * q; }
      assert a / 2 == q * p && a % 2 == 0;
      ModMultiple(q, p);
      OrFillsLowBits(a / 2, h - 1);
      assert (2 * p - 1) / 2 == p - 1;
    }
  }

  lemma ModMultiple(q: nat, p: nat)
    requires p > 0
    ensures q * p % p == 0 && q * p / p == q
  {
    DivModUnique(q * p, p, q, 0);
  }

  /** Quotient and remainder are determined by their defining equation. */
  lemma DivModUnique(x: nat, d: nat, q: nat, r: nat)
    requires d > 0 && x == q * d + r && r < d
    ensures x / d == q && x % d == r
  {
    var q', r' := x / d, x % d;
    var k := q - q';
    assert k * d == q * d - q' * d;
    assert x == q' * d + r';
    MultipleIsFar(k, d);
  }

  lemma MultipleIsFar(k: int, d: nat)
    requires d > 0
    ensures k > 0 ==> k * d >= d
    ensures k < 0 ==> k * d + d <= 0
    ensures k == 0 ==> k * d == 0
  {
  }

  lemma DivDiv(x: nat, d: nat)
    requires d > 0
    ensures x / (256 * d) == x / 256 / d
  {
    var y := x / 256;
    var q, r := y / d, y % d;
    assert y == d * q + r;
    assert q * (256 * d) == 256 * (d * q);
    DivModUnique(x, 256 * d, q, 256 * r + x % 256);
  }

  lemma HalfMod(x: nat, p: nat)
    requires p > 0
    ensures x % (2 * p) == 2 * (x / 2 % p) + x % 2
  {
    var y := x / 2;
    var q, r := y / p, y % p;
    assert y == p * q + r;
    assert q * (2 * p) == 2 * (p * q);
    DivModUnique(x, 2 * p, q, 2 * r + x % 2);
  }

  /** Masking with ones from bit k up to bit w clears the k low bits. */
  lemma {:induction false} AndHighMask(x: nat, w: nat, k: nat)
    requires k <= w && x < Pow2(w)
    ensures Pow2(k) <= Pow2(w)
    ensures And(x, Pow2(w) - Pow2(k)) == x - x % Pow2(k)
    decreases w
  {
    if w > 0 && k > 0 {
      AndHighMask(x / 2, w - 1, k - 1);
      HalfMod(x, Pow2(k - 1));
      assert (Pow2(w) - Pow2(k)) / 2 == Pow2(w - 1) - Pow2(k - 1);
      assert (Pow2(w) - Pow2(k)) % 2 == 0;
    } else if w > 0 {
      assert x % 1 == 0;
      AndHighMask(x / 2, w - 1, 0);
      assert (Pow2(w) - 1) / 2 == Pow2(w - 1) - 1;
      assert x / 2 % 1 == 0;
    }
  }

  // ----- Big-endian numbers -----

  /** big.Int.SetBytes */
  function ToNat(b: seq<Byte>): nat {
    if b == [] then 0 else 256 * ToNat(b[..|b| - 1]) + b[|b| - 1]
  }

  /** big.Int.Bytes: no leading zero bytes */
  function ToBytes(n: nat): seq<Byte> {
    if n == 0 then [] else ToBytes(n / 256) + [n % 256]
  }

  lemma {:induction false} ToNatOfToBytes(n: nat)
    ensures ToNat(ToBytes(n)) == n
  {
    if n > 0 {
      ToNatOfToBytes(n / 256);
      assert ToBytes(n)[..|ToBytes(n)| - 1] == ToBytes(n / 256);
    }
  }

  /** Numbers of n bytes stay below 2^(8n). */
  lemma {:induction false} ToNatBound(b: seq<Byte>)
    ensures ToNat(b) < Pow2(8 * |b|)
  {
    if b != [] {
      ToNatBound(b[..|b| - 1]);
      Pow2Sum(8, 8 * (|b| - 1));
      assert Pow2(8) == 256;
    }
  }

  lemma {:induction false} ToNatInjective(a: seq<Byte>, b: seq<Byte>)
    requires |a| == |b| && ToNat(a) == ToNat(b)
    ensures a == b
  {
    if a != [] {
      ToNatInjective(a[..|a| - 1], b[..|b| - 1]);
      assert a == a[..|a| - 1] + [a[|a| - 1]];
      assert b == b[..|b| - 1] + [b[|b| - 1]];
    }
  }

  /** How many bytes Bytes emits. */
  lemma {:induction false} ToBytesLength(n: nat, k: nat)
    requires k > 0
    ensures |ToBytes(n)| == k <==> Pow2(8 * (k - 1)) <= n < Pow2(8 * k)
    decreases k
  {
    Pow2Sum(8, 8 * (k - 1));
    assert Pow2(8) == 256;
    if k == 1 {
      assert Pow2(0) == 1;
      assert n < 256 <==> |ToBytes(n / 256)| == 0;
    } else {
      Pow2Sum(8, 8 * (k - 2));
      ToBytesLength(n / 256, k - 1);
    }
  }

  /** The first byte is zero exactly for the numbers that need fewer bytes. */
  lemma {:induction false} ToNatLeading(b: seq<Byte>)
    requires b != []
    ensures b[0] != 0 <==> ToNat(b) >= Pow2(8 * (|b| - 1))
  {
    if |b| == 1 {
      assert b[..0] == [] && ToNat([]) == 0;
      assert Pow2(0) == 1;
    } else {
      ToNatLeading(b[..|b| - 1]);
      Pow2Sum(8, 8 * (|b| - 2));
      assert Pow2(8) == 256;
    }
  }

  /** A number written in exactly k bytes, without those that do not fit. */
  function FixedBytes(n: nat, k: nat): (b: seq<Byte>)
    ensures |b| == k
    decreases n, k
  {
    if k == 0 then [] else FixedBytes(n / 256, k - 1) + [n % 256]
  }

  lemma {:induction false} ToNatOfFixedBytes(n: nat, k: nat)
    ensures ToNat(FixedBytes(n, k)) == n % Pow2(8 * k)
    ensures n < Pow2(8 * k) ==> ToNat(FixedBytes(n, k)) == n
    decreases k
  {
    if k == 0 {
      assert n % 1 == 0;
    } else {
      var p := Pow2(8 * (k - 1));
      Pow2Sum(8, 8 * (k - 1));
      assert Pow2(8) == 256;
      ToNatOfFixedBytes(n / 256, k - 1);
      assert FixedBytes(n, k)[..k - 1] == FixedBytes(n / 256, k - 1);
      SplitLastDigit(n, p);
    }
  }

  /** The remainder by 256p in terms of the last digit. */
  lemma SplitLastDigit(n: nat, p: nat)
    requires p > 0
    ensures n % (256 * p) == 256 * (n / 256 % p) + n % 256
    ensures n < 256 * p ==> n % (256 * p) == n
  {
    var y := n / 256;
    var q, r := y / p, y % p;
    assert y == p * q + r;
    assert q * (256 * p) == 256 * (p * q);
    DivModUnique(n, 256 * p, q, 256 * r + n % 256);
    if n < 256 * p {
      DivModUnique(n, 256 * p, 0, n);
    }
  }

  lemma {:induction false} FixedBytesOfToNat(b: seq<Byte>)
    ensures FixedBytes(ToNat(b), |b|) == b
  {
    if b != [] {
      FixedBytesOfToNat(b[..|b| - 1]);
      assert ToNat(b) / 256 == ToNat(b[..|b| - 1]);
    }
  }
}
