/** IP networks as a masked base address and a prefix length, and membership in them (net.IPNet). */
module Netmask {
  import opened Base
  import opened Bits

  type Address = seq<Byte>

  const V4_IN_V6_PREFIX: seq<Byte> := [0, 0, 0, 0, 0, 0, 0, 0, 0, 0, 255, 255]

  /** net.IP.To4 where it applies: a 4-byte address, also when it is held in 16 bytes. */
  function Canonical(a: Address): Address {
    if |a| == 16 && a[..12] == V4_IN_V6_PREFIX then a[12..] else a
  }

  /** Byte i of net.CIDRMask. */
  function MaskByte(ones: nat, i: nat): Byte {
    if ones >= 8 * (i + 1) then 255
    else if ones <= 8 * i then 0
    else
      assert Pow2(8) == 256 && Pow2(7) == 128 && Pow2(6) == 64 && Pow2(5) == 32 && Pow2(4) == 16;
      256 - Pow2(8 * (i + 1) - ones)
  }

  datatype IPNet = IPNet(ip: Address, ones: nat) {
    function Width(): nat {
      8 * |ip|
    }

    function HostLength(): int {
      Width() - ones
    }

    function Base(): nat {
      ToNat(ip)
    }

    /** What net.ParseCIDR yields: a plain IPv4 or IPv6 base address with its host bits cleared. */
    predicate Valid() {
      && (|ip| == 4 || |ip| == 16) && Canonical(ip) == ip && ones <= Width()
      && forall i :: 0 <= i < |ip| ==> And(ip[i], MaskByte(ones, i)) == ip[i]
    }

    /** net.IPNet.Contains: masked comparison, byte by byte, for an address of the same family. */
    predicate Contains(a: Address) {
      var x := Canonical(a);
      |x| == |ip| && SameMasked(ip, x, ones)
    }
  }

  predicate SameMasked(a: Address, b: Address, ones: nat)
    requires |a| == |b|
  {
    forall i :: 0 <= i < |a| ==> And(a[i], MaskByte(ones, i)) == And(b[i], MaskByte(ones, i))
  }

  /** A mask byte keeps all bits, no bits, or the bits from some position up. */
  lemma AndMaskByte(x: Byte, ones: nat, i: nat)
    ensures ones >= 8 * (i + 1) ==> And(x, MaskByte(ones, i)) == x
    ensures ones <= 8 * i ==> And(x, MaskByte(ones, i)) == 0
    ensures 8 * i < ones <= 8 * (i + 1) ==>
              And(x, MaskByte(ones, i)) == x - x % Pow2(8 * (i + 1) - ones)
  {
    hide And, Pow2;
    var k := 8 * (i + 1) - ones;
    if 0 <= k <= 8 {
      AndHighByte(x, k);
    }
    if k <= 0 {
      AndHighByte(x, 0);
    }
    if k >= 8 {
      AndZero(x);
    }
  }

  lemma AndHighByte(x: Byte, k: nat)
    requires k <= 8
    ensures Pow2(k) <= 256 && And(x, 256 - Pow2(k)) == x - x % Pow2(k)
    ensures Pow2(0) == 1 && And(x, 255) == x
  {
    hide And;
    assert Pow2(8) == 256 && Pow2(0) == 1;
    AndHighMask(x, 8, k);
    AndHighMask(x, 8, 0);
  }

  /** Clearing the low bits loses exactly the remainder. */
  lemma SameQuotient(x: nat, y: nat, d: nat)
    requires d > 0
    ensures x - x % d == y - y % d <==> x / d == y / d
  {
    var q, q' := x / d, y / d;
    assert x == d * q + x % d && y == d * q' + y % d;
    MultipleIsFar(q - q', d);
    assert (q - q') * d == d * q - d * q';
  }

  /** A quotient by a divisor of 256 splits at the last byte. */
  lemma DivLastByte(m: nat, last: Byte, d: nat, e: nat)
    requires d * e == 256 && d > 0
    ensures (256 * m + last) / d == m * e + last / d
    ensures last / d < e
  {
    var q, r := last / d, last % d;
    assert last == d * q + r;
    assert (m * e + q) * d == m * (d * e) + d * q;
    DivModUnique(256 * m + last, d, m * e + q, r);
    MultipleIsFar(q - e, d);
    assert (q - e) * d == d * q - 256;
  }

  /** Comparing pairs of a high part and a low digit. */
  lemma PairsEqual(m: nat, l: nat, m': nat, l': nat, e: nat)
    requires l < e && l' < e
    ensures m * e + l == m' * e + l' <==> m == m' && l == l'
  {
    DivModUnique(m * e + l, e, m, l);
    DivModUnique(m' * e + l', e, m', l');
  }

  /** Bytewise masked comparison compares the numbers without their host bits. */
  lemma {:induction false} SameMaskedIsSameQuotient(a: Address, b: Address, ones: nat)
    requires |a| == |b| && ones <= 8 * |a|
    ensures SameMasked(a, b, ones) <==> ToNat(a) / Pow2(8 * |a| - ones) == ToNat(b) / Pow2(8 * |a| - ones)
    decreases |a|
  {
    hide And, MaskByte, Pow2;
    if a != [] {
      var n := |a| - 1;
      var a', b' := a[..n], b[..n];
      assert SameMasked(a, b, ones)
             <==> && SameMasked(a', b', ones)
                  && And(a[n], MaskByte(ones, n)) == And(b[n], MaskByte(ones, n));
      AndMaskByte(a[n], ones, n);
      AndMaskByte(b[n], ones, n);
      var h := 8 * |a| - ones;
      if ones <= 8 * n {
        SameMaskedIsSameQuotient(a', b', ones);
        DropLastByte(a, h);
        DropLastByte(b, h);
      } else {
        FullyMasked(a', b', ones);
        KeepPartOfLastByte(a, b, h);
      }
    }
  }

  lemma DropLastByte(a: Address, h: nat)
    requires a != [] && h >= 8
    ensures ToNat(a) / Pow2(h) == ToNat(a[..|a| - 1]) / Pow2(h - 8)
  {
    Pow2Sum(8, h - 8);
    assert Pow2(8) == 256;
    DivDiv(ToNat(a), Pow2(h - 8));
    assert ToNat(a) / 256 == ToNat(a[..|a| - 1]);
  }

  lemma KeepPartOfLastByte(a: Address, b: Address, h: nat)
    requires a != [] && |a| == |b| && h < 8
    ensures var n := |a| - 1;
            ToNat(a) / Pow2(h) == ToNat(b) / Pow2(h)
            <==> a[..n] == b[..n] && a[n] - a[n] % Pow2(h) == b[n] - b[n] % Pow2(h)
  {
    var n := |a| - 1;
    Pow2Sum(h, 8 - h);
    assert Pow2(8) == 256;
    assert ToNat(a) == 256 * ToNat(a[..n]) + a[n] && ToNat(b) == 256 * ToNat(b[..n]) + b[n];
    hide ToNat, Pow2;
    SplitQuotients(ToNat(a), ToNat(a[..n]), a[n], ToNat(b), ToNat(b[..n]), b[n], Pow2(h), Pow2(8 - h));
    if ToNat(a[..n]) == ToNat(b[..n]) {
      ToNatInjective(a[..n], b[..n]);
    }
  }

  lemma SplitQuotients(x: nat, m: nat, l: Byte, x': nat, m': nat, l': Byte, d: nat, e: nat)
    requires d > 0 && d * e == 256 && x == 256 * m + l && x' == 256 * m' + l'
    ensures x / d == x' / d <==> m == m' && l - l % d == l' - l' % d
  {
    DivLastByte(m, l, d, e);
    DivLastByte(m', l', d, e);
    PairsEqual(m, l / d, m', l' / d, e);
    SameQuotient(l, l', d);
  }

  /** Under a mask of ones, only equal bytes compare equal. */
  lemma FullyMasked(a: Address, b: Address, ones: nat)
    requires |a| == |b| && ones >= 8 * |a|
    ensures SameMasked(a, b, ones) <==> a == b
  {
    forall i | 0 <= i < |a|
      ensures And(a[i], MaskByte(ones, i)) == a[i] && And(b[i], MaskByte(ones, i)) == b[i]
    {
      AndMaskByte(a[i], ones, i);
      AndMaskByte(b[i], ones, i);
    }
  }

  /** The host bits of a masked base address are zero in the number it stands for. */
  lemma {:induction false} MaskedBase(a: Address, ones: nat)
    requires ones <= 8 * |a|
    requires forall i :: 0 <= i < |a| ==> And(a[i], MaskByte(ones, i)) == a[i]
    ensures ToNat(a) % Pow2(8 * |a| - ones) == 0
    decreases |a|
  {
    if a != [] {
      var n := |a| - 1;
      var h := 8 * |a| - ones;
      AndMaskByte(a[n], ones, n);
      assert Pow2(8) == 256;
      if ones <= 8 * n {
        MaskedBase(a[..n], ones);
        Pow2Sum(8, h - 8);
        ScaledMultiple(ToNat(a[..n]), Pow2(h - 8));
      } else {
        Pow2Sum(h, 8 - h);
        hide Pow2;
        LowMultiple(ToNat(a[..n]), a[n], Pow2(h), Pow2(8 - h));
      }
    }
  }

  lemma ScaledMultiple(m: nat, d: nat)
    requires d > 0 && m % d == 0
    ensures 256 * m % (256 * d) == 0
  {
    var q := m / d;
    assert m == d * q;
    assert 256 * (d * q) == q * (256 * d);
    ModMultiple(q, 256 * d);
  }

  lemma LowMultiple(m: nat, last: nat, d: nat, e: nat)
    requires d * e == 256 && d > 0 && last % d == 0
    ensures (256 * m + last) % d == 0
  {
    var q := last / d;
    assert last == d * q;
    assert (m * e + q) * d == m * (d * e) + d * q;
    ModMultiple(m * e + q, d);
  }

  lemma MultipleFits(base: nat, d: nat, e: nat)
    requires d > 0 && base % d == 0 && base < d * e
    ensures base + d <= d * e
  {
    var q := base / d;
    assert base == d * q;
    MultipleIsFar(e - q, d);
    assert (e - q) * d == d * e - d * q;
  }

  lemma IntervalQuotient(x: nat, base: nat, d: nat)
    requires d > 0 && base % d == 0
    ensures x / d == base / d <==> base <= x < base + d
  {
    var q := base / d;
    assert base == d * q;
    assert x == d * (x / d) + x % d;
    if base <= x < base + d {
      DivModUnique(x, d, q, x - base);
    }
  }

  /** Membership is an interval of numbers: the network's 2^h addresses from its base on. */
  lemma ContainsIsInterval(n: IPNet, a: Address)
    requires n.Valid() && |Canonical(a)| == |n.ip|
    ensures n.Base() % Pow2(n.HostLength()) == 0
    ensures n.Contains(a) <==> n.Base() <= ToNat(Canonical(a)) < n.Base() + Pow2(n.HostLength())
  {
    hide And, MaskByte, ToNat, Pow2, Canonical;
    var x := Canonical(a);
    MaskedBase(n.ip, n.ones);
    SameMaskedIsSameQuotient(n.ip, x, n.ones);
    IntervalQuotient(ToNat(x), n.Base(), Pow2(n.HostLength()));
  }

  /** An IPv4 address counts the same when it is held in sixteen bytes. */
  lemma MappedAddressCounts(n: IPNet, a: Address)
    requires |a| == 4
    ensures n.Contains([0, 0, 0, 0, 0, 0, 0, 0, 0, 0, 255, 255] + a) <==> n.Contains(a)
  {
    var m: Address := [0, 0, 0, 0, 0, 0, 0, 0, 0, 0, 255, 255] + a;
    assert m[..12] == V4_IN_V6_PREFIX && m[12..] == a;
  }

  /** The network lies within its address family. */
  lemma NetworkFitsWidth(n: IPNet)
    requires n.Valid()
    ensures n.Base() + Pow2(n.HostLength()) <= Pow2(n.Width())
  {
    MaskedBase(n.ip, n.ones);
    ToNatBound(n.ip);
    Pow2Sum(n.HostLength(), n.ones);
    MultipleFits(n.Base(), Pow2(n.HostLength()), Pow2(n.ones));
  }
}
