/** Choosing and validating the gateway of a static network configuration (internal/options/options.go). */
module Gateway {
  import opened Base
  import opened Bits
  import opened Netmask

  /** A host address with the network its prefix length gives it. */
  datatype Host = Host(ip: Address, net: IPNet) {
    predicate Valid() {
      && net.Valid() && |ip| == |net.ip| && Canonical(ip) == ip && net.Contains(ip)
    }
  }

  datatype Choice = Unset | Unparsable | Given(addr: Address)

  datatype GatewayError = MalformedHost | MalformedGateway | OutsideNetwork | SameAsHost

  /** An address of some family. */
  predicate IsAddress(a: Address) {
    |a| == 4 || |a| == 16
  }

  /** Printing bytes as an address and parsing the text: bytes of any other length do not print as one. */
  function ParseBack(a: Address): Option<Address> {
    if IsAddress(a) then Some(Canonical(a)) else None
  }

  /** The number of the last usable address: the one before the broadcast address, save for an IPv4 /31. */
  function LastUsable(n: IPNet): int {
    n.Base() + Pow2(if n.HostLength() < 0 then 0 else n.HostLength())
    - (if n.ones == 31 && |n.ip| == 4 then 1 else 2)
  }

  /** netip.Addr.Next: nothing follows the all-ones address. */
  function Next(a: Address): Option<Address> {
    if ToNat(a) + 1 == Pow2(8 * |a|) then None else Some(FixedBytes(ToNat(a) + 1, |a|))
  }

  /** The last address as big.Int arithmetic computes it, in the bytes big.Int emits. */
  method MaxHost(n: IPNet) returns (addr: Address)
    requires n.Valid()
    ensures n.HostLength() == 0 ==> addr == n.ip
    ensures n.HostLength() > 0 ==> LastUsable(n) >= 0 && ToNat(addr) == LastUsable(n) && addr == ToBytes(LastUsable(n))
    ensures n.ones < 8 * |n.ip| ==>
              ToNat(addr) + (if |n.ip| == 4 && n.ones == 31 then 1 else 2) == ToNat(n.ip) + Pow2(8 * |n.ip| - n.ones)
  {
    if n.ones == n.Width() {
      return n.ip;
    }
    hide And, MaskByte, SameMasked;
    var firstIP := ToNat(n.ip);
    var hostLen := n.Width() - n.ones;
    var lastIP := 1;
    lastIP := lastIP * Pow2(hostLen);
    assert Pow2(hostLen) >= 2;
    MaskedBase(n.ip, n.ones);
    hide Pow2, ToNat, ToBytes, Or;
    lastIP := lastIP - 1;
    OrFillsLowBits(firstIP, hostLen);
    lastIP := Or(lastIP, firstIP);
    if !(n.ones == 31 && |n.ip| == 4) {
      lastIP := lastIP - 1;
    }
    addr := ToBytes(lastIP);
    ToNatOfToBytes(lastIP);
  }

  /** What MaxHost emits. */
  function MaxHostBytes(n: IPNet): Address
    requires n.Valid()
  {
    if n.HostLength() == 0 then n.ip
    else
      assert Pow2(n.HostLength()) >= 2;
      ToBytes(LastUsable(n))
  }

  /**
   The last address lies in the network. Its bytes have the length of an address of the network's family
   exactly when its top octet is not zero, and then they denote a member; otherwise they are fewer.
   */
  lemma MaxHostEmission(n: IPNet)
    requires n.Valid() && n.HostLength() > 0
    ensures n.Base() <= LastUsable(n) < n.Base() + Pow2(n.HostLength())
    ensures |MaxHostBytes(n)| <= |n.ip|
    ensures |MaxHostBytes(n)| == |n.ip| <==> LastUsable(n) >= Pow2(n.Width() - 8)
    ensures |MaxHostBytes(n)| == |n.ip| ==> Canonical(MaxHostBytes(n)) == MaxHostBytes(n) && n.Contains(MaxHostBytes(n))
    ensures n.ip[0] != 0 ==> |MaxHostBytes(n)| == |n.ip|
  {
    var v, b, k := LastUsable(n), MaxHostBytes(n), |n.ip|;
    assert Pow2(n.HostLength()) >= 2;
    NetworkFitsWidth(n);
    ToBytesLength(v, k);
    ToNatLeading(n.ip);
    ShorterBytes(v, k);
    ToNatOfToBytes(v);
    if |b| == k {
      ToNatLeading(b);
      ContainsIsInterval(n, b);
    }
  }

  lemma {:induction false} ShorterBytes(v: nat, k: nat)
    requires v < Pow2(8 * k)
    ensures |ToBytes(v)| <= k
    decreases k
  {
    if k > 0 {
      Pow2Sum(8, 8 * (k - 1));
      assert Pow2(8) == 256;
      ShorterBytes(v / 256, k - 1);
    }
  }

  /** The address that the options select as gateway, if their text denotes one. */
  function Selected(host: Host, gateway: Choice, tryLast: bool): Option<Address>
    requires host.Valid()
  {
    match gateway
    case Unparsable => None
    case Given(a) => Some(a)
    case Unset =>
      if tryLast then ParseBack(MaxHostBytes(host.net))
      else
        match Next(host.net.ip)
        case None => None
        case Some(a) => ParseBack(a)
  }

  function Validated(host: Option<Host>, gateway: Choice, force: bool, tryLast: bool): Result<Address, GatewayError>
    requires host.Some? ==> host.value.Valid()
  {
    if host == None then Err(MalformedHost)
    else if gateway.Given? && !host.value.net.Contains(gateway.addr) && !force then Err(OutsideNetwork)
    else
      match Selected(host.value, gateway, tryLast)
      case None => Err(MalformedGateway)
      case Some(a) => if a == host.value.ip && !force then Err(SameAsHost) else Ok(a)
  }

  method ValidateHostAndGateway(host: Option<Host>, gateway: Choice, force: bool, tryLast: bool)
    returns (r: Result<Address, GatewayError>)
    requires host.Some? ==> host.value.Valid()
    ensures r == Validated(host, gateway, force, tryLast)
  {
    if host == None {
      return Err(MalformedHost);
    }
    var optGateway: Option<Address> := None;
    if gateway != Unset {
      if gateway == Unparsable {
        return Err(MalformedGateway);
      }
      if !host.value.net.Contains(gateway.addr) {
        if !force {
          return Err(OutsideNetwork);
        }
      }
      optGateway := Some(gateway.addr);
    } else {
      if tryLast {
        var last := MaxHost(host.value.net);
        optGateway := ParseBack(last);
      } else {
        var next := Next(host.value.net.ip);
        optGateway := if next == None then None else ParseBack(next.value);
      }
    }
    if optGateway == None {
      return Err(MalformedGateway);
    }
    if host.value.ip == optGateway.value {
      if !force {
        return Err(SameAsHost);
      }
    }
    return Ok(optGateway.value);
  }

  /** The number of the address selected when no text is given. */
  function DefaultNumber(n: IPNet, tryLast: bool): int {
    if !tryLast then n.Base() + 1 else if n.HostLength() == 0 then n.Base() else LastUsable(n)
  }

  predicate InInterval(n: IPNet, a: Address)
    requires n.Valid()
  {
    |a| == |n.ip| && n.Base() <= ToNat(a) < n.Base() + Pow2(n.HostLength())
  }

  /** Membership of addresses that are not held in mapped form is the interval of numbers. */
  lemma MembersAreInterval(n: IPNet, a: Address)
    requires n.Valid() && Canonical(a) == a
    ensures n.Contains(a) <==> InInterval(n, a)
  {
    if |a| == |n.ip| {
      ContainsIsInterval(n, a);
    }
  }

  /**
   Which member the last address is: the greatest but one, the greatest being the broadcast address; or, of the
   two addresses of an IPv4 /31, the greatest.
   */
  lemma LastUsableIsGreatest(n: IPNet)
    requires n.Valid() && n.ones < 8 * |n.ip|
    ensures LastUsable(n) + (if |n.ip| == 4 && n.ones == 31 then 1 else 2) == ToNat(n.ip) + Pow2(8 * |n.ip| - n.ones)
    ensures forall a: Address :: Canonical(a) == a && n.Contains(a) ==>
                                   if |n.ip| == 4 && n.ones == 31 then ToNat(a) <= LastUsable(n) else ToNat(a) <= LastUsable(n) + 1
    ensures var last := FixedBytes(if |n.ip| == 4 && n.ones == 31 then LastUsable(n) else LastUsable(n) + 1, |n.ip|);
            Canonical(last) == last ==> n.Contains(last)
  {
    hide ToNat, Pow2, And, MaskByte, FixedBytes, Canonical, SameMasked;
    forall a: Address | Canonical(a) == a && n.Contains(a)
      ensures ToNat(a) <= n.Base() + Pow2(n.HostLength()) - 1
    {
      MembersAreInterval(n, a);
    }
    NetworkFitsWidth(n);
    var v := n.Base() + Pow2(n.HostLength()) - 1;
    ToNatOfFixedBytes(v, |n.ip|);
    if Canonical(FixedBytes(v, |n.ip|)) == FixedBytes(v, |n.ip|) {
      MembersAreInterval(n, FixedBytes(v, |n.ip|));
    }
  }

  lemma NextAddress(n: IPNet)
    requires n.Valid()
    ensures Next(n.ip).Some? <==> n.Base() + 1 < Pow2(n.Width())
    ensures Next(n.ip).Some? ==> |Next(n.ip).value| == |n.ip| && ToNat(Next(n.ip).value) == n.Base() + 1
    ensures Next(n.ip).Some? && n.HostLength() > 0 ==> Canonical(Next(n.ip).value) == Next(n.ip).value
  {
    hide FixedBytes, ToNat, Pow2, And, MaskByte;
    ToNatBound(n.ip);
    if Next(n.ip).Some? {
      ToNatOfFixedBytes(n.Base() + 1, |n.ip|);
      if n.HostLength() > 0 {
        BaseIsEven(n);
        OnlyTheLastByteDiffers(n.ip, Next(n.ip).value);
      }
    }
  }

  lemma BaseIsEven(n: IPNet)
    requires n.Valid() && n.HostLength() > 0
    ensures n.Base() % 2 == 0
  {
    MaskedBase(n.ip, n.ones);
    assert Pow2(n.HostLength()) == 2 * Pow2(n.HostLength() - 1);
    hide *;
    EvenMultiple(n.Base(), Pow2(n.HostLength() - 1));
  }

  lemma EvenMultiple(x: nat, d: nat)
    requires d > 0 && x % (2 * d) == 0
    ensures x % 2 == 0
  {
    var q := x / (2 * d);
    assert x == 2 * d * q;
    ModMultiple(d * q, 2);
    assert d * q * 2 == 2 * d * q;
  }

  /** Adding one to an even number does not carry past its last byte. */
  lemma OnlyTheLastByteDiffers(a: Address, b: Address)
    requires a != [] && |a| == |b| && ToNat(a) % 2 == 0 && ToNat(b) == ToNat(a) + 1
    ensures a[..|a| - 1] == b[..|a| - 1]
    ensures Canonical(a) == a ==> Canonical(b) == b
  {
    var n := |a| - 1;
    SameHigherDigits(ToNat(a), ToNat(a[..n]), a[n], ToNat(b[..n]), b[n]);
    hide Canonical, ToNat;
    ToNatInjective(a[..n], b[..n]);
    CanonicalByPrefix(a, b);
  }

  lemma SameHigherDigits(x: nat, m: nat, last: Byte, m': nat, last': Byte)
    requires x == 256 * m + last && x + 1 == 256 * m' + last' && x % 2 == 0
    ensures m == m'
  {
    if last == 255 {
      DivModUnique(x, 2, 128 * m + 127, 1);
    } else {
      DivModUnique(x + 1, 256, m, last + 1);
      DivModUnique(x + 1, 256, m', last');
    }
  }

  /** Whether an address is held in mapped form shows before its last byte. */
  lemma CanonicalByPrefix(a: Address, b: Address)
    requires a != [] && |a| == |b| && a[..|a| - 1] == b[..|a| - 1]
    ensures Canonical(a) == a ==> Canonical(b) == b
  {
    if |a| == 16 {
      assert a[..12] == a[..15][..12] && b[..12] == b[..15][..12];
    }
  }

  lemma NextDiffers(a: Address)
    requires Next(a).Some? && IsAddress(a)
    ensures Canonical(Next(a).value) != a
  {
    ToNatBound(a);
    ToNatOfFixedBytes(ToNat(a) + 1, |a|);
  }

  /** What is selected by default, but for the last address of more than one: the address of a known number. */
  lemma SelectedByDefault(host: Host, tryLast: bool)
    requires host.Valid() && !(tryLast && host.net.HostLength() > 0)
    ensures var s, v := Selected(host, Unset, tryLast), DefaultNumber(host.net, tryLast);
            && (s.Some? <==> v < Pow2(host.net.Width()))
            && (s.Some? ==> s.value == Canonical(FixedBytes(v, |host.ip|)))
            && (s.Some? && (tryLast || host.net.HostLength() > 0) ==> |s.value| == |host.ip| && ToNat(s.value) == v)
            && (s.Some? ==> (s.value == host.ip <==> v == ToNat(host.ip)))
  {
    hide Canonical, Pow2, ToNat, FixedBytes, And, MaskByte;
    var n := host.net;
    ToNatBound(n.ip);
    NextAddress(n);
    var v := DefaultNumber(n, tryLast);
    if v < Pow2(n.Width()) {
      ToNatOfFixedBytes(v, |host.ip|);
      FixedBytesOfToNat(host.ip);
      if tryLast {
        FixedBytesOfToNat(n.ip);
      } else if n.HostLength() == 0 {
        LoneAddress(host);
        NextDiffers(n.ip);
      }
    }
  }

  lemma LoneAddress(host: Host)
    requires host.Valid() && host.net.HostLength() == 0
    ensures host.ip == host.net.ip
  {
    MembersAreInterval(host.net, host.ip);
    assert Pow2(0) == 1;
    ToNatInjective(host.ip, host.net.ip);
  }

  /**
   The last-address choice without any assumption on the leading octet. It is accepted as a member of the
   network exactly when its top octet is not zero; a number of 25 to 32 bits in an IPv6 network is emitted
   in four bytes and accepted as an IPv4 address outside the network; all other choices are refused.
   */
  lemma LastAddressExactly(host: Host)
    requires host.Valid() && host.net.HostLength() > 0
    ensures var r := Validated(Some(host), Unset, false, true);
            var v := LastUsable(host.net);
            && (r.Ok? && host.net.Contains(r.value) <==> v >= Pow2(host.net.Width() - 8) && v != ToNat(host.ip))
            && (r.Ok? && !host.net.Contains(r.value) <==> |host.ip| == 16 && Pow2(24) <= v < Pow2(32))
  {
    hide And, MaskByte, ToNat, ToBytes, Pow2, Canonical, SameMasked;
    var n, b := host.net, MaxHostBytes(host.net);
    var v := LastUsable(n);
    MaxHostEmission(n);
    ToNatOfToBytes(v);
    LengthsExactly(v);
    SameNumberSameHost(host, b);
    hide *;
    LastAddressOutcome(host, b, v);
  }

  lemma LengthsExactly(v: nat)
    ensures |ToBytes(v)| == 4 <==> Pow2(24) <= v < Pow2(32)
    ensures Pow2(32) <= Pow2(120)
  {
    hide Pow2, ToBytes;
    ToBytesLength(v, 4);
    Pow2Sum(32, 88);
    MultipleIsFar(Pow2(88), Pow2(32));
  }

  lemma SameNumberSameHost(host: Host, b: Address)
    ensures |b| == |host.ip| ==> (b == host.ip <==> ToNat(b) == ToNat(host.ip))
  {
    if |b| == |host.ip| && ToNat(b) == ToNat(host.ip) {
      ToNatInjective(b, host.ip);
    }
  }

  /** What is made of the emitted bytes b of the number v. */
  lemma LastAddressOutcome(host: Host, b: Address, v: nat)
    requires host.Valid() && b == MaxHostBytes(host.net)
    requires |b| <= |host.ip| && (|b| == |host.ip| <==> v >= Pow2(host.net.Width() - 8))
    requires |b| == |host.ip| ==> Canonical(b) == b && host.net.Contains(b) && (b == host.ip <==> v == ToNat(host.ip))
    requires |b| == 4 <==> Pow2(24) <= v < Pow2(32)
    requires Pow2(32) <= Pow2(120)
    ensures var r := Validated(Some(host), Unset, false, true);
            && (r.Ok? && host.net.Contains(r.value) <==> v >= Pow2(host.net.Width() - 8) && v != ToNat(host.ip))
            && (r.Ok? && !host.net.Contains(r.value) <==> |host.ip| == 16 && Pow2(24) <= v < Pow2(32))
  {
    hide And, MaskByte, ToNat, ToBytes, Pow2, LastUsable, MaxHostBytes, SameMasked;
    assert host.net.Width() - 8 == if |host.ip| == 16 then 120 else 24;
  }

  /** The last address of a network is emitted in four bytes although the network is one of sixteen. */
  predicate LooksLikeV4(n: IPNet) {
    |n.ip| == 16 && Pow2(24) <= LastUsable(n) < Pow2(32)
  }

  /** Whether a last address is selected, which number it has, and in which family. */
  lemma LastAddressSelected(host: Host)
    requires host.Valid() && host.net.HostLength() > 0
    ensures var s, v := Selected(host, Unset, true), LastUsable(host.net);
            && (s.Some? <==> v >= Pow2(host.net.Width() - 8) || LooksLikeV4(host.net))
            && (s.Some? ==> && ToNat(s.value) == v && |s.value| == (if LooksLikeV4(host.net) then 4 else |host.ip|)
                            && (host.net.Contains(s.value) <==> |s.value| == |host.ip|)
                            && (s.value == host.ip <==> v == ToNat(host.ip) && !LooksLikeV4(host.net)))
  {
    hide And, MaskByte, ToNat, ToBytes, Pow2, Canonical, SameMasked;
    var n, b := host.net, MaxHostBytes(host.net);
    MaxHostEmission(n);
    ToNatOfToBytes(LastUsable(n));
    LengthsExactly(LastUsable(n));
    CanonicalOf(b);
    SameNumberSameHost(host, b);
    assert n.Width() - 8 == if |host.ip| == 16 then 120 else 24;
  }

  lemma CanonicalOf(b: Address)
    ensures |b| != 16 ==> Canonical(b) == b
  {
  }

  /**
   Exactly which choices are accepted, and which address is then returned. An explicit gateway must lie in the
   network's interval and differ from the host, unless forced. By default it is the address after the base. The
   last address, the greatest but one, must have a non-zero top octet, unless its number looks like an IPv4
   address. The default and the last address must differ from the host, unless forced.
   */
  lemma AcceptedChoices(host: Host, gateway: Choice, force: bool, tryLast: bool)
    requires host.Valid()
    requires gateway.Given? ==> Canonical(gateway.addr) == gateway.addr
    ensures var n, r, width := host.net, Validated(Some(host), gateway, force, tryLast), 8 * |host.net.ip|;
            var base := ToNat(n.ip);
            match gateway
            case Unparsable => r.Err?
            case Given(a) =>
              && (r.Ok? ==> r.value == a)
              && (r.Ok? <==> force || (|a| == |n.ip| && base <= ToNat(a) < base + Pow2(width - n.ones) && a != host.ip))
            case Unset =>
              if !tryLast then
                && (r.Ok? <==> base + 1 < Pow2(width) && (force || base + 1 != ToNat(host.ip)))
                && (r.Ok? ==> r.value == Canonical(FixedBytes(base + 1, |host.ip|)))
                && (r.Ok? && n.ones < width ==> |r.value| == |host.ip| && ToNat(r.value) == base + 1)
              else if n.ones == width then
                r == if force then Ok(n.ip) else Err(SameAsHost)
              else
                var v := base + Pow2(width - n.ones) - if |n.ip| == 4 && n.ones == 31 then 1 else 2;
                var likeV4 := |n.ip| == 16 && Pow2(24) <= v < Pow2(32);
                && (r.Ok? <==> (v >= Pow2(width - 8) && (force || v != ToNat(host.ip))) || likeV4)
                && (r.Ok? ==> ToNat(r.value) == v && |r.value| == if likeV4 then 4 else |host.ip|)
  {
    hide Canonical, Pow2, ToNat, FixedBytes, And, MaskByte;
    match gateway
    case Unparsable =>
    case Given(a) => MembersAreInterval(host.net, a);
    case Unset =>
      if !tryLast {
        SelectedByDefault(host, false);
      } else if host.net.HostLength() == 0 {
        LoneAddress(host);
        assert Canonical(host.ip) == host.ip;
      } else {
        LastUsableIsGreatest(host.net);
        LastAddressSelected(host);
      }
  }

  /**
   Every accepted gateway differs from the host. It lies in the host's network, save for the default of a lone
   address, and for a last address that looks like an IPv4 address.
   */
  lemma AcceptedGateway(host: Host, gateway: Choice, tryLast: bool, g: Address)
    requires host.Valid()
    requires gateway.Given? ==> Canonical(gateway.addr) == gateway.addr
    requires Validated(Some(host), gateway, false, tryLast) == Ok(g)
    ensures g != host.ip
    ensures InInterval(host.net, g)
            <==> !(gateway == Unset && (if tryLast then host.net.HostLength() > 0 && LooksLikeV4(host.net)
                                        else host.net.HostLength() == 0))
  {
    hide Canonical, Pow2, ToNat, FixedBytes, And, MaskByte;
    AcceptedChoices(host, gateway, false, tryLast);
    if gateway == Unset && host.net.HostLength() > 0 {
      MaxHostEmission(host.net);
      PowerIsTwoAtLeast(host.net.HostLength());
    } else if gateway == Unset {
      LoneAddress(host);
      LoneInterval(host.net, g);
    }
  }

  lemma PowerIsTwoAtLeast(h: nat)
    requires h > 0
    ensures Pow2(h) >= 2
  {
  }

  /** The interval of a lone address holds nothing else. */
  lemma LoneInterval(n: IPNet, g: Address)
    requires n.Valid() && n.HostLength() == 0
    ensures InInterval(n, g) ==> g == n.ip
  {
    assert Pow2(0) == 1;
    if InInterval(n, g) {
      ToNatInjective(g, n.ip);
    }
  }

  /**
   A prefix of full length leaves one address, the host's own: explicit gateways and the last address are
   refused, and the default is the following address, which exists unless the host is all ones.
   */
  lemma FullLengthPrefix(host: Host, gateway: Choice, tryLast: bool)
    requires host.Valid() && host.net.HostLength() == 0
    requires gateway.Given? ==> Canonical(gateway.addr) == gateway.addr
    ensures host.ip == host.net.ip
    ensures gateway.Given? || tryLast ==> Validated(Some(host), gateway, false, tryLast).Err?
    ensures gateway == Unset && !tryLast ==>
              var r := Validated(Some(host), gateway, false, tryLast);
              && (r.Ok? <==> ToNat(host.ip) + 1 < Pow2(host.net.Width()))
              && (r.Ok? ==> r.value == Canonical(FixedBytes(ToNat(host.ip) + 1, |host.ip|)))
  {
    var n := host.net;
    MembersAreInterval(n, host.ip);
    assert Pow2(0) == 1;
    ToNatInjective(host.ip, n.ip);
    if gateway.Given? {
      MembersAreInterval(n, gateway.addr);
      if n.Contains(gateway.addr) {
        ToNatInjective(gateway.addr, n.ip);
      }
    }
    NextAddress(n);
    if Next(n.ip).Some? {
      NextDiffers(n.ip);
    }
  }

  /** One such host: ::1/96 with the last-address option gets the gateway 255.255.255.254. */
  lemma LastAddressOutsideNetwork()
    ensures var zeros := [0, 0, 0, 0, 0, 0, 0, 0, 0, 0, 0, 0];
            var host := Host(zeros + [0, 0, 0, 1], IPNet(zeros + [0, 0, 0, 0], 96));
            && host.Valid()
            && Validated(Some(host), Unset, false, true) == Ok([255, 255, 255, 254])
            && !host.net.Contains([255, 255, 255, 254])
  {
    var zeros := [0, 0, 0, 0, 0, 0, 0, 0, 0, 0, 0, 0];
    var n := IPNet(zeros + [0, 0, 0, 0], 96);
    assert n.Valid() && n.Base() == 0 by {
      AllZeros(n.ip);
    }
    var host := Host(zeros + [0, 0, 0, 1], n);
    assert host.Valid() by {
      hide And, Pow2, ToNat;
      assert ToNat(host.ip) == 1 < Pow2(32) by {
        LastBit(host.ip);
      }
      MembersAreInterval(n, host.ip);
    }
    hide Pow2;
    assert Pow2(32) == 0x1_0000_0000 by {
      Pow2Of32();
    }
    Digits();
  }

  lemma LastBit(a: Address)
    requires a == [0, 0, 0, 0, 0, 0, 0, 0, 0, 0, 0, 0, 0, 0, 0, 1]
    ensures ToNat(a) == 1 < Pow2(32)
  {
    AllZeros(a[..15]);
    Pow2Of32();
  }

  lemma Digits()
    ensures ToBytes(0xFFFF_FFFE) == [255, 255, 255, 254]
  {
    assert ToBytes(0xFF) == [255];
    assert ToBytes(0xFFFF) == [255, 255];
    assert ToBytes(0xFF_FFFF) == [255, 255, 255];
  }

  lemma {:induction false} AllZeros(b: seq<Byte>)
    requires forall i :: 0 <= i < |b| ==> b[i] == 0
    ensures ToNat(b) == 0
  {
    if b != [] {
      AllZeros(b[..|b| - 1]);
    }
  }
}
