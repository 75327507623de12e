/** Ordering network links by speed (linksByDescendingSpeed in internal/network/network.go). */
module Links {

  datatype Device = Device(link: string, bitsPerSecond: int)

  ghost predicate Descending(s: seq<Device>) {
    forall i, j :: 0 <= i < j < |s| ==> s[i].bitsPerSecond >= s[j].bitsPerSecond
  }

  /** The devices of one speed, in order. */
  function OfSpeed(s: seq<Device>, v: int): seq<Device> {
    if s == [] then []
    else (if s[0].bitsPerSecond == v then [s[0]] else []) + OfSpeed(s[1..], v)
  }

  /** Within every speed, the same devices in the same order. */
  ghost predicate SameWithinSpeeds(s: seq<Device>, t: seq<Device>) {
    forall v :: OfSpeed(s, v) == OfSpeed(t, v)
  }

  /** Descending speed, with devices of equal speed in the order in which they were found. */
  ghost predicate StableOrder(found: seq<Device>, r: seq<Device>) {
    Descending(r) && SameWithinSpeeds(found, r)
  }

  lemma {:induction false} OfSpeedConcat(s: seq<Device>, t: seq<Device>, v: int)
    ensures OfSpeed(s + t, v) == OfSpeed(s, v) + OfSpeed(t, v)
  {
    if s == [] {
      assert s + t == t;
    } else {
      assert (s + t)[1..] == s[1..] + t;
      OfSpeedConcat(s[1..], t, v);
    }
  }

  lemma {:induction false} OfSpeedMembers(s: seq<Device>, v: int)
    ensures forall d :: d in OfSpeed(s, v) <==> d in s && d.bitsPerSecond == v
  {
    if s != [] {
      OfSpeedMembers(s[1..], v);
      assert s == [s[0]] + s[1..];
    }
  }

  /** A stable order is a permutation of the devices found. */
  lemma StableOrderIsPermutation(found: seq<Device>, r: seq<Device>)
    requires StableOrder(found, r)
    ensures multiset(r) == multiset(found)
  {
    forall d: Device
      ensures multiset(r)[d] == multiset(found)[d]
    {
      CountOfSpeed(r, d);
      CountOfSpeed(found, d);
    }
  }

  lemma {:induction false} CountOfSpeed(s: seq<Device>, d: Device)
    ensures multiset(s)[d] == multiset(OfSpeed(s, d.bitsPerSecond))[d]
  {
    if s != [] {
      CountOfSpeed(s[1..], d);
      assert s == [s[0]] + s[1..];
    }
  }

  /** There is only one stable order, so every stable sort gives it. */
  lemma {:induction false} StableOrderIsUnique(found: seq<Device>, r: seq<Device>, r': seq<Device>)
    requires StableOrder(found, r) && StableOrder(found, r')
    ensures r == r'
    decreases |r|
  {
    if r == [] {
      if r' != [] {
        SameFirst(r', r);
      }
    } else {
      SameFirst(r, r');
      forall v
        ensures OfSpeed(r[1..], v) == OfSpeed(r'[1..], v)
      {
        var first := if r[0].bitsPerSecond == v then [r[0]] else [];
        assert OfSpeed(r, v) == first + OfSpeed(r[1..], v);
        assert OfSpeed(r', v) == first + OfSpeed(r'[1..], v);
        assert OfSpeed(r, v) == OfSpeed(r', v);
        assert OfSpeed(r[1..], v) == OfSpeed(r, v)[|first|..];
        assert OfSpeed(r'[1..], v) == OfSpeed(r', v)[|first|..];
      }
      StableOrderIsUnique(r[1..], r[1..], r'[1..]);
    }
  }

  lemma SameFirst(r: seq<Device>, r': seq<Device>)
    requires r != [] && Descending(r) && Descending(r') && SameWithinSpeeds(r, r')
    ensures r' != [] && r[0] == r'[0]
  {
    var v := r[0].bitsPerSecond;
    assert OfSpeed(r, v)[0] == r[0];
    assert OfSpeed(r', v)[0] == r[0];
    hide OfSpeed;
    assert r[0] in r' by {
      OfSpeedMembers(r', v);
      assert r[0] in OfSpeed(r', v);
    }
    var v' := r'[0].bitsPerSecond;
    assert r'[0] in r by {
      OfSpeedMembers(r, v');
      OfSpeedMembers(r', v');
      assert OfSpeed(r, v') == OfSpeed(r', v');
    }
    Highest(r, r'[0]);
    Highest(r', r[0]);
    assert v' == v;
    FirstIsFirst(r');
  }

  lemma Highest(r: seq<Device>, d: Device)
    requires Descending(r) && d in r
    ensures d.bitsPerSecond <= r[0].bitsPerSecond
  {
  }

  lemma FirstIsFirst(r: seq<Device>)
    requires r != []
    ensures OfSpeed(r, r[0].bitsPerSecond) != [] && OfSpeed(r, r[0].bitsPerSecond)[0] == r[0]
  {
  }

  /** The first link is the earliest found among the fastest. */
  lemma FirstIsEarliestFastest(found: seq<Device>, r: seq<Device>) returns (i: nat)
    requires StableOrder(found, r) && found != []
    ensures r != [] && i < |found| && r[0] == found[i]
    ensures forall j :: 0 <= j < |found| ==> found[j].bitsPerSecond <= found[i].bitsPerSecond
    ensures forall j :: 0 <= j < i ==> found[j].bitsPerSecond < found[i].bitsPerSecond
  {
    StableOrderIsPermutation(found, r);
    assert |r| == |multiset(r)| == |found|;
    var v := r[0].bitsPerSecond;
    assert OfSpeed(r, v)[0] == r[0];
    i := FirstOfSpeed(found, v);
    forall j | 0 <= j < |found|
      ensures found[j].bitsPerSecond <= v
    {
      assert found[j] in multiset(found);
      assert found[j] in r;
    }
  }

  lemma {:induction false} FirstOfSpeed(s: seq<Device>, v: int) returns (i: nat)
    requires OfSpeed(s, v) != []
    ensures i < |s| && s[i] == OfSpeed(s, v)[0] && s[i].bitsPerSecond == v
    ensures forall j :: 0 <= j < i ==> s[j].bitsPerSecond != v
  {
    if s[0].bitsPerSecond == v {
      i := 0;
    } else {
      i := FirstOfSpeed(s[1..], v);
      i := i + 1;
    }
  }

  /** Exchanging neighbours of different speed keeps the order within every speed. */
  lemma ExchangeKeepsOrder(s: seq<Device>, j: nat, t: seq<Device>)
    requires j + 1 < |s| && s[j].bitsPerSecond != s[j + 1].bitsPerSecond
    requires t == s[j := s[j + 1]][j + 1 := s[j]]
    ensures SameWithinSpeeds(s, t)
  {
    forall v
      ensures OfSpeed(t, v) == OfSpeed(s, v)
    {
      var a, b, x, y := s[..j], s[j + 2..], s[j], s[j + 1];
      assert s == a + ([x] + ([y] + b)) && t == a + ([y] + ([x] + b));
      OfSpeedConcat(a, [x] + ([y] + b), v);
      OfSpeedConcat(a, [y] + ([x] + b), v);
      assert ([x] + ([y] + b))[1..] == [y] + b && ([y] + b)[1..] == b;
      assert ([y] + ([x] + b))[1..] == [x] + b && ([x] + b)[1..] == b;
    }
  }

  lemma Reflexive(s: seq<Device>)
    ensures SameWithinSpeeds(s, s)
  {
  }

  lemma Transitive(s: seq<Device>, t: seq<Device>, u: seq<Device>)
    requires SameWithinSpeeds(s, t) && SameWithinSpeeds(t, u)
    ensures SameWithinSpeeds(s, u)
  {
  }

  /** The stable insertion sort, in place, and the projection to links. */
  method LinksByDescendingSpeed(devices: array<Device>) returns (links: seq<string>)
    modifies devices
    ensures StableOrder(old(devices[..]), devices[..])
    ensures forall i, j :: 0 <= i < j < devices.Length ==> devices[i].bitsPerSecond >= devices[j].bitsPerSecond
    ensures multiset(devices[..]) == old(multiset(devices[..]))
    ensures |links| == devices.Length && forall i :: 0 <= i < |links| ==> links[i] == devices[i].link
  {
    hide SameWithinSpeeds;
    assert SameWithinSpeeds(devices[..], devices[..]) by {
      Reflexive(devices[..]);
    }
    for i := 0 to devices.Length
      invariant SameWithinSpeeds(old(devices[..]), devices[..])
      invariant forall k, m :: 0 <= k < m < i ==> devices[k].bitsPerSecond >= devices[m].bitsPerSecond
    {
      var j := i;
      while j > 0 && devices[j].bitsPerSecond > devices[j - 1].bitsPerSecond
        invariant 0 <= j <= i
        invariant SameWithinSpeeds(old(devices[..]), devices[..])
        invariant forall k, m :: 0 <= k < m <= i && m != j ==> devices[k].bitsPerSecond >= devices[m].bitsPerSecond
      {
        ghost var before := devices[..];
        devices[j], devices[j - 1] := devices[j - 1], devices[j];
        ExchangeKeepsOrder(before, j - 1, devices[..]);
        Transitive(old(devices[..]), before, devices[..]);
        j := j - 1;
      }
    }
    assert Descending(devices[..]);
    StableOrderIsPermutation(old(devices[..]), devices[..]);
    links := [];
    for i := 0 to devices.Length
      invariant |links| == i && forall k :: 0 <= k < i ==> links[k] == devices[k].link
    {
      links := links + [devices[i].link];
    }
  }
}
