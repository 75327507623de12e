/** The SSH wire types of section 5 of RFC 4251, as far as the private key format uses them. */
module Wire {
  import opened Base
  import opened Bits

  const UINT32_LIMIT: nat := 0x1_0000_0000

  type Uint32 = n: nat | n < 0x1_0000_0000

  /** A uint32 field; a larger number is truncated, as a Go conversion does. */
  function U32(n: nat): (b: seq<Byte>)
    ensures |b| == 4
  {
    FixedBytes(n, 4)
  }

  function FromU32(b: seq<Byte>): (n: Uint32)
    requires |b| == 4
  {
    FourBytes(b);
    ToNat(b)
  }

  lemma FourBytes(b: seq<Byte>)
    requires |b| == 4
    ensures ToNat(b) < UINT32_LIMIT == Pow2(32)
  {
    ToNatBound(b);
    Pow2Of32();
  }

  /** Numbers travel most significant byte first. */
  lemma U32Bytes(n: nat)
    ensures U32(n) == [n / 0x100_0000 % 256, n / 0x1_0000 % 256, n / 0x100 % 256, n % 256]
  {
    var a, b, c := n / 0x100, n / 0x1_0000, n / 0x100_0000;
    DivDiv(n, 0x100);
    DivDiv(n, 0x1_0000);
    DivDiv(a, 0x100);
    assert a / 256 == b && b / 256 == c;
    assert FixedBytes(c, 1) == FixedBytes(c / 256, 0) + [c % 256] == [c % 256];
    assert FixedBytes(b, 2) == [c % 256] + [b % 256];
    assert FixedBytes(a, 3) == [c % 256] + [b % 256] + [a % 256];
  }

  lemma FromU32Bytes(b: seq<Byte>)
    requires |b| == 4
    ensures FromU32(b) == 0x100_0000 * b[0] as int + 0x1_0000 * b[1] as int + 0x100 * b[2] as int + b[3]
  {
    assert b[..3][..2] == b[..2] && b[..2][..1] == b[..1] && b[..1][..0] == [];
    assert ToNat(b[..1]) == b[0] && ToNat(b[..2]) == 256 * ToNat(b[..1]) + b[1];
    assert ToNat(b[..3]) == 256 * ToNat(b[..2]) + b[2] && ToNat(b) == 256 * ToNat(b[..3]) + b[3];
  }

  lemma U32OfFromU32(b: seq<Byte>)
    requires |b| == 4
    ensures U32(FromU32(b)) == b
  {
    FixedBytesOfToNat(b);
  }

  lemma FromU32OfU32(n: nat)
    ensures FromU32(U32(n)) == n % UINT32_LIMIT
  {
    ToNatOfFixedBytes(n, 4);
    FourBytes(U32(n));
  }

  /** A string field: its length, truncated to 32 bits, and its bytes. */
  function Str(s: seq<Byte>): (b: seq<Byte>)
    ensures |b| == 4 + |s|
  {
    U32(|s|) + s
  }

  datatype Taken<+T> = Taken(field: T, rest: seq<Byte>) | Short

  function TakeU32(b: seq<Byte>): Taken<Uint32> {
    if |b| < 4 then Short else Taken(FromU32(b[..4]), b[4..])
  }

  function TakeStr(b: seq<Byte>): Taken<seq<Byte>> {
    if |b| < 4 then Short
    else
      var n := FromU32(b[..4]);
      if |b| - 4 < n then Short else Taken(b[4..4 + n], b[4 + n..])
  }

  /** What a taken number stood for. */
  lemma TakeU32Lossless(b: seq<Byte>)
    ensures match TakeU32(b)
            case Taken(n, rest) => b == U32(n) + rest
            case Short => |b| < 4
  {
    if |b| >= 4 {
      U32OfFromU32(b[..4]);
    }
  }

  /** What a taken string stood for. */
  lemma TakeStrLossless(b: seq<Byte>)
    ensures match TakeStr(b)
            case Taken(s, rest) => |s| < UINT32_LIMIT && b == Str(s) + rest
            case Short => true
  {
    if |b| >= 4 {
      U32OfFromU32(b[..4]);
      var n := FromU32(b[..4]);
      if |b| - 4 >= n {
        assert b == b[..4] + (b[4..4 + n] + b[4 + n..]);
      }
    }
  }

  lemma TakeU32OfU32(n: Uint32, rest: seq<Byte>)
    ensures TakeU32(U32(n) + rest) == Taken(n, rest)
  {
    FromU32OfU32(n);
    assert (U32(n) + rest)[..4] == U32(n);
    assert (U32(n) + rest)[4..] == rest;
  }

  /** A string field reads back whole exactly when its length fits; a longer one reads back cut short. */
  lemma TakeStrOfStr(s: seq<Byte>, rest: seq<Byte>)
    ensures var n := |s| % UINT32_LIMIT;
            TakeStr(Str(s) + rest) == Taken(s[..n], s[n..] + rest)
    ensures |s| < UINT32_LIMIT ==> TakeStr(Str(s) + rest) == Taken(s, rest)
  {
    FromU32OfU32(|s|);
    var n := |s| % UINT32_LIMIT;
    var b := Str(s) + rest;
    assert b[..4] == U32(|s|);
    assert n <= |s| && |b| - 4 >= n;
    assert b[4..4 + n] == s[..n];
    assert b[4 + n..] == s[n..] + rest;
    if |s| < UINT32_LIMIT {
      assert n == |s|;
      assert s[..n] == s && s[n..] + rest == rest;
    }
  }

  // ----- Structures -----

  datatype Kind = NumberKind | TextKind | RestKind

  /** A field of a marshalled structure; a rest field has no length of its own. */
  datatype Field = Number(number: Uint32) | Text(text: seq<Byte>) | Rest(rest: seq<Byte>) {
    function Kind(): Kind {
      if Number? then NumberKind else if Text? then TextKind else RestKind
    }

    function Bytes(): seq<Byte> {
      if Number? then U32(number) else if Text? then Str(text) else rest
    }

    predicate Fits() {
      Text? ==> |text| < UINT32_LIMIT
    }
  }

  /** ssh.Marshal */
  function Marshal(fields: seq<Field>): seq<Byte> {
    if fields == [] then [] else fields[0].Bytes() + Marshal(fields[1..])
  }

  function TakeField(b: seq<Byte>, kind: Kind): Taken<Field> {
    match kind
    case NumberKind => (match TakeU32(b) case Taken(n, rest) => Taken(Number(n), rest) case Short => Short)
    case TextKind => (match TakeStr(b) case Taken(s, rest) => Taken(Text(s), rest) case Short => Short)
    case RestKind => Taken(Rest(b), [])
  }

  predicate OfKinds(fields: seq<Field>, kinds: seq<Kind>) {
    |fields| == |kinds| && forall i :: 0 <= i < |fields| ==> fields[i].Kind() == kinds[i]
  }

  predicate AllFit(fields: seq<Field>) {
    forall i :: 0 <= i < |fields| ==> fields[i].Fits()
  }

  /** A rest field comes last. */
  predicate RestIsLast(kinds: seq<Kind>) {
    forall i :: 0 <= i < |kinds| - 1 ==> kinds[i] != RestKind
  }

  /** ssh.Unmarshal: bytes left over are refused. */
  function Unmarshal(b: seq<Byte>, kinds: seq<Kind>): (r: Option<seq<Field>>)
    ensures r.Some? ==> OfKinds(r.value, kinds)
    decreases |kinds|, b
  {
    if kinds == [] then if b == [] then Some([]) else None
    else
      match TakeField(b, kinds[0])
      case Short => None
      case Taken(field, rest) =>
        match Unmarshal(rest, kinds[1..])
        case None => None
        case Some(fields) => Some([field] + fields)
  }

  /** What a taken field stood for. */
  lemma TakeFieldLossless(b: seq<Byte>, kind: Kind)
    ensures match TakeField(b, kind)
            case Taken(field, rest) => field.Kind() == kind && field.Fits() && b == field.Bytes() + rest
            case Short => true
  {
    hide TakeU32, TakeStr, U32, Str;
    TakeU32Lossless(b);
    TakeStrLossless(b);
    assert b == b + [];
  }

  lemma TakeFieldOfBytes(field: Field, rest: seq<Byte>)
    requires field.Fits() && (field.Rest? ==> rest == [])
    ensures TakeField(field.Bytes() + rest, field.Kind()) == Taken(field, rest)
  {
    hide TakeU32, TakeStr, U32, Str;
    match field
    case Number(n) => TakeU32OfU32(n, rest);
    case Text(s) => TakeStrOfStr(s, rest);
    case Rest(r) => assert r + rest == r;
  }

  /** Unmarshalling inverts marshalling, in both directions. */
  lemma {:induction false} UnmarshalExact(b: seq<Byte>, kinds: seq<Kind>, fields: seq<Field>)
    requires RestIsLast(kinds)
    ensures Unmarshal(b, kinds) == Some(fields) <==> OfKinds(fields, kinds) && AllFit(fields) && b == Marshal(fields)
    decreases |kinds|
  {
    hide TakeField, Field.Bytes, Field.Fits, Field.Kind;
    if kinds != [] {
      if Unmarshal(b, kinds) == Some(fields) {
        var taken := TakeField(b, kinds[0]);
        TakeFieldLossless(b, kinds[0]);
        assert fields[1..] == Unmarshal(taken.rest, kinds[1..]).value;
        UnmarshalExact(taken.rest, kinds[1..], fields[1..]);
      }
      if OfKinds(fields, kinds) && AllFit(fields) && b == Marshal(fields) {
        var rest := Marshal(fields[1..]);
        assert kinds[0] == RestKind ==> |kinds| == 1 && fields[1..] == [];
        HeadFits(fields, kinds);
        TakeFieldOfBytes(fields[0], rest);
        UnmarshalExact(rest, kinds[1..], fields[1..]);
        assert fields == [fields[0]] + fields[1..];
      }
    }
  }

  lemma HeadFits(fields: seq<Field>, kinds: seq<Kind>)
    requires fields != [] && OfKinds(fields, kinds) && AllFit(fields)
    ensures fields[0].Fits() && fields[0].Kind() == kinds[0] && (fields[0].Rest? <==> kinds[0] == RestKind)
    ensures OfKinds(fields[1..], kinds[1..]) && AllFit(fields[1..])
  {
  }

  lemma MarshalStep(fields: seq<Field>, i: nat)
    requires i < |fields|
    ensures Marshal(fields[i..]) == fields[i].Bytes() + Marshal(fields[i + 1..])
  {
    assert fields[i..][1..] == fields[i + 1..];
  }

  /** Without rest fields, structures of the same kinds start the same bytes only when they are the same. */
  lemma {:induction false} MarshalIsPrefixFree(f: seq<Field>, g: seq<Field>, kinds: seq<Kind>, x: seq<Byte>)
    requires OfKinds(f, kinds) && OfKinds(g, kinds) && AllFit(f) && AllFit(g) && RestKind !in kinds
    requires Marshal(f) + x == Marshal(g)
    ensures f == g && x == []
    decreases |kinds|
  {
    if kinds == [] {
      assert f == g == [];
    } else {
      assert Marshal(f) == f[0].Bytes() + Marshal(f[1..]) && Marshal(g) == g[0].Bytes() + Marshal(g[1..]);
      HeadFits(f, kinds);
      HeadFits(g, kinds);
      assert kinds[0] != RestKind;
      hide *;
      Associative(f[0].Bytes(), Marshal(f[1..]), x);
      SameHead(f[0], Marshal(f[1..]) + x, g[0], Marshal(g[1..]));
      MarshalIsPrefixFree(f[1..], g[1..], kinds[1..], x);
      assert f == [f[0]] + f[1..] && g == [g[0]] + g[1..];
    }
  }

  lemma Associative(a: seq<Byte>, b: seq<Byte>, c: seq<Byte>)
    ensures a + b + c == a + (b + c)
  {
  }

  lemma SameHead(f: Field, r: seq<Byte>, g: Field, q: seq<Byte>)
    requires f.Kind() == g.Kind() && !f.Rest? && f.Fits() && g.Fits()
    requires f.Bytes() + r == g.Bytes() + q
    ensures f == g && r == q
  {
    hide TakeField;
    TakeFieldOfBytes(f, r);
    TakeFieldOfBytes(g, q);
  }

  /** A last text too long for its length field leaves bytes over. */
  lemma {:induction false} LongLastIsRefused(fields: seq<Field>, kinds: seq<Kind>, text: seq<Byte>)
    requires OfKinds(fields, kinds) && AllFit(fields) && RestKind !in kinds && |text| >= UINT32_LIMIT
    ensures Unmarshal(Marshal(fields + [Text(text)]), kinds + [TextKind]) == None
    decreases |kinds|
  {
    hide U32, Str, TakeStr;
    var fs, ks := fields + [Text(text)], kinds + [TextKind];
    if kinds == [] {
      assert fs[1..] == [] && Marshal(fs) == Str(text) + [];
      TakeStrOfStr(text, []);
      assert |(text[|text| % UINT32_LIMIT..] + [])| > 0;
    } else {
      assert fs[1..] == fields[1..] + [Text(text)] && ks[1..] == kinds[1..] + [TextKind];
      HeadFits(fields, kinds);
      assert kinds[0] != RestKind;
      TakeFieldOfBytes(fields[0], Marshal(fs[1..]));
      LongLastIsRefused(fields[1..], kinds[1..], text);
    }
  }
}
