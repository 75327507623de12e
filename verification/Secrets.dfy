/**
 Derivations of short-term and long-term secrets (internal/secrets/secrets.go) over primitives about which
 nothing is assumed but that they are functions: HKDF (section 2 of RFC 5869) and Ed25519.
 */
module Secrets {
  import opened Base
  import opened Wire
  import Fmt
  import K = SshKey

  const ENTROPY_BYTES := 32

  type Bytes32 = b: seq<Byte> | |b| == 32 witness Copied(32, [])

  /**
   hkdf maps a secret, a salt and an info string to an output stream; public maps an Ed25519 seed to its
   public key; authorizedKey and fingerprint print a public key blob.
   */
  datatype Primitives = Primitives(
    hkdf: (seq<Byte>, seq<Byte>, seq<Byte>) -> (nat -> Byte),
    public: seq<Byte> -> Bytes32,
    authorizedKey: seq<Byte> -> string,
    fingerprint: seq<Byte> -> string)

  /** HKDF gives out at most 255 blocks of SHA-256. */
  const HKDF_LIMIT := 255 * 32

  function Window(f: nat -> Byte, from: nat, n: nat): (b: seq<Byte>)
    ensures |b| == n
  {
    seq(n, i requires 0 <= i < n => f(from + i))
  }

  function Salt(context: nat): seq<Byte> {
    Ascii(Fmt.Decimal(context))
  }

  function Info(purpose: string): seq<Byte> {
    Ascii("stprov:" + purpose)
  }

  function Output(p: Primitives, secret: seq<Byte>, purpose: string, context: nat): nat -> Byte {
    p.hkdf(secret, Salt(context), Info(purpose))
  }

  /** Readers with different labels or contexts feed HKDF different salts or infos. */
  lemma ReadersAreSeparated(purpose: string, context: nat, purpose': string, context': nat)
    requires forall c :: c in purpose + purpose' ==> c < 256 as char
    ensures Salt(context) == Salt(context') && Info(purpose) == Info(purpose') <==> purpose == purpose' && context == context'
  {
    if Salt(context) == Salt(context') && Info(purpose) == Info(purpose') {
      var d, d' := Fmt.Decimal(context), Fmt.Decimal(context');
      forall i | 0 <= i < |d|
        ensures d[i] == d'[i]
      {
        assert Salt(context)[i] == Salt(context')[i];
      }
      assert |d| == |Salt(context)| == |d'|;
      assert d == d';
      Fmt.DecimalValueOfDecimal(context);
      Fmt.DecimalValueOfDecimal(context');
      assert |purpose| == |Info(purpose)| - 7 == |purpose'|;
      forall i | 0 <= i < |purpose|
        ensures purpose[i] == purpose'[i]
      {
        assert Info(purpose)[7 + i] == Info(purpose')[7 + i];
        assert purpose[i] in purpose + purpose' && purpose'[i] in purpose + purpose';
      }
      assert purpose == purpose';
    }
  }

  /** The stateful reader of an HKDF output. */
  class Reader {
    const output: nat -> Byte
    var position: nat

    constructor (p: Primitives, secret: seq<Byte>, purpose: string, context: nat)
      ensures output == Output(p, secret, purpose, context) && position == 0
    {
      output := Output(p, secret, purpose, context);
      position := 0;
    }

    /** io.ReadFull into a buffer of n bytes; reading past the limit fails. */
    method ReadFull(n: nat) returns (b: Option<seq<Byte>>)
      modifies this
      ensures if old(position) + n <= HKDF_LIMIT
              then b == Some(Window(output, old(position), n)) && position == old(position) + n
              else b == None && position == old(position)
    {
      if position + n > HKDF_LIMIT {
        return None;
      }
      b := Some(Window(output, position, n));
      position := position + n;
    }
  }

  // ----- The unique device secret and what derives from it -----

  /** The secret mixed from local and received entropy, in that order. */
  function UniqueDeviceSecret(p: Primitives, local: Bytes32, ext: Bytes32): Bytes32 {
    Window(Output(p, local + ext, "uds", 1), 0, 32)
  }

  /** The host key of a secret: 32 bytes of seed, then 4 bytes of check value, from one stream. */
  function HostKey(p: Primitives, uds: Bytes32): K.Key {
    var output := Output(p, uds, "uds:ssh", 1);
    var seed := Window(output, 0, 32);
    K.Key(seed + p.public(seed), FromU32(Window(output, 32, 4)), Ascii("ospkg@system-transparency"))
  }

  datatype CommitResponse = CommitResponse(publicKey: string, fingerprint: string, hostName: string,
                                           authentication: string, identity: string)

  /** What a client is told about a secret. */
  function Response(p: Primitives, uds: Bytes32, hostName: string): CommitResponse {
    var blob := K.PublicBlob(K.Public(HostKey(p, uds).private));
    CommitResponse(p.authorizedKey(blob), p.fingerprint(blob), hostName,
                   Fmt.HexEncode(Window(Output(p, uds, "uds:authentication", 1), 0, 32)),
                   Fmt.HexEncode(Window(Output(p, uds, "uds:identity", 1), 0, 32)))
  }

  /** A response belongs to a host key when it names that key's public half. */
  predicate BelongsTo(p: Primitives, cr: CommitResponse, k: K.Key) {
    && |k.private| >= K.PUBLIC_KEY_SIZE
    && cr.publicKey == p.authorizedKey(K.PublicBlob(K.Public(k.private)))
    && cr.fingerprint == p.fingerprint(K.PublicBlob(K.Public(k.private)))
  }

  /** Derived host keys are encodable, so what is persisted reads back, with the public key that was told. */
  lemma DerivedKeyReadsBack(p: Primitives, uds: Bytes32, hostName: string)
    ensures var k := HostKey(p, uds);
            && K.Encodable(k) && K.Decode(K.Encode(k)) == Ok(k)
            && BelongsTo(p, Response(p, uds, hostName), k)
            && K.Public(k.private) == p.public(k.private[..32])
  {
    hide K.Decode, K.Encode;
    var k := HostKey(p, uds);
    assert |Ascii("ospkg@system-transparency")| == 25;
    K.RoundTrip(k);
    assert k.private[..32] == Window(Output(p, uds, "uds:ssh", 1), 0, 32);
    assert k.private[32..] == p.public(k.private[..32]);
  }

  // ----- Which bytes they are -----

  /** The output that a reader with a label and context 1 gives out. */
  lemma OutputOf(p: Primitives, secret: seq<Byte>, purpose: string, info: string)
    requires info == "stprov:" + purpose
    ensures Output(p, secret, purpose, 1) == p.hkdf(secret, Ascii("1"), Ascii(info))
  {
    assert Fmt.Decimal(1) == "1";
  }

  /** The secret is HKDF of local entropy followed by received entropy. */
  lemma SecretBytes(p: Primitives, local: Bytes32, ext: Bytes32)
    ensures forall i :: 0 <= i < 32 ==>
                          UniqueDeviceSecret(p, local, ext)[i] == p.hkdf(local + ext, Ascii("1"), Ascii("stprov:uds"))(i)
  {
    OutputOf(p, local + ext, "uds", "stprov:uds");
  }

  /** The host key is the seed in the first 32 bytes of one output and its public key; the check value follows the seed. */
  lemma HostKeyBytes(p: Primitives, uds: Bytes32)
    ensures var k, out := HostKey(p, uds), p.hkdf(uds, Ascii("1"), Ascii("stprov:uds:ssh"));
            && |k.private| == 64 && (forall i :: 0 <= i < 32 ==> k.private[i] == out(i))
            && k.private[32..] == p.public(k.private[..32])
            && k.check == 0x100_0000 * out(32) as int + 0x1_0000 * out(33) as int + 0x100 * out(34) as int + out(35)
            && k.comment == Ascii("ospkg@system-transparency")
  {
    OutputOf(p, uds, "uds:ssh", "stprov:uds:ssh");
    var k, out := HostKey(p, uds), p.hkdf(uds, Ascii("1"), Ascii("stprov:uds:ssh"));
    hide Output;
    FromU32Bytes(Window(out, 32, 4));
    hide FromU32;
    assert k.private[..32] == Window(out, 0, 32);
    assert k.private[32..] == p.public(k.private[..32]);
  }

  predicate HexDigitsAt(s: string, output: nat -> Byte, i: nat) {
    && |s| >= 2 * i + 2
    && s[2 * i] == "0123456789abcdef"[output(i) / 16] && s[2 * i + 1] == "0123456789abcdef"[output(i) % 16]
  }

  /** The hex digits of the first 32 bytes of an output. */
  lemma HexOfWindow(output: nat -> Byte, i: nat)
    requires i < 32
    ensures var s := Fmt.HexEncode(Window(output, 0, 32));
            && |s| == 64
            && s[2 * i] == "0123456789abcdef"[output(i) / 16] && s[2 * i + 1] == "0123456789abcdef"[output(i) % 16]
  {
    hide Fmt.HexEncode;
    assert Window(output, 0, 32)[i] == output(i);
  }

  /** A response names the public key of the host key, and prints the streams for authentication and identity. */
  lemma ResponseBytes(p: Primitives, uds: Bytes32, hostName: string)
    ensures var cr, pub := Response(p, uds, hostName), p.public(HostKey(p, uds).private[..32]);
            var blob := [0, 0, 0, 11] + Ascii("ssh-ed25519") + [0, 0, 0, 32] + pub;
            && cr.publicKey == p.authorizedKey(blob) && cr.fingerprint == p.fingerprint(blob) && cr.hostName == hostName
            && |cr.authentication| == |cr.identity| == 64
            && var auth, id := p.hkdf(uds, Ascii("1"), Ascii("stprov:uds:authentication")),
                               p.hkdf(uds, Ascii("1"), Ascii("stprov:uds:identity"));
               forall i :: 0 <= i < 32 ==>
                             && cr.authentication[2 * i] == "0123456789abcdef"[auth(i) / 16]
                             && cr.authentication[2 * i + 1] == "0123456789abcdef"[auth(i) % 16]
                             && cr.identity[2 * i] == "0123456789abcdef"[id(i) / 16]
                             && cr.identity[2 * i + 1] == "0123456789abcdef"[id(i) % 16]
  {
    OutputOf(p, uds, "uds:authentication", "stprov:uds:authentication");
    OutputOf(p, uds, "uds:identity", "stprov:uds:identity");
    hide Output, K.PublicBlob, Fmt.HexEncode, Window;
    HostKeyBytes(p, uds);
    K.PublicBlobBytes(K.Public(HostKey(p, uds).private));
    hide HostKey;
    forall i | 0 <= i < 32
      ensures HexDigitsAt(Response(p, uds, hostName).authentication, Output(p, uds, "uds:authentication", 1), i)
      ensures HexDigitsAt(Response(p, uds, hostName).identity, Output(p, uds, "uds:identity", 1), i)
    {
      HexOfWindow(Output(p, uds, "uds:authentication", 1), i);
      HexOfWindow(Output(p, uds, "uds:identity", 1), i);
    }
  }

  /** Belonging to a key is naming its public half, in the bytes of the public key format. */
  lemma BelongsToBytes(p: Primitives, cr: CommitResponse, k: K.Key)
    requires |k.private| == 64
    ensures var blob := [0, 0, 0, 11] + Ascii("ssh-ed25519") + [0, 0, 0, 32] + k.private[32..];
            BelongsTo(p, cr, k) <==> cr.publicKey == p.authorizedKey(blob) && cr.fingerprint == p.fingerprint(blob)
  {
    hide K.PublicBlob, Ascii;
    K.PublicBlobBytes(k.private[32..]);
  }

  /** A response belongs to a secret's host key exactly when it names the public key of that secret's response. */
  lemma BelongsToSamePublicKey(p: Primitives, cr: CommitResponse, uds: Bytes32, hostName: string)
    ensures BelongsTo(p, cr, HostKey(p, uds))
            <==> && cr.publicKey == Response(p, uds, hostName).publicKey
                 && cr.fingerprint == Response(p, uds, hostName).fingerprint
  {
  }

  method NewUniqueDeviceSecret(p: Primitives, local: Option<Bytes32>, ext: Bytes32) returns (uds: Option<Bytes32>)
    ensures uds == if local == None then None else Some(UniqueDeviceSecret(p, local.value, ext))
    ensures local.Some? ==>
              forall i :: 0 <= i < 32 ==>
                            uds.value[i] == p.hkdf(local.value + ext, Ascii("1"), Ascii("stprov:uds"))(i)
  {
    if local == None {
      return None;
    }
    SecretBytes(p, local.value, ext);
    var reader := new Reader(p, local.value + ext, "uds", 1);
    var b := reader.ReadFull(32);
    uds := b;
  }

  method NewHostKey(p: Primitives, rand: Reader, comment: seq<Byte>) returns (k: Option<K.Key>)
    modifies rand
    ensures var seed := Window(rand.output, old(rand.position), 32);
            k == if old(rand.position) + 36 > HKDF_LIMIT then None
                 else Some(K.Key(seed + p.public(seed), FromU32(Window(rand.output, old(rand.position) + 32, 4)), comment))
  {
    var seed := rand.ReadFull(32);
    if seed == None {
      return None;
    }
    var check := rand.ReadFull(4);
    if check == None {
      return None;
    }
    k := Some(K.Key(seed.value + p.public(seed.value), FromU32(check.value), comment));
  }

  method Ssh(p: Primitives, uds: Bytes32) returns (k: Option<K.Key>)
    ensures k == Some(HostKey(p, uds))
  {
    var rand := new Reader(p, uds, "uds:ssh", 1);
    k := NewHostKey(p, rand, Ascii("ospkg@system-transparency"));
  }

  method NewCommitResponse(p: Primitives, uds: Bytes32, hostName: string) returns (cr: Option<CommitResponse>)
    ensures cr == Some(Response(p, uds, hostName))
  {
    var hk := Ssh(p, uds);
    if hk == None {
      return None;
    }
    var blob := K.PublicBlob(K.Public(hk.value.private));
    var reader := new Reader(p, uds, "uds:identity", 1);
    var id := reader.ReadFull(32);
    reader := new Reader(p, uds, "uds:authentication", 1);
    var auth := reader.ReadFull(32);
    if id == None || auth == None {
      return None;
    }
    cr := Some(CommitResponse(p.authorizedKey(blob), p.fingerprint(blob), hostName, Fmt.HexEncode(auth.value), Fmt.HexEncode(id.value)));
  }

  // ----- The one-time password -----

  function OneTimePassword(p: Primitives, secret: string): Bytes32 {
    Window(Output(p, Ascii(secret), "otp", 1), 0, 32)
  }

  function BasicAuthPassword(p: Primitives, otp: Bytes32): string {
    Fmt.HexEncode(Window(Output(p, otp, "otp:basicAuthPassword", 1), 0, 32))
  }

  /** The password prints the stream of the one-time password, which is that of the shared secret. */
  lemma PasswordBytes(p: Primitives, secret: string)
    ensures var otp := OneTimePassword(p, secret);
            && (forall i :: 0 <= i < 32 ==> otp[i] == p.hkdf(Ascii(secret), Ascii("1"), Ascii("stprov:otp"))(i))
            && |BasicAuthPassword(p, otp)| == 64
            && var pw := p.hkdf(otp, Ascii("1"), Ascii("stprov:otp:basicAuthPassword"));
               forall i :: 0 <= i < 32 ==>
                             && BasicAuthPassword(p, otp)[2 * i] == "0123456789abcdef"[pw(i) / 16]
                             && BasicAuthPassword(p, otp)[2 * i + 1] == "0123456789abcdef"[pw(i) % 16]
  {
    var otp := OneTimePassword(p, secret);
    OutputOf(p, Ascii(secret), "otp", "stprov:otp");
    OutputOf(p, otp, "otp:basicAuthPassword", "stprov:otp:basicAuthPassword");
    hide Output, Fmt.HexEncode;
    forall i | 0 <= i < 32
      ensures HexDigitsAt(BasicAuthPassword(p, otp), Output(p, otp, "otp:basicAuthPassword", 1), i)
    {
      HexOfWindow(Output(p, otp, "otp:basicAuthPassword", 1), i);
    }
  }
}
