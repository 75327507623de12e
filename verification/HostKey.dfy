/**
 The OpenSSH private key codec for Ed25519 host keys (internal/ssh/ssh.go): what is written, what is
 read back, and how the language of the reader differs from the image of the writer.
 */
module SshKey {
  import opened Base
  import opened Wire

  const AUTH_MAGIC: seq<Byte> := Ascii("openssh-key-v1") + [0]
  const NONE: seq<Byte> := Ascii("none")
  const KEY_TYPE: seq<Byte> := Ascii("ssh-ed25519")
  const PUBLIC_KEY_SIZE := 32
  const PRIVATE_KEY_SIZE := 64

  /** A host key: private key bytes (the public half is at their end), check value, comment. */
  datatype Key = Key(private: seq<Byte>, check: Uint32, comment: seq<Byte>)

  /** The public half, as ed25519.PrivateKey.Public takes it; it needs the first 32 bytes to be there. */
  function Public(private: seq<Byte>): (pub: seq<Byte>)
    requires |private| >= PUBLIC_KEY_SIZE
    ensures |pub| == PUBLIC_KEY_SIZE
  {
    Copied(PUBLIC_KEY_SIZE, private[PUBLIC_KEY_SIZE..])
  }

  /** The public key blob of section 4 of RFC 8709. */
  function PublicBlob(pub: seq<Byte>): seq<Byte> {
    Marshal([Text(KEY_TYPE), Text(pub)])
  }

  // ----- The three wire structures -----

  const AUTH_BODY: seq<Kind> := [TextKind, TextKind, TextKind, NumberKind, TextKind, TextKind]
  const KEY_BODY: seq<Kind> := [NumberKind, NumberKind, TextKind, RestKind]
  const ED25519_KEY_BODY: seq<Kind> := [TextKind, TextKind, TextKind, RestKind]

  datatype AuthBody = AuthBody(cipherName: seq<Byte>, kdfName: seq<Byte>, kdfOpts: seq<Byte>, numKeys: Uint32,
                               pubKey: seq<Byte>, privKeyBlock: seq<Byte>)
  {
    function Fields(): (f: seq<Field>)
      ensures OfKinds(f, AUTH_BODY)
    {
      [Text(cipherName), Text(kdfName), Text(kdfOpts), Number(numKeys), Text(pubKey), Text(privKeyBlock)]
    }
  }

  datatype KeyBody = KeyBody(check1: Uint32, check2: Uint32, keyType: seq<Byte>, rest: seq<Byte>) {
    function Fields(): (f: seq<Field>)
      ensures OfKinds(f, KEY_BODY)
    {
      [Number(check1), Number(check2), Text(keyType), Rest(rest)]
    }
  }

  datatype Ed25519KeyBody = Ed25519KeyBody(pub: seq<Byte>, priv: seq<Byte>, comment: seq<Byte>, pad: seq<Byte>) {
    function Fields(): (f: seq<Field>)
      ensures OfKinds(f, ED25519_KEY_BODY)
    {
      [Text(pub), Text(priv), Text(comment), Rest(pad)]
    }
  }

  function UnmarshalAuthBody(b: seq<Byte>): Option<AuthBody> {
    match Unmarshal(b, AUTH_BODY)
    case None => None
    case Some(f) => Some(AuthBody(f[0].text, f[1].text, f[2].text, f[3].number, f[4].text, f[5].text))
  }

  function UnmarshalKeyBody(b: seq<Byte>): Option<KeyBody> {
    match Unmarshal(b, KEY_BODY)
    case None => None
    case Some(f) => Some(KeyBody(f[0].number, f[1].number, f[2].text, f[3].rest))
  }

  function UnmarshalEd25519KeyBody(b: seq<Byte>): Option<Ed25519KeyBody> {
    match Unmarshal(b, ED25519_KEY_BODY)
    case None => None
    case Some(f) => Some(Ed25519KeyBody(f[0].text, f[1].text, f[2].text, f[3].rest))
  }

  /** Each structure is read from exactly the bytes that it is written as, if its fields fit. */
  lemma UnmarshalAuthBodyExact(b: seq<Byte>, a: AuthBody)
    ensures UnmarshalAuthBody(b) == Some(a) <==> AllFit(a.Fields()) && b == Marshal(a.Fields())
  {
    hide Unmarshal, Marshal;
    UnmarshalExact(b, AUTH_BODY, a.Fields());
    if UnmarshalAuthBody(b) == Some(a) {
      assert Unmarshal(b, AUTH_BODY).value == a.Fields();
    }
  }

  lemma UnmarshalKeyBodyExact(b: seq<Byte>, k: KeyBody)
    ensures UnmarshalKeyBody(b) == Some(k) <==> AllFit(k.Fields()) && b == Marshal(k.Fields())
  {
    hide Unmarshal, Marshal;
    UnmarshalExact(b, KEY_BODY, k.Fields());
    if UnmarshalKeyBody(b) == Some(k) {
      assert Unmarshal(b, KEY_BODY).value == k.Fields();
    }
  }

  lemma UnmarshalEd25519KeyBodyExact(b: seq<Byte>, e: Ed25519KeyBody)
    ensures UnmarshalEd25519KeyBody(b) == Some(e) <==> AllFit(e.Fields()) && b == Marshal(e.Fields())
  {
    hide Unmarshal, Marshal;
    UnmarshalExact(b, ED25519_KEY_BODY, e.Fields());
    if UnmarshalEd25519KeyBody(b) == Some(e) {
      assert Unmarshal(b, ED25519_KEY_BODY).value == e.Fields();
    }
  }

  // ----- Padding -----

  /** Padding bytes count up from one. */
  predicate CountsUp(pad: seq<Byte>) {
    forall i :: 0 <= i < |pad| ==> pad[i] as int == i + 1
  }

  /** The private block that the padding completes: checks, key type, keys, comment, pad. */
  function PrivateBlock(check: Uint32, pub: seq<Byte>, priv: seq<Byte>, comment: seq<Byte>, pad: seq<Byte>): seq<Byte> {
    Marshal(KeyBody(check, check, KEY_TYPE, Marshal(Ed25519KeyBody(pub, priv, comment, pad).Fields())).Fields())
  }

  lemma PrivateBlockLength(check: Uint32, pub: seq<Byte>, priv: seq<Byte>, comment: seq<Byte>, pad: seq<Byte>)
    ensures |PrivateBlock(check, pub, priv, comment, pad)|
            == 8 + (4 + |KEY_TYPE|) + (4 + |pub|) + (4 + |priv|) + (4 + |comment|) + |pad|
  {
    hide U32, Ascii;
    var inner := Ed25519KeyBody(pub, priv, comment, pad).Fields();
    MarshalFour(inner);
    MarshalFour(KeyBody(check, check, KEY_TYPE, Marshal(inner)).Fields());
  }

  lemma MarshalFour(f: seq<Field>)
    requires |f| == 4
    ensures Marshal(f) == f[0].Bytes() + f[1].Bytes() + f[2].Bytes() + f[3].Bytes()
  {
    hide Field.Bytes, Marshal;
    MarshalStep(f, 0);
    MarshalStep(f, 1);
    MarshalStep(f, 2);
    MarshalStep(f, 3);
    assert f[0..] == f && f[4..] == [];
    NoFields();
    hide *;
    Flatten(f[0].Bytes(), f[1].Bytes(), f[2].Bytes(), f[3].Bytes());
  }

  lemma MarshalSix(f: seq<Field>)
    requires |f| == 6
    ensures Marshal(f) == f[0].Bytes() + f[1].Bytes() + f[2].Bytes() + f[3].Bytes() + f[4].Bytes() + f[5].Bytes()
  {
    hide Field.Bytes, Marshal;
    MarshalStep(f, 0);
    MarshalStep(f, 1);
    MarshalFour(f[2..]);
    assert f[0..] == f;
    hide *;
    Flatten(f[2].Bytes(), f[3].Bytes(), f[4].Bytes(), f[5].Bytes());
    FlattenSix(f[0].Bytes(), f[1].Bytes(), f[2].Bytes(), f[3].Bytes(), f[4].Bytes(), f[5].Bytes());
  }

  lemma Flatten(a: seq<Byte>, b: seq<Byte>, c: seq<Byte>, d: seq<Byte>)
    ensures a + (b + (c + (d + []))) == a + b + c + d
  {
    assert d + [] == d;
    assert a + (b + (c + d)) == a + b + (c + d) == a + b + c + d;
  }

  lemma FlattenSix(a: seq<Byte>, b: seq<Byte>, c: seq<Byte>, d: seq<Byte>, e: seq<Byte>, f: seq<Byte>)
    ensures a + (b + (c + d + e + f)) == a + b + c + d + e + f
  {
    assert a + (b + (c + d + e + f)) == a + b + (c + d + e + f) == a + b + (c + d + e) + f == a + b + (c + d) + e + f;
    assert a + b + (c + d) == a + b + c + d;
  }

  lemma NoFields()
    ensures Marshal([]) == []
  {
  }

  function PadLength(comment: seq<Byte>): (k: nat)
    ensures k < 8
  {
    (8 - (119 + 4 + |comment|) % 8) % 8
  }

  function Padding(comment: seq<Byte>): (pad: seq<Byte>)
    ensures |pad| == PadLength(comment) && CountsUp(pad)
  {
    seq(PadLength(comment), i requires 0 <= i < 8 => i + 1)
  }

  /** The constant 119 is right: the padding is the shortest that makes the whole private block a multiple of 8. */
  lemma PaddingIsLeast(check: Uint32, pub: seq<Byte>, priv: seq<Byte>, comment: seq<Byte>, pad: seq<Byte>)
    requires |pub| == PUBLIC_KEY_SIZE && |priv| == PRIVATE_KEY_SIZE
    ensures |PrivateBlock(check, pub, priv, comment, pad)| == 8 + 119 + 4 + |comment| + |pad|
    ensures CountsUp(pad) && |pad| < 8 && |PrivateBlock(check, pub, priv, comment, pad)| % 8 == 0
            <==> pad == Padding(comment)
    ensures |PrivateBlock(check, pub, priv, comment, pad)| % 8 == 0 ==> |pad| >= PadLength(comment)
  {
    hide PrivateBlock;
    PrivateBlockLength(check, pub, priv, comment, pad);
    assert |KEY_TYPE| == 11;
  }

  /** Padding counts up in single bytes, so no padding the reader accepts is longer than 255. */
  lemma PaddingIsBounded(pad: seq<Byte>)
    requires CountsUp(pad)
    ensures |pad| <= 255
  {
    if pad != [] {
      assert pad[|pad| - 1] as int == |pad|;
    }
  }

  // ----- Writing and reading as functions -----

  function Encode(k: Key): seq<Byte>
    requires |k.private| >= PUBLIC_KEY_SIZE
  {
    Render(PartsOf(k))
  }

  /** Everything an encoding holds besides its fixed fields. */
  datatype Parts = Parts(kdfOpts: seq<Byte>, numKeys: Uint32, pubKey: seq<Byte>, check: Uint32,
                         pub: seq<Byte>, priv: seq<Byte>, comment: seq<Byte>, pad: seq<Byte>)
  {
    function Block(): seq<Byte> {
      PrivateBlock(check, pub, priv, comment, pad)
    }

    function Auth(): AuthBody {
      AuthBody(NONE, NONE, kdfOpts, numKeys, pubKey, Block())
    }

    function Body(): Ed25519KeyBody {
      Ed25519KeyBody(pub, priv, comment, pad)
    }

    /** The lengths fit their fields, the private key has its size, and the padding is right. */
    predicate WellFormed() {
      AllFit(Auth().Fields()) && AllFit(Body().Fields()) && |priv| == PRIVATE_KEY_SIZE && CountsUp(pad)
    }

    function Kept(): Key {
      Key(priv, check, comment)
    }
  }

  function Render(p: Parts): seq<Byte> {
    AUTH_MAGIC + Marshal(p.Auth().Fields())
  }

  /**
   The bytes of a rendering: the magic, then each field in the order of the format, a text behind its length,
   numbers and lengths most significant byte first.
   */
  lemma RenderBytes(p: Parts)
    ensures var be := (n: nat) => [n / 0x100_0000 % 256, n / 0x1_0000 % 256, n / 0x100 % 256, n % 256];
            var none, keyType := Ascii("none"), Ascii("ssh-ed25519");
            var block := be(p.check) + be(p.check) + (be(11) + keyType)
                         + ((be(|p.pub|) + p.pub) + (be(|p.priv|) + p.priv) + (be(|p.comment|) + p.comment) + p.pad);
            Render(p) == (Ascii("openssh-key-v1") + [0])
                         + ((be(4) + none) + (be(4) + none) + (be(|p.kdfOpts|) + p.kdfOpts) + be(p.numKeys)
                            + (be(|p.pubKey|) + p.pubKey) + (be(|block|) + block))
  {
    var be := (n: nat) => [n / 0x100_0000 % 256, n / 0x1_0000 % 256, n / 0x100 % 256, n % 256];
    forall n: nat
      ensures U32(n) == be(n)
    {
      U32Bytes(n);
    }
    hide Ascii, U32, Marshal;
    assert |NONE| == 4 && |KEY_TYPE| == 11;
    var inner := p.Body().Fields();
    MarshalFour(inner);
    var frame := KeyBody(p.check, p.check, KEY_TYPE, Marshal(inner)).Fields();
    MarshalFour(frame);
    MarshalSix(p.Auth().Fields());
  }

  lemma MarshalTwoTexts(a: seq<Byte>, b: seq<Byte>)
    ensures Marshal([Text(a), Text(b)]) == U32(|a|) + a + U32(|b|) + b
  {
    hide U32, Marshal;
    var f := [Text(a), Text(b)];
    MarshalStep(f, 0);
    MarshalStep(f, 1);
    NoFields();
    assert f[0..] == f && f[2..] == [];
    assert Marshal(f) == U32(|a|) + a + (U32(|b|) + b + []);
  }

  /** A public key is its type and its bytes, each behind its length. */
  lemma PublicBlobBytes(pub: seq<Byte>)
    requires |pub| == PUBLIC_KEY_SIZE
    ensures PublicBlob(pub) == [0, 0, 0, 11] + Ascii("ssh-ed25519") + [0, 0, 0, 32] + pub
  {
    hide Marshal, Ascii;
    MarshalTwoTexts(KEY_TYPE, pub);
    assert |KEY_TYPE| == 11;
    U32Bytes(11);
    U32Bytes(32);
    hide U32;
  }

  /** The parts the writer chooses for a key. */
  function PartsOf(k: Key): Parts
    requires |k.private| >= PUBLIC_KEY_SIZE
  {
    var pub := Public(k.private);
    Parts([], 1, PublicBlob(pub), k.check, pub, Copied(PRIVATE_KEY_SIZE, k.private), k.comment, Padding(k.comment))
  }

  datatype ReadError = NotOpenSsh | BadAuthBody | Encrypted | BadKeyBody | CheckMismatch | UnhandledKeyType
                     | BadEd25519Body | BadPrivateKeyLength | BadPadding

  /** The private block: equal checks, the one handled key type, a key of the right size, good padding. */
  function DecodeBlock(block: seq<Byte>): Result<(Uint32, Ed25519KeyBody), ReadError> {
    match UnmarshalKeyBody(block)
    case None => Err(BadKeyBody)
    case Some(pk1) =>
      if pk1.check1 != pk1.check2 then Err(CheckMismatch)
      else if pk1.keyType != KEY_TYPE then Err(UnhandledKeyType)
      else
        match UnmarshalEd25519KeyBody(pk1.rest)
        case None => Err(BadEd25519Body)
        case Some(key) =>
          if |key.priv| != PRIVATE_KEY_SIZE then Err(BadPrivateKeyLength)
          else if !CountsUp(key.pad) then Err(BadPadding)
          else Ok((pk1.check1, key))
  }

  function DecodeParts(b: seq<Byte>): Result<Parts, ReadError> {
    if |b| < |AUTH_MAGIC| || b[..|AUTH_MAGIC|] != AUTH_MAGIC then Err(NotOpenSsh)
    else
      match UnmarshalAuthBody(b[|AUTH_MAGIC|..])
      case None => Err(BadAuthBody)
      case Some(w) =>
        if w.kdfName != NONE || w.cipherName != NONE then Err(Encrypted)
        else
          match DecodeBlock(w.privKeyBlock)
          case Err(e) => Err(e)
          case Ok((check, key)) =>
            Ok(Parts(w.kdfOpts, w.numKeys, w.pubKey, check, key.pub, key.priv, key.comment, key.pad))
  }

  /** What the reader makes of an input: it keeps the private key, the check value and the comment. */
  function Decode(b: seq<Byte>): Result<Key, ReadError> {
    match DecodeParts(b)
    case Ok(p) => Ok(p.Kept())
    case Err(e) => Err(e)
  }

  // ----- The accepted language -----

  lemma BlockLanguage(block: seq<Byte>, check: Uint32, key: Ed25519KeyBody)
    ensures DecodeBlock(block) == Ok((check, key))
            <==> && AllFit(key.Fields()) && |key.priv| == PRIVATE_KEY_SIZE && CountsUp(key.pad)
                 && block == PrivateBlock(check, key.pub, key.priv, key.comment, key.pad)
  {
    hide UnmarshalKeyBody, UnmarshalEd25519KeyBody, Marshal, Ascii;
    var pk1 := KeyBody(check, check, KEY_TYPE, Marshal(key.Fields()));
    assert AllFit(pk1.Fields());
    UnmarshalKeyBodyExact(block, pk1);
    UnmarshalEd25519KeyBodyExact(Marshal(key.Fields()), key);
    if UnmarshalKeyBody(block).Some? {
      UnmarshalEd25519KeyBodyExact(UnmarshalKeyBody(block).value.rest, key);
    }
  }

  /** The reader accepts exactly the renderings of well-formed parts, and recovers the parts. */
  lemma AcceptedLanguage(b: seq<Byte>, p: Parts)
    ensures DecodeParts(b) == Ok(p) <==> p.WellFormed() && b == Render(p)
  {
    hide UnmarshalAuthBody, DecodeBlock, PrivateBlock, Marshal, Ascii;
    var m := |AUTH_MAGIC|;
    var key := p.Body();
    BlockLanguage(p.Block(), p.check, key);
    if |b| >= m && b[..m] == AUTH_MAGIC {
      assert b == AUTH_MAGIC + b[m..];
      UnmarshalAuthBodyExact(b[m..], p.Auth());
      if DecodeParts(b) == Ok(p) {
        var w := UnmarshalAuthBody(b[m..]).value;
        BlockLanguage(w.privKeyBlock, p.check, key);
        assert w == p.Auth();
      }
    }
    if b == Render(p) {
      assert b[..m] == AUTH_MAGIC && b[m..] == Marshal(p.Auth().Fields());
    }
  }

  /** Renderings start the same bytes only when they are the same rendering. */
  lemma RenderIsPrefixFree(p: Parts, q: Parts, x: seq<Byte>)
    requires p.WellFormed() && q.WellFormed()
    requires Render(p) + x == Render(q)
    ensures x == [] && p.Auth() == q.Auth()
  {
    hide Marshal, Ascii, PrivateBlock;
    var m, f, g := |AUTH_MAGIC|, p.Auth().Fields(), q.Auth().Fields();
    assert (Render(p) + x)[m..] == Marshal(f) + x && Render(q)[m..] == Marshal(g);
    MarshalIsPrefixFree(f, g, AUTH_BODY, x);
    assert f[2] == g[2] && f[3] == g[3] && f[4] == g[4] && f[5] == g[5];
  }

  /** No accepted input is a strict prefix of another accepted input. */
  lemma AcceptedLanguageIsPrefixFree(b: seq<Byte>, x: seq<Byte>)
    requires Decode(b).Ok? && Decode(b + x).Ok?
    ensures x == []
  {
    var p, q := DecodeParts(b).value, DecodeParts(b + x).value;
    AcceptedLanguage(b, p);
    AcceptedLanguage(b + x, q);
    RenderIsPrefixFree(p, q, x);
  }

  // ----- What is written -----

  /**
   The bytes of a written key, for the one padding of fewer than 8 bytes counting up that makes its private
   block a multiple of 8 long: no KDF options, one key, the public half twice, and the private key.
   */
  lemma EncodeBytes(k: Key, pad: seq<Byte>)
    requires |k.private| == 64
    requires |pad| < 8 && (131 + |k.comment| + |pad|) % 8 == 0 && forall i :: 0 <= i < |pad| ==> pad[i] as int == i + 1
    ensures var be := (n: nat) => [n / 0x100_0000 % 256, n / 0x1_0000 % 256, n / 0x100 % 256, n % 256];
            var none, keyType, pub := Ascii("none"), Ascii("ssh-ed25519"), k.private[32..];
            var blob := [0, 0, 0, 11] + keyType + [0, 0, 0, 32] + pub;
            var block := be(k.check) + be(k.check) + (be(11) + keyType)
                         + ((be(32) + pub) + (be(64) + k.private) + (be(|k.comment|) + k.comment) + pad);
            Encode(k) == (Ascii("openssh-key-v1") + [0])
                         + ((be(4) + none) + (be(4) + none) + (be(0) + []) + be(1)
                            + (be(51) + blob) + (be(|block|) + block))
  {
    hide Render, PrivateBlock, PublicBlob, Ascii;
    var p := PartsOf(k);
    PublicBlobFits(p.pub);
    PublicBlobBytes(p.pub);
    RenderBytes(p);
    SamePaddingLength(k.comment, pad);
  }

  lemma SamePaddingLength(comment: seq<Byte>, pad: seq<Byte>)
    requires CountsUp(pad) && |pad| < 8 && (131 + |comment| + |pad|) % 8 == 0
    ensures pad == Padding(comment)
  {
  }

  // ----- Round trip and normal form -----

  /** The condition on a key under which its private block's length fits the wire. */
  predicate Encodable(k: Key) {
    && |k.private| == PRIVATE_KEY_SIZE
    && 8 + 119 + 4 + |k.comment| + PadLength(k.comment) < UINT32_LIMIT
  }

  /** A written key reads back as itself exactly when it is encodable. */
  lemma RoundTrip(k: Key)
    requires |k.private| >= PUBLIC_KEY_SIZE
    ensures Decode(Encode(k)) == Ok(k) <==> Encodable(k)
  {
    hide DecodeParts, Render;
    var p := PartsOf(k);
    WrittenPartsFit(k);
    if Encodable(k) {
      AcceptedLanguage(Encode(k), p);
    } else if Decode(Encode(k)) == Ok(k) {
      AcceptedLanguage(Encode(k), DecodeParts(Encode(k)).value);
      LongBlockIsRefused(k);
    }
  }

  /** What the writer makes of a 64-byte private key is well-formed exactly when its block's length fits. */
  lemma WrittenPartsFit(k: Key)
    requires |k.private| >= PUBLIC_KEY_SIZE
    ensures |k.private| == PRIVATE_KEY_SIZE ==> (PartsOf(k).WellFormed() <==> Encodable(k)) && PartsOf(k).Kept() == k
    ensures |PartsOf(k).Block()| == 8 + 119 + 4 + |k.comment| + PadLength(k.comment)
  {
    hide Marshal, PrivateBlock, Ascii, PublicBlob;
    var p := PartsOf(k);
    PaddingIsLeast(k.check, p.pub, p.priv, k.comment, p.pad);
    PublicBlobFits(p.pub);
    assert p.Auth().Fields()[5] == Text(p.Block());
  }

  /** A private block too long for its length field leaves bytes over, so what was written is refused. */
  lemma LongBlockIsRefused(k: Key)
    requires |k.private| >= PUBLIC_KEY_SIZE
    requires |PartsOf(k).Block()| >= UINT32_LIMIT
    ensures Decode(Encode(k)) == Err(BadAuthBody)
  {
    hide Marshal, Unmarshal, Ascii, PrivateBlock;
    var p, m := PartsOf(k), |AUTH_MAGIC|;
    var f := p.Auth().Fields();
    PublicBlobFits(Public(k.private));
    assert f == f[..5] + [Text(p.Block())] && AUTH_BODY == AUTH_BODY[..5] + [TextKind];
    LongLastIsRefused(f[..5], AUTH_BODY[..5], p.Block());
    assert Encode(k)[..m] == AUTH_MAGIC && Encode(k)[m..] == Marshal(f);
  }

  lemma PublicBlobFits(pub: seq<Byte>)
    requires |pub| == PUBLIC_KEY_SIZE
    ensures |PublicBlob(pub)| == 51 < UINT32_LIMIT
  {
    var f := [Text(KEY_TYPE), Text(pub)];
    assert f[1..] == [Text(pub)] && Marshal([Text(pub)]) == Str(pub) + [];
    assert |KEY_TYPE| == 11;
  }

  /** Different encodable keys have encodings that do not even start alike. */
  lemma EncodeIsInjective(k: Key, k': Key, x: seq<Byte>)
    requires Encodable(k) && Encodable(k')
    requires Encode(k) + x == Encode(k')
    ensures k == k' && x == []
  {
    RoundTrip(k);
    RoundTrip(k');
    AcceptedLanguageIsPrefixFree(Encode(k), x);
    assert Encode(k) + [] == Encode(k);
  }

  /** No strict extension and no strict prefix of a written key is accepted. */
  lemma WrittenKeysAreTight(k: Key, b: seq<Byte>, x: seq<Byte>)
    requires Encodable(k) && x != []
    ensures Decode(Encode(k) + x).Err?
    ensures b + x == Encode(k) ==> Decode(b).Err?
  {
    RoundTrip(k);
    if Decode(Encode(k) + x).Ok? {
      AcceptedLanguageIsPrefixFree(Encode(k), x);
    }
    if b + x == Encode(k) && Decode(b).Ok? {
      AcceptedLanguageIsPrefixFree(b, x);
    }
  }

  /** The ways in which an accepted input can differ from what the writer would have written. */
  predicate IsNormal(p: Parts)
    requires |p.priv| == PRIVATE_KEY_SIZE
  {
    && p.kdfOpts == [] && p.numKeys == 1
    && p.pub == p.priv[PUBLIC_KEY_SIZE..] && p.pubKey == PublicBlob(p.priv[PUBLIC_KEY_SIZE..])
    && |p.pad| == PadLength(p.comment)
  }

  /**
   Normal form: an accepted input yields a 64-byte key; writing that key gives an input that reads to the
   same key unless its comment is too long for the rewritten block; and the writing is the input itself
   exactly when the input is normal.
   */
  lemma NormalForm(b: seq<Byte>, p: Parts)
    requires DecodeParts(b) == Ok(p)
    ensures |p.priv| == PRIVATE_KEY_SIZE && Decode(b) == Ok(p.Kept())
    ensures Decode(Encode(p.Kept())) == Decode(b)
            <==> 8 + 119 + 4 + |p.comment| + PadLength(p.comment) < UINT32_LIMIT
    ensures Encode(p.Kept()) == b <==> IsNormal(p)
  {
    hide DecodeParts, Render, Ascii, Parts.Block, Padding;
    AcceptedLanguage(b, p);
    RoundTrip(p.Kept());
    var n := PartsOf(p.Kept());
    WrittenPartsFit(p.Kept());
    if IsNormal(p) {
      SamePadding(p.pad, n.pad);
      assert n == p;
    }
    if Encode(p.Kept()) == b {
      if |n.Block()| >= UINT32_LIMIT {
        LongBlockIsRefused(p.Kept());
      }
      AcceptedLanguage(b, n);
      assert n == p;
    }
  }

  lemma SamePadding(a: seq<Byte>, b: seq<Byte>)
    requires CountsUp(a) && CountsUp(b) && |a| == |b|
    ensures a == b
  {
  }

  // ----- The object with its methods -----

  class HostKey {
    var private: seq<Byte>
    var check: Uint32
    var comment: seq<Byte>

    constructor (k: Key)
      ensures View() == k
    {
      private, check, comment := k.private, k.check, k.comment;
    }

    function View(): Key
      reads this
    {
      Key(private, check, comment)
    }

    /** Appends padding bytes until the private block is a multiple of 8 long. */
    static method AddPad(comment: seq<Byte>) returns (pad: seq<Byte>)
      ensures CountsUp(pad) && |pad| < 8
      ensures forall pub: seq<Byte>, priv: seq<Byte>, check: Uint32 ::
                |pub| == PUBLIC_KEY_SIZE && |priv| == PRIVATE_KEY_SIZE ==>
                |PrivateBlock(check, pub, priv, comment, pad)| % 8 == 0
    {
      pad := [];
      var i := 0;
      while (119 + 4 + |comment| + i) % 8 != 0
        invariant 0 <= i <= PadLength(comment) && |pad| == i && CountsUp(pad)
        decreases 8 - i
      {
        pad := pad + [i + 1];
        i := i + 1;
      }
      forall pub: seq<Byte>, priv: seq<Byte>, check: Uint32 | |pub| == PUBLIC_KEY_SIZE && |priv| == PRIVATE_KEY_SIZE
        ensures |PrivateBlock(check, pub, priv, comment, pad)| % 8 == 0
      {
        PaddingIsLeast(check, pub, priv, comment, pad);
      }
    }

    method Write() returns (w: seq<Byte>)
      requires |private| >= PUBLIC_KEY_SIZE
      ensures w == Encode(View())
    {
      var pub := Public(private);
      var priv := Copied(PRIVATE_KEY_SIZE, private);
      var pad := AddPad(comment);
      PaddingIsLeast(check, pub, priv, comment, pad);
      assert |PrivateBlock(check, pub, priv, comment, pad)| % 8 == 0;
      var pk1 := KeyBody(check, check, KEY_TYPE, Marshal(Ed25519KeyBody(pub, priv, comment, pad).Fields()));
      var l := AuthBody(NONE, NONE, [], 1, Marshal([Text(KEY_TYPE), Text(pub)]), Marshal(pk1.Fields()));
      w := AUTH_MAGIC + Marshal(l.Fields());
    }

    /** On success the key is replaced by the one read; on failure it is left alone. */
    method Read(input: seq<Byte>) returns (err: Option<ReadError>)
      modifies this
      ensures match Decode(input)
              case Ok(k) => err == None && View() == k
              case Err(e) => err == Some(e) && View() == old(View())
    {
      if |input| < |AUTH_MAGIC| || input[..|AUTH_MAGIC|] != AUTH_MAGIC {
        return Some(NotOpenSsh);
      }
      var w := UnmarshalAuthBody(input[|AUTH_MAGIC|..]);
      if w == None {
        return Some(BadAuthBody);
      }
      if w.value.kdfName != NONE || w.value.cipherName != NONE {
        return Some(Encrypted);
      }
      var block := ReadBlock(w.value.privKeyBlock);
      if block.Err? {
        return Some(block.error);
      }
      var (check1, key) := block.value;
      private, check, comment := key.priv, check1, key.comment;
      err := None;
    }

    static method ReadBlock(block: seq<Byte>) returns (r: Result<(Uint32, Ed25519KeyBody), ReadError>)
      ensures r == DecodeBlock(block)
    {
      hide UnmarshalKeyBody, UnmarshalEd25519KeyBody;
      var pk1 := UnmarshalKeyBody(block);
      if pk1 == None {
        return Err(BadKeyBody);
      }
      if pk1.value.check1 != pk1.value.check2 {
        return Err(CheckMismatch);
      }
      if pk1.value.keyType != KEY_TYPE {
        return Err(UnhandledKeyType);
      }
      var body := UnmarshalEd25519KeyBody(pk1.value.rest);
      if body == None {
        return Err(BadEd25519Body);
      }
      var key := body.value;
      if |key.priv| != PRIVATE_KEY_SIZE {
        return Err(BadPrivateKeyLength);
      }
      for i := 0 to |key.pad|
        invariant forall j :: 0 <= j < i ==> key.pad[j] as int == j + 1
      {
        if key.pad[i] as int != i + 1 {
          return Err(BadPadding);
        }
      }
      r := Ok((pk1.value.check1, key));
    }
  }
}
