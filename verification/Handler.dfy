/**
 The request handlers of the provisioning server (internal/api/handler.go). Each handler is a sequence of
 atomic steps on the memory it shares with the others: every byte of Entropy, the Timestamp, the
 UDS, the commit channel and the firmware variables. The server's methods are these steps run without
 interference.
 */
module Handler {
  import opened Base
  import opened Netmask
  import opened Secrets
  import opened Efi

  datatype Endpoint = AddData | AddSecureBoot | Commit {
    function Verb(): string {
      if Commit? then "GET" else "POST"
    }
  }

  datatype AddDataRequest = AddDataRequest(entropy: seq<Byte>, timestamp: int)

  datatype AddSecureBootRequest = AddSecureBootRequest(blobs: Blobs, reboot: bool) {
    /** PK, KEK and db are required; dbx is optional. */
    predicate Check() {
      blobs.pk != [] && blobs.kek != [] && blobs.db != []
    }
  }

  /** A request as net/http delivers it; parts that do not parse are None. */
  datatype Request = Request(endpoint: Endpoint, verb: string, remote: Option<Address>, auth: Option<(string, string)>,
                             addData: Option<AddDataRequest>, secureBoot: Option<AddSecureBootRequest>)

  /** How the handler's calls into the operating system turn out: random bytes, the socket, the firmware. */
  datatype Env = Env(local: Option<Bytes32>, writable: bool, firmware: Answers)

  datatype Config = Config(primitives: Primitives, localCIDR: seq<IPNet>, password: string, hostName: string)

  /** The memory that handlers share. */
  datatype Shared = Shared(entropy: Bytes32, timestamp: int, uds: Option<Bytes32>, tokens: nat, closed: bool, efi: Store)

  const OK := 200
  const BAD_REQUEST := 400
  const FORBIDDEN := 403
  const METHOD_NOT_ALLOWED := 405
  const INTERNAL_SERVER_ERROR := 500

  const BASIC_AUTH_USER := "example-user"

  type Index32 = i: nat | i < 32
  type Partial32 = b: seq<Byte> | |b| < 32 witness []
  type VarIndex = k: nat | k < 4

  /** Where a handler is. Refused handlers stopped before any effect, Finished ones ran to their end. */
  datatype Pc =
    | Gates
    | StoreTimestamp(timestamp: int, entropy: Bytes32)
    | CopyEntropy(timestamp: int, entropy: Bytes32, i: Index32)
    | ReadSetupMode
    | WriteVar(request: AddSecureBootRequest, k: VarIndex)
    | ReadIndications(code: nat)
    | WriteIndications(code: nat, data: seq<Byte>)
    | ReadEntropy(local: Bytes32, got: Partial32)
    | Respond(local: Bytes32, ext: Bytes32)
    | StoreUds(local: Bytes32, ext: Bytes32)
    | Send(local: Bytes32, ext: Bytes32)
    | Refused(code: nat)
    | Finished(code: nat)
    | Panicked
  {
    predicate Terminal() {
      Refused? || Finished? || Panicked?
    }

    /** How many steps a handler has at most before it. */
    function Weight(): nat {
      match this
      case Gates => 50
      case StoreTimestamp(_, _) => 40
      case CopyEntropy(_, _, i) => 32 - i
      case ReadSetupMode => 8
      case WriteVar(_, k) => 7 - k
      case ReadIndications(_) => 2
      case WriteIndications(_, _) => 1
      case ReadEntropy(_, got) => 40 - |got|
      case Respond(_, _) => 3
      case StoreUds(_, _) => 2
      case Send(_, _) => 1
      case _ => 0
    }
  }

  /** A request being handled; told is the response once it has been written. */
  datatype Handler = Handler(req: Request, env: Env, pc: Pc, told: Option<CommitResponse>)

  predicate Allowed(cfg: Config, a: Address) {
    exists i :: 0 <= i < |cfg.localCIDR| && cfg.localCIDR[i].Contains(a)
  }

  /** The status with which a request is turned away before its handler function, if it is. */
  function Gate(cfg: Config, req: Request): Option<nat> {
    if req.verb != req.endpoint.Verb() then
      Some(if req.verb == "GET" || req.verb == "POST" then METHOD_NOT_ALLOWED else BAD_REQUEST)
    else if req.remote == None then Some(INTERNAL_SERVER_ERROR)
    else if !Allowed(cfg, req.remote.value) then Some(FORBIDDEN)
    else if req.auth == None then Some(FORBIDDEN)
    else if req.auth.value != (BASIC_AUTH_USER, cfg.password) then Some(FORBIDDEN)
    else None
  }

  /** Where a handler function starts to touch shared memory, or stops before it does. */
  function Dispatch(req: Request, env: Env): Pc {
    match req.endpoint
    case AddData =>
      if req.addData == None then Refused(BAD_REQUEST)
      else if |req.addData.value.entropy| != ENTROPY_BYTES then Refused(BAD_REQUEST)
      else if req.addData.value.timestamp < 0 then Refused(BAD_REQUEST)
      else StoreTimestamp(req.addData.value.timestamp, req.addData.value.entropy)
    case AddSecureBoot => ReadSetupMode
    case Commit =>
      if env.local == None then Refused(INTERNAL_SERVER_ERROR)
      else ReadEntropy(env.local.value, [])
  }

  /** The checks of add-secure-boot once the setup mode has been read; a failed read lets it proceed. */
  function AfterSetupMode(setupMode: Option<bool>, req: Request): Pc {
    if setupMode == Some(false) then Refused(FORBIDDEN)
    else if req.secureBoot == None then Refused(BAD_REQUEST)
    else if !req.secureBoot.value.Check() then Refused(BAD_REQUEST)
    else WriteVar(req.secureBoot.value, 0)
  }

  /** The deferred reboot request runs whatever provisioning returned. */
  function Unwind(reboot: bool, code: nat): Pc {
    if reboot then ReadIndications(code) else Finished(code)
  }

  /** A handler can step unless it is done, or is to send on a full channel that is not closed. */
  predicate Runnable(sh: Shared, h: Handler) {
    !h.pc.Terminal() && (h.pc.Send? ==> sh.closed || sh.tokens == 0)
  }

  /** One atomic step. */
  function Step(cfg: Config, sh: Shared, h: Handler): (r: (Shared, Handler))
    requires Runnable(sh, h)
    ensures r.1.pc.Weight() < h.pc.Weight() && r.1.req == h.req && r.1.env == h.env
  {
    match h.pc
    case Gates =>
      var refused := Gate(cfg, h.req);
      (sh, h.(pc := if refused.Some? then Refused(refused.value) else Dispatch(h.req, h.env)))
    case StoreTimestamp(timestamp, entropy) =>
      (sh.(timestamp := timestamp), h.(pc := CopyEntropy(timestamp, entropy, 0)))
    case CopyEntropy(timestamp, entropy, i) =>
      (sh.(entropy := sh.entropy[i := entropy[i]]),
       h.(pc := if i == 31 then Finished(OK) else CopyEntropy(timestamp, entropy, i + 1)))
    case ReadSetupMode =>
      (sh, h.(pc := AfterSetupMode(SetupModeOf(sh.efi, h.env.firmware.setupModeReadable), h.req)))
    case WriteVar(request, k) =>
      if ORDER[k] !in h.env.firmware.accepted then (sh, h.(pc := Unwind(request.reboot, BAD_REQUEST)))
      else
        (sh.(efi := Enrolled(sh.efi, ORDER[k], request.blobs.Data(k))),
         h.(pc := if k + 1 < request.blobs.Count() then WriteVar(request, k + 1) else Unwind(request.reboot, OK)))
    case ReadIndications(code) =>
      (sh, h.(pc := match NewIndications(Read(sh.efi, OsIndications, h.env.firmware.indicationsReadable))
                    case Update(data) => WriteIndications(code, data)
                    case _ => Finished(code)))
    case WriteIndications(code, data) =>
      (if h.env.firmware.indicationsWritable then sh.(efi := sh.efi[OsIndications := data]) else sh,
       h.(pc := Finished(code)))
    case ReadEntropy(local, got) =>
      var ext := got + [sh.entropy[|got|]];
      (sh, h.(pc := if |ext| == 32 then Respond(local, ext) else ReadEntropy(local, ext)))
    case Respond(local, ext) =>
      if h.env.writable then
        (sh, h.(pc := StoreUds(local, ext),
                told := Some(Response(cfg.primitives, UniqueDeviceSecret(cfg.primitives, local, ext), cfg.hostName))))
      else (sh, h.(pc := Refused(INTERNAL_SERVER_ERROR)))
    case StoreUds(local, ext) =>
      (sh.(uds := Some(UniqueDeviceSecret(cfg.primitives, local, ext))), h.(pc := Send(local, ext)))
    case Send(_, _) =>
      if sh.closed then (sh, h.(pc := Panicked))
      else (sh.(tokens := sh.tokens + 1), h.(pc := Finished(OK)))
    case _ => (sh, h)
  }

  /** The steps of one handler without interference, until it is done or has to wait. */
  function RunAlone(cfg: Config, sh: Shared, h: Handler): (Shared, Handler)
    decreases h.pc.Weight()
  {
    if !Runnable(sh, h) then (sh, h)
    else
      var (sh', h') := Step(cfg, sh, h);
      RunAlone(cfg, sh', h')
  }

  // ----- Which requests are handled -----

  /** Exactly which requests pass the gates, and how the others are answered. */
  lemma GateExactly(cfg: Config, req: Request)
    ensures var verb := req.verb == if req.endpoint == Commit then "GET" else "POST";
            var inside := req.remote.Some?
                          && exists i :: 0 <= i < |cfg.localCIDR| && cfg.localCIDR[i].Contains(req.remote.value);
            var user := req.auth == Some(("example-user", cfg.password));
            && (Gate(cfg, req) == None <==> verb && inside && user)
            && (!verb ==> Gate(cfg, req) == Some(if req.verb == "GET" || req.verb == "POST" then 405 else 400))
            && (verb && req.remote == None ==> Gate(cfg, req) == Some(500))
            && (verb && req.remote.Some? && !(inside && user) ==> Gate(cfg, req) == Some(403))
  {
  }

  /**
   A request with another verb than its endpoint's, from outside the allowed networks, or without the right user
   and password, is refused: it is told nothing, and memory does not change.
   */
  lemma UnauthorizedIsRefused(cfg: Config, sh: Shared, req: Request, env: Env)
    requires !(&& req.verb == (if req.endpoint == Commit then "GET" else "POST")
               && req.remote.Some?
               && (exists i :: 0 <= i < |cfg.localCIDR| && cfg.localCIDR[i].Contains(req.remote.value))
               && req.auth == Some(("example-user", cfg.password)))
    ensures var (sh', h') := RunAlone(cfg, sh, Handler(req, env, Gates, None));
            sh' == sh && h'.told == None && h'.pc.Refused? && h'.pc.code in {400, 403, 405, 500}
  {
    GateExactly(cfg, req);
    var h := Handler(req, env, Gates, None);
    hide Gate;
    var (sh', h') := Step(cfg, sh, h);
    assert RunAlone(cfg, sh, h) == RunAlone(cfg, sh', h') == (sh', h');
  }

  // ----- What a request does when it is alone -----

  predicate ValidAddData(req: Request) {
    && req.endpoint == AddData && req.addData.Some?
    && |req.addData.value.entropy| == ENTROPY_BYTES && req.addData.value.timestamp >= 0
  }

  /** What is left of a copy overwrites; what was copied before stays as it now is. */
  lemma {:induction false} CopyAlone(cfg: Config, sh: Shared, h: Handler)
    requires h.pc.CopyEntropy?
    ensures RunAlone(cfg, sh, h)
            == (sh.(entropy := sh.entropy[..h.pc.i] + h.pc.entropy[h.pc.i..]), h.(pc := Finished(OK)))
    decreases 32 - h.pc.i
  {
    var (sh', h') := Step(cfg, sh, h);
    assert RunAlone(cfg, sh, h) == RunAlone(cfg, sh', h');
    if h.pc.i == 31 {
      assert sh'.entropy == sh.entropy[..31] + h.pc.entropy[31..];
    } else {
      CopyAlone(cfg, sh', h');
      assert sh'.entropy[..h.pc.i + 1] + h.pc.entropy[h.pc.i + 1..] == sh.entropy[..h.pc.i] + h.pc.entropy[h.pc.i..];
    }
  }

  lemma {:induction false} ReadAlone(cfg: Config, sh: Shared, h: Handler)
    requires h.pc.ReadEntropy? && h.pc.got == sh.entropy[..|h.pc.got|]
    ensures RunAlone(cfg, sh, h) == RunAlone(cfg, sh, h.(pc := Respond(h.pc.local, sh.entropy)))
    decreases 32 - |h.pc.got|
  {
    var (sh', h') := Step(cfg, sh, h);
    assert RunAlone(cfg, sh, h) == RunAlone(cfg, sh', h');
    if |h.pc.got| == 31 {
      assert h.pc.got + [sh.entropy[31]] == sh.entropy;
    } else {
      ReadAlone(cfg, sh', h');
    }
  }

  /** The whole of a store of timestamp and entropy. */
  lemma StoreAlone(cfg: Config, sh: Shared, h: Handler)
    requires h.pc.StoreTimestamp?
    ensures RunAlone(cfg, sh, h)
            == (sh.(timestamp := h.pc.timestamp, entropy := h.pc.entropy), h.(pc := Finished(OK)))
  {
    var (sh', h') := Step(cfg, sh, h);
    assert RunAlone(cfg, sh, h) == RunAlone(cfg, sh', h');
    CopyAlone(cfg, sh', h');
    assert sh'.entropy[..0] + h.pc.entropy[0..] == h.pc.entropy;
  }

  /** An accepted add-data request stores exactly its timestamp and entropy and is answered OK. */
  lemma AddDataAlone(cfg: Config, sh: Shared, req: Request, env: Env)
    requires Gate(cfg, req) == None && ValidAddData(req)
    ensures RunAlone(cfg, sh, Handler(req, env, Gates, None))
            == (sh.(timestamp := req.addData.value.timestamp, entropy := req.addData.value.entropy),
                Handler(req, env, Finished(OK), None))
  {
    hide Gate;
    var h := Handler(req, env, Gates, None);
    var (sh', h') := Step(cfg, sh, h);
    assert RunAlone(cfg, sh, h) == RunAlone(cfg, sh', h');
    StoreAlone(cfg, sh', h');
  }

  /**
   A commit that gets local entropy and writes its response stores the secret mixed from local and stored
   entropy, in that order, after telling the client about that very secret; then it sends, or meets a closed
   or a full channel.
   */
  lemma CommitAlone(cfg: Config, sh: Shared, req: Request, env: Env)
    requires Gate(cfg, req) == None && req.endpoint == Commit && env.local.Some? && env.writable
    ensures var uds := UniqueDeviceSecret(cfg.primitives, env.local.value, sh.entropy);
            RunAlone(cfg, sh, Handler(req, env, Gates, None))
            == (sh.(uds := Some(uds), tokens := if sh.closed || sh.tokens > 0 then sh.tokens else 1),
                Handler(req, env,
                        if sh.closed then Panicked
                        else if sh.tokens > 0 then Send(env.local.value, sh.entropy)
                        else Finished(OK),
                        Some(Response(cfg.primitives, uds, cfg.hostName))))
  {
    hide UniqueDeviceSecret, Response;
    var h := Handler(req, env, Gates, None);
    var (sh1, h1) := Step(cfg, sh, h);
    assert RunAlone(cfg, sh, h) == RunAlone(cfg, sh1, h1);
    ReadAlone(cfg, sh1, h1);
    var h2 := h1.(pc := Respond(env.local.value, sh.entropy));
    FinishCommit(cfg, sh, h2);
  }

  lemma FinishCommit(cfg: Config, sh: Shared, h: Handler)
    requires h.pc.Respond? && h.env.writable
    ensures var uds := UniqueDeviceSecret(cfg.primitives, h.pc.local, h.pc.ext);
            RunAlone(cfg, sh, h)
            == (sh.(uds := Some(uds), tokens := if sh.closed || sh.tokens > 0 then sh.tokens else 1),
                Handler(h.req, h.env,
                        if sh.closed then Panicked
                        else if sh.tokens > 0 then Send(h.pc.local, h.pc.ext)
                        else Finished(OK),
                        Some(Response(cfg.primitives, uds, cfg.hostName))))
  {
    hide UniqueDeviceSecret, Response;
    var (sh1, h1) := Step(cfg, sh, h);
    var (sh2, h2) := Step(cfg, sh1, h1);
    assert RunAlone(cfg, sh, h) == RunAlone(cfg, sh1, h1) == RunAlone(cfg, sh2, h2);
    if Runnable(sh2, h2) {
      var (sh3, h3) := Step(cfg, sh2, h2);
      assert RunAlone(cfg, sh2, h2) == RunAlone(cfg, sh3, h3) == (sh3, h3);
    }
  }

  /** The writes of one request alone are those of provisioning, and then the reboot request. */
  lemma {:induction false} ProvisionAlone(cfg: Config, sh: Shared, h: Handler)
    requires h.pc.WriteVar? && h.pc.k < h.pc.request.blobs.Count()
    ensures var (efi, ok) := Provisioned(sh.efi, h.pc.request.blobs, h.env.firmware.accepted, h.pc.k);
            RunAlone(cfg, sh, h)
            == (sh.(efi := if h.pc.request.reboot then RebootRequested(efi, h.env.firmware) else efi),
                h.(pc := Finished(if ok then OK else BAD_REQUEST)))
    decreases 4 - h.pc.k
  {
    hide NewIndications;
    var (sh', h') := Step(cfg, sh, h);
    assert RunAlone(cfg, sh, h) == RunAlone(cfg, sh', h');
    if h'.pc.WriteVar? {
      ProvisionAlone(cfg, sh', h');
    } else if h'.pc.ReadIndications? {
      RebootAlone(cfg, sh', h');
    }
  }

  lemma RebootAlone(cfg: Config, sh: Shared, h: Handler)
    requires h.pc.ReadIndications?
    ensures RunAlone(cfg, sh, h) == (sh.(efi := RebootRequested(sh.efi, h.env.firmware)), h.(pc := Finished(h.pc.code)))
  {
    hide NewIndications;
    var (sh1, h1) := Step(cfg, sh, h);
    assert RunAlone(cfg, sh, h) == RunAlone(cfg, sh1, h1);
    if h1.pc.WriteIndications? {
      var (sh2, h2) := Step(cfg, sh1, h1);
      assert RunAlone(cfg, sh1, h1) == RunAlone(cfg, sh2, h2) == (sh2, h2);
    }
  }

  /**
   How an authorized request is answered when it is alone. Data of 32 bytes with a timestamp that is not negative
   is stored; keys are provisioned unless the setup mode reads as 0 or PK, KEK or db is missing; a commit needs
   random bytes and a response that can be written.
   */
  lemma AnswersAlone(cfg: Config, sh: Shared, req: Request, env: Env)
    requires Gate(cfg, req) == None
    ensures var (sh', h') := RunAlone(cfg, sh, Handler(req, env, Gates, None));
            match req.endpoint
            case AddData =>
              if req.addData.Some? && |req.addData.value.entropy| == 32 && req.addData.value.timestamp >= 0
              then h'.pc == Finished(200)
              else h'.pc == Refused(400) && sh' == sh
            case AddSecureBoot =>
              var firmware := env.firmware;
              if firmware.setupModeReadable && SetupMode in sh.efi && sh.efi[SetupMode] == [0]
              then h'.pc == Refused(403) && sh' == sh
              else if req.secureBoot.Some? && req.secureBoot.value.blobs.pk != []
                      && req.secureBoot.value.blobs.kek != [] && req.secureBoot.value.blobs.db != []
              then var blobs := req.secureBoot.value.blobs;
                   h'.pc == Finished(if PK in firmware.accepted && KEK in firmware.accepted && Db in firmware.accepted
                                        && (blobs.dbx != [] ==> Dbx in firmware.accepted) then 200 else 400)
              else h'.pc == Refused(400) && sh' == sh
            case Commit =>
              if env.local.Some? && env.writable then h'.told.Some? && !h'.pc.Refused?
              else h'.pc == Refused(500) && sh' == sh && h'.told == None
  {
    hide Gate, NewIndications, Response, UniqueDeviceSecret, Enrolled;
    var h := Handler(req, env, Gates, None);
    var (sh1, h1) := Step(cfg, sh, h);
    assert RunAlone(cfg, sh, h) == RunAlone(cfg, sh1, h1);
    match req.endpoint
    case AddData =>
      if ValidAddData(req) {
        AddDataAlone(cfg, sh, req, env);
      }
    case AddSecureBoot =>
      var (sh2, h2) := Step(cfg, sh1, h1);
      assert RunAlone(cfg, sh1, h1) == RunAlone(cfg, sh2, h2);
      if h2.pc.WriteVar? {
        hide RunAlone, Provisioned;
        ProvisionAlone(cfg, sh2, h2);
        ProvisionedExactly(sh2.efi, h2.pc.request.blobs, env.firmware.accepted);
      }
    case Commit =>
      if env.local.Some? {
        hide RunAlone;
        if env.writable {
          CommitAlone(cfg, sh, req, env);
        } else {
          UnwritableCommit(cfg, sh, h1);
        }
      }
  }

  lemma UnwritableCommit(cfg: Config, sh: Shared, h: Handler)
    requires h.pc.ReadEntropy? && h.pc.got == [] && !h.env.writable
    ensures RunAlone(cfg, sh, h) == (sh, h.(pc := Refused(500)))
  {
    ReadAlone(cfg, sh, h);
    var h1 := h.(pc := Respond(h.pc.local, sh.entropy));
    var (sh2, h2) := Step(cfg, sh, h1);
    assert RunAlone(cfg, sh, h1) == RunAlone(cfg, sh2, h2) == (sh2, h2);
  }

  // ----- The server object -----

  class Server {
    ghost const cfg: Config
    const primitives: Primitives
    const localCIDR: seq<IPNet>
    const hostName: string
    const basicAuthPassword: string

    var entropy: array<Byte>
    var timestamp: int
    var uds: Option<Bytes32>
    var tokens: nat
    var closed: bool
    const firmware: Firmware

    ghost predicate Valid()
      reads this
    {
      && entropy.Length == ENTROPY_BYTES
      && cfg == Config(primitives, localCIDR, basicAuthPassword, hostName)
    }

    ghost function Memory(): Shared
      requires Valid()
      reads this, entropy, firmware
    {
      Shared(entropy[..], timestamp, uds, tokens, closed, firmware.store)
    }

    /** The server's memory is zeroed, the channel is empty, and the password is derived from the shared secret. */
    constructor (p: Primitives, secret: string, localCIDR: seq<IPNet>, hostName: string, firmware: Firmware)
      ensures Valid() && fresh(entropy) && this.firmware == firmware
      ensures cfg == Config(p, localCIDR, BasicAuthPassword(p, OneTimePassword(p, secret)), hostName)
      ensures Memory() == Shared(Copied(32, []), 0, None, 0, false, firmware.store)
    {
      primitives, this.localCIDR, this.hostName, this.firmware := p, localCIDR, hostName, firmware;
      var password := BasicAuthPassword(p, OneTimePassword(p, secret));
      basicAuthPassword := password;
      cfg := Config(p, localCIDR, password, hostName);
      entropy := new Byte[32](_ => 0);
      timestamp, uds, tokens, closed := 0, None, 0, false;
    }

    method VerifyMethod(req: Request) returns (refused: Option<nat>)
      ensures refused == None <==> req.verb == req.endpoint.Verb()
      ensures refused.Some? ==> refused.value == (if req.verb in {"GET", "POST"} then METHOD_NOT_ALLOWED else BAD_REQUEST)
    {
      if req.endpoint.Verb() == req.verb {
        return None;
      }
      var code := BAD_REQUEST;
      if req.verb == "GET" || req.verb == "POST" {
        code := METHOD_NOT_ALLOWED;
      }
      return Some(code);
    }

    /** A request passes exactly when some allowed network contains its address. */
    method VerifyNetwork(req: Request) returns (refused: Option<nat>)
      ensures refused == None <==> req.remote.Some? && exists n :: n in localCIDR && n.Contains(req.remote.value)
      ensures refused.Some? ==> refused.value == if req.remote == None then INTERNAL_SERVER_ERROR else FORBIDDEN
    {
      if req.remote == None {
        return Some(INTERNAL_SERVER_ERROR);
      }
      for i := 0 to |localCIDR|
        invariant forall j :: 0 <= j < i ==> !localCIDR[j].Contains(req.remote.value)
      {
        if localCIDR[i].Contains(req.remote.value) {
          return None;
        }
      }
      return Some(FORBIDDEN);
    }

    method AuthenticateUser(req: Request) returns (refused: Option<nat>)
      ensures refused == None <==> req.auth == Some((BASIC_AUTH_USER, basicAuthPassword))
      ensures refused.Some? ==> refused.value == FORBIDDEN
    {
      if req.auth == None {
        return Some(FORBIDDEN);
      }
      if req.auth.value.0 != BASIC_AUTH_USER || req.auth.value.1 != basicAuthPassword {
        return Some(FORBIDDEN);
      }
      return None;
    }

    method HandleAddData(req: Request, ghost env: Env) returns (pc: Pc)
      requires Valid() && req.endpoint == AddData
      modifies this`timestamp, entropy
      ensures Valid()
      ensures (Memory(), Handler(req, env, pc, None))
              == RunAlone(cfg, old(Memory()), Handler(req, env, Dispatch(req, env), None))
    {
      hide RunAlone;
      ghost var h := Handler(req, env, Dispatch(req, env), None);
      if h.pc.Terminal() {
        Stopped(cfg, old(Memory()), h);
      }
      if req.addData == None {
        return Refused(BAD_REQUEST);
      }
      var data := req.addData.value;
      if |data.entropy| != ENTROPY_BYTES {
        return Refused(BAD_REQUEST);
      }
      if data.timestamp < 0 {
        return Refused(BAD_REQUEST);
      }
      timestamp := data.timestamp;
      for i := 0 to |data.entropy|
        invariant timestamp == data.timestamp && entropy[..i] == data.entropy[..i]
      {
        entropy[i] := data.entropy[i];
      }
      assert entropy[..] == data.entropy;
      pc := Finished(OK);
      StoreAlone(cfg, old(Memory()), h);
    }

    method HandleAddSecureBoot(req: Request, env: Env) returns (pc: Pc)
      requires Valid() && req.endpoint == AddSecureBoot
      modifies firmware
      ensures Valid()
      ensures (Memory(), Handler(req, env, pc, None))
              == RunAlone(cfg, old(Memory()), Handler(req, env, Dispatch(req, env), None))
    {
      ghost var h := Handler(req, env, ReadSetupMode, None);
      ghost var (sh1, h1) := Step(cfg, old(Memory()), h);
      assert RunAlone(cfg, old(Memory()), h) == RunAlone(cfg, sh1, h1);
      hide RunAlone;
      var ok := firmware.IsSetupMode(env.firmware);
      if ok == Some(false) {
        pc := Refused(FORBIDDEN);
        Stopped(cfg, sh1, h1);
        return;
      }
      if req.secureBoot == None {
        pc := Refused(BAD_REQUEST);
        Stopped(cfg, sh1, h1);
        return;
      }
      var data := req.secureBoot.value;
      if !data.Check() {
        pc := Refused(BAD_REQUEST);
        Stopped(cfg, sh1, h1);
        return;
      }
      var done := firmware.Provision(data.blobs, env.firmware);
      pc := Finished(if done then OK else BAD_REQUEST);
      if data.reboot {
        var _ := firmware.RequestRebootIntoUEFIMenu(env.firmware);
      }
      ProvisionAlone(cfg, sh1, h1);
      assert Memory() == RunAlone(cfg, sh1, h1).0;
    }

    method HandleCommit(req: Request, env: Env) returns (pc: Pc, told: Option<CommitResponse>)
      requires Valid() && req.endpoint == Commit
      modifies this`uds, this`tokens
      ensures Valid()
      ensures (Memory(), Handler(req, env, pc, told))
              == RunAlone(cfg, old(Memory()), Handler(req, env, Dispatch(req, env), None))
    {
      hide UniqueDeviceSecret, Response;
      ghost var h := Handler(req, env, Dispatch(req, env), None);
      told := None;
      var secret := NewUniqueDeviceSecret(primitives, env.local, entropy[..]);
      if secret == None {
        return Refused(INTERNAL_SERVER_ERROR), None;
      }
      ReadAlone(cfg, old(Memory()), h);
      ghost var h1 := h.(pc := Respond(env.local.value, entropy[..]));
      var cr := NewCommitResponse(primitives, secret.value, hostName);
      if !env.writable {
        assert RunAlone(cfg, old(Memory()), h1) == (old(Memory()), h1.(pc := Refused(INTERNAL_SERVER_ERROR)));
        return Refused(INTERNAL_SERVER_ERROR), None;
      }
      FinishCommit(cfg, old(Memory()), h1);
      hide RunAlone;
      told := cr;
      uds := secret;
      if closed {
        pc := Panicked;
      } else if tokens == 0 {
        tokens := tokens + 1;
        pc := Finished(OK);
      } else {
        pc := Send(env.local.value, entropy[..]);
      }
    }

    /** A request alone: the outcome is that of its steps without interference. */
    method ServeHTTP(req: Request, env: Env) returns (pc: Pc, told: Option<CommitResponse>)
      requires Valid()
      modifies this, entropy, firmware
      ensures Valid() && entropy == old(entropy)
      ensures (Memory(), Handler(req, env, pc, told)) == RunAlone(cfg, old(Memory()), Handler(req, env, Gates, None))
      ensures (pc.Refused? && told == None && Memory() == old(Memory()))
              || (&& req.verb == (if req.endpoint == Commit then "GET" else "POST")
                  && req.remote.Some? && (exists n :: n in localCIDR && n.Contains(req.remote.value))
                  && req.auth == Some(("example-user", basicAuthPassword)))
    {
      ServeOnlyAuthorized(cfg, Memory(), req, env);
      ghost var h := Handler(req, env, Gates, None);
      ghost var (sh1, h1) := Step(cfg, old(Memory()), h);
      assert RunAlone(cfg, old(Memory()), h) == RunAlone(cfg, sh1, h1);
      told := None;
      var refused := VerifyMethod(req);
      if refused == None {
        refused := VerifyNetwork(req);
      }
      if refused == None {
        refused := AuthenticateUser(req);
      }
      assert refused == Gate(cfg, req);
      if refused.Some? {
        pc := Refused(refused.value);
        return;
      }
      hide RunAlone;
      match req.endpoint {
        case AddData => pc := HandleAddData(req, env);
        case AddSecureBoot => pc := HandleAddSecureBoot(req, env);
        case Commit => pc, told := HandleCommit(req, env);
      }
    }
  }

  lemma ServeOnlyAuthorized(cfg: Config, sh: Shared, req: Request, env: Env)
    ensures var (sh', h') := RunAlone(cfg, sh, Handler(req, env, Gates, None));
            || (&& req.verb == (if req.endpoint == Commit then "GET" else "POST")
                && req.remote.Some? && (exists n :: n in cfg.localCIDR && n.Contains(req.remote.value))
                && req.auth == Some(("example-user", cfg.password)))
            || (h'.pc.Refused? && h'.told == None && sh' == sh)
  {
    hide RunAlone, IPNet.Contains;
    if || req.verb != (if req.endpoint == Commit then "GET" else "POST")
       || req.remote == None
       || !(exists i :: 0 <= i < |cfg.localCIDR| && cfg.localCIDR[i].Contains(req.remote.value))
       || req.auth != Some(("example-user", cfg.password)) {
      UnauthorizedIsRefused(cfg, sh, req, env);
    } else {
      var i :| 0 <= i < |cfg.localCIDR| && cfg.localCIDR[i].Contains(req.remote.value);
      assert cfg.localCIDR[i] in cfg.localCIDR;
    }
  }

  lemma Stopped(cfg: Config, sh: Shared, h: Handler)
    requires h.pc.Terminal()
    ensures RunAlone(cfg, sh, h) == (sh, h)
  {
  }
}
