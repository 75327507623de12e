/** stprov local: the requests of an honest client, one after the other (subcmd/local/run/run.go). */
module Local {
  import opened Base
  import opened Netmask
  import opened Secrets
  import opened Efi
  import opened Handler

  /** What the server's environment does for each of the client's requests. */
  datatype Envs = Envs(addData: Env, secureBoot: Env, commit: Env)

  function ClientRequest(p: Primitives, secret: string, from: Address, endpoint: Endpoint,
                         addData: Option<AddDataRequest>, secureBoot: Option<AddSecureBootRequest>): Request {
    Request(endpoint, endpoint.Verb(), Some(from),
            Some((BASIC_AUTH_USER, BasicAuthPassword(p, OneTimePassword(p, secret)))), addData, secureBoot)
  }

  /** Whether an add-secure-boot request alone is answered OK. */
  predicate ProvisioningSucceeds(efi: Store, request: AddSecureBootRequest, answers: Answers) {
    && SetupModeOf(efi, answers.setupModeReadable) != Some(false) && request.Check()
    && Provisioned(efi, request.blobs, answers.accepted, 0).1
  }

  /** The firmware variables after an add-secure-boot request that was answered OK. */
  function Provided(efi: Store, request: AddSecureBootRequest, answers: Answers): Store {
    var after := Provisioned(efi, request.blobs, answers.accepted, 0).0;
    if request.reboot then RebootRequested(after, answers) else after
  }

  /** It leaves each of the request's keys in its own variable, and only asks for a reboot when told to. */
  lemma ProvidedExactly(efi: Store, request: AddSecureBootRequest, answers: Answers)
    requires Provisioned(efi, request.blobs, answers.accepted, 0).1
    ensures var blobs, after := request.blobs, Provided(efi, request, answers);
            && PK in after && after[PK] == blobs.pk && KEK in after && after[KEK] == blobs.kek
            && Db in after && after[Db] == blobs.db
            && (blobs.dbx != [] ==> Dbx in after && after[Dbx] == blobs.dbx)
            && (request.reboot && answers.indicationsReadable && RebootGranted(efi, answers) ==>
                  OsIndications in after && |after[OsIndications]| == 8 && after[OsIndications][0] % 2 == 1)
            && (!request.reboot ==> SameAt(efi, after, OsIndications))
  {
    var after := Provisioned(efi, request.blobs, answers.accepted, 0).0;
    ProvisionedExactly(efi, request.blobs, answers.accepted);
    assert SameAt(efi, after, OsIndications) by {
      Unrolled(efi, request.blobs, answers.accepted);
    }
    hide Provisioned;
    if request.reboot && answers.indicationsReadable {
      RebootIsRequestedOnce(after, answers);
      assert Efi.Read(after, OsIndications, true) == Efi.Read(efi, OsIndications, true);
    }
    hide NewIndications;
  }

  lemma SecureBootAlone(cfg: Config, sh: Shared, req: Request, env: Env)
    requires Gate(cfg, req) == None && req.endpoint == AddSecureBoot && req.secureBoot.Some?
    ensures var (sh', h') := RunAlone(cfg, sh, Handler(req, env, Gates, None));
            && (h'.pc == Finished(OK) <==> ProvisioningSucceeds(sh.efi, req.secureBoot.value, env.firmware))
            && sh' == sh.(efi := sh'.efi) && h'.told == None
            && (h'.pc == Finished(OK) ==> sh'.efi == Provided(sh.efi, req.secureBoot.value, env.firmware))
  {
    hide Gate, NewIndications, SetupModeOf;
    var h := Handler(req, env, Gates, None);
    var (sh1, h1) := Step(cfg, sh, h);
    var (sh2, h2) := Step(cfg, sh1, h1);
    assert RunAlone(cfg, sh, h) == RunAlone(cfg, sh1, h1) == RunAlone(cfg, sh2, h2);
    if h2.pc.WriteVar? {
      hide RunAlone;
      ProvisionAlone(cfg, sh2, h2);
    }
  }

  /**
   The client's run against a server that no one else is using. It succeeds exactly when the passwords that
   both sides derive agree, its address is allowed, its requests are well formed, the firmware accepts the
   keys, if any, and the commit gets through; and then the server holds its data, and what it was told is
   about the secret that the server stored.
   */
  method ProvisionPlatform(srv: Server, p: Primitives, secret: string, from: Address, data: AddDataRequest,
                            secureBoot: Option<AddSecureBootRequest>, envs: Envs)
    returns (cr: Option<CommitResponse>)
    requires srv.Valid() && srv.primitives == p
    modifies srv, srv.entropy, srv.firmware
    ensures srv.Valid()
    ensures cr.Some? <==>
            && srv.basicAuthPassword == BasicAuthPassword(p, OneTimePassword(p, secret))
            && Allowed(srv.cfg, from)
            && |data.entropy| == ENTROPY_BYTES && data.timestamp >= 0
            && (secureBoot.Some? ==>
                  ProvisioningSucceeds(old(srv.firmware.store), secureBoot.value, envs.secureBoot.firmware))
            && envs.commit.local.Some? && envs.commit.writable && !old(srv.closed) && old(srv.tokens) == 0
    ensures cr.Some? ==>
              && |data.entropy| == ENTROPY_BYTES && envs.commit.local.Some?
              && srv.entropy[..] == data.entropy && srv.timestamp == data.timestamp && srv.tokens == 1
              && srv.uds == Some(UniqueDeviceSecret(p, envs.commit.local.value, data.entropy))
              && cr.value == Response(p, srv.uds.value, srv.hostName)
    ensures cr.Some? ==>
              srv.firmware.store == if secureBoot == None then old(srv.firmware.store)
                                    else Provided(old(srv.firmware.store), secureBoot.value, envs.secureBoot.firmware)
  {
    hide Gate, RunAlone, Response, UniqueDeviceSecret, Provisioned, Provided, SetupModeOf;
    cr := None;
    var addData := ClientRequest(p, secret, from, AddData, Some(data), None);
    GateOf(srv.cfg, addData, p, secret, from);
    Outcome(srv.cfg, srv.Memory(), addData, envs.addData);
    if Gate(srv.cfg, addData) == None && ValidAddData(addData) {
      AddDataAlone(srv.cfg, srv.Memory(), addData, envs.addData);
    }
    var pc, told := srv.ServeHTTP(addData, envs.addData);
    if pc != Finished(OK) {
      return;
    }
    assert srv.Memory() == old(srv.Memory()).(timestamp := data.timestamp, entropy := data.entropy);
    if secureBoot.Some? {
      var add := ClientRequest(p, secret, from, AddSecureBoot, None, secureBoot);
      GateOf(srv.cfg, add, p, secret, from);
      SecureBootAlone(srv.cfg, srv.Memory(), add, envs.secureBoot);
      if !secureBoot.value.Check() {
        return;
      }
      pc, told := srv.ServeHTTP(add, envs.secureBoot);
      if pc != Finished(OK) {
        return;
      }
    }
    assert srv.Memory() == old(srv.Memory()).(timestamp := data.timestamp, entropy := data.entropy, efi := srv.firmware.store);
    var commit := ClientRequest(p, secret, from, Commit, None, None);
    GateOf(srv.cfg, commit, p, secret, from);
    Outcome(srv.cfg, srv.Memory(), commit, envs.commit);
    if envs.commit.local.Some? && envs.commit.writable {
      CommitAlone(srv.cfg, srv.Memory(), commit, envs.commit);
    }
    pc, told := srv.ServeHTTP(commit, envs.commit);
    if pc == Finished(OK) {
      cr := told;
    }
  }

  /** The client's requests pass the gates exactly when the passwords agree and its address is allowed. */
  lemma GateOf(cfg: Config, req: Request, p: Primitives, secret: string, from: Address)
    requires req == ClientRequest(p, secret, from, req.endpoint, req.addData, req.secureBoot)
    ensures Gate(cfg, req) == None
            <==> cfg.password == BasicAuthPassword(p, OneTimePassword(p, secret)) && Allowed(cfg, from)
  {
  }

  /** Requests that do not meet their conditions are not answered OK. */
  lemma Outcome(cfg: Config, sh: Shared, req: Request, env: Env)
    requires req.endpoint != AddSecureBoot
    ensures var (sh', h') := RunAlone(cfg, sh, Handler(req, env, Gates, None));
            h'.pc == Finished(OK) ==>
              && Gate(cfg, req) == None
              && (req.endpoint == AddData ==> ValidAddData(req))
              && (req.endpoint == Commit ==> env.local.Some? && env.writable)
  {
    hide Gate, Response, UniqueDeviceSecret;
    var h := Handler(req, env, Gates, None);
    var (sh1, h1) := Step(cfg, sh, h);
    assert RunAlone(cfg, sh, h) == RunAlone(cfg, sh1, h1);
    if h1.pc.ReadEntropy? && !env.writable {
      ReadAlone(cfg, sh1, h1);
      var h2 := h1.(pc := Respond(env.local.value, sh.entropy));
      var (sh3, h3) := Step(cfg, sh1, h2);
      assert RunAlone(cfg, sh1, h2) == RunAlone(cfg, sh3, h3) == (sh3, h3);
    }
  }
}
