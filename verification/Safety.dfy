/** What holds in every state of every schedule of the machine, and the safety of what is persisted. */
module Safety {
  import opened Base
  import opened Secrets
  import opened Efi
  import opened Handler
  import opened Machine
  import Netmask
  import K = SshKey

  // ----- The invariant -----

  /** The goroutines and the channel. */
  ghost predicate Control(s: State) {
    && s.wg == (if s.waiter.WaiterDone? then 0 else 1)
    && s.shutdowns == (if s.waiter.CalledShutdown() then 1 else 0)
    && (s.shared.closed <==> s.main.Closed())
    && (s.main.Succeeded() ==> s.shutdowns == 1)
    && (s.main.AfterRun() ==> s.waiter.WaiterDone?)
    && s.receives == (if s.waiter.ReleasedBy(Token) then 1 else 0)
    && (s.waiter.ReleasedBy(ContextDone) ==> s.cancelled)
    && (s.waiter.ReleasedBy(ChannelClosed) ==> s.main.Closed() && !s.main.Succeeded())
    && s.shared.tokens <= 1 && |s.sent| == s.receives + s.shared.tokens
    && (s.waiter.Drained() ==> forall id :: id in s.handlers ==> s.handlers[id].pc.Terminal())
  }

  /** A handler's program counter agrees with its request. */
  predicate Sound(cfg: Config, h: Handler) {
    && (!h.pc.Gates? && !h.pc.Refused? ==> Gate(cfg, h.req) == None)
    && (h.told.Some? ==> h.pc.StoreUds? || h.pc.Send? || h.pc.Finished? || h.pc.Panicked?)
    && match h.pc
       case StoreTimestamp(timestamp, entropy) =>
         ValidAddData(h.req) && h.req.addData == Some(AddDataRequest(entropy, timestamp))
       case CopyEntropy(timestamp, entropy, _) =>
         ValidAddData(h.req) && h.req.addData == Some(AddDataRequest(entropy, timestamp))
       case ReadSetupMode => h.req.endpoint == AddSecureBoot
       case WriteVar(request, k) =>
         h.req.endpoint == AddSecureBoot && h.req.secureBoot == Some(request) && request.Check() && k < request.blobs.Count()
       case ReadIndications(_) => h.req.endpoint == AddSecureBoot && h.req.secureBoot.Some?
       case WriteIndications(_, _) => h.req.endpoint == AddSecureBoot && h.req.secureBoot.Some?
       case ReadEntropy(local, _) => h.req.endpoint == Commit && h.env.local == Some(local)
       case Respond(local, _) => h.req.endpoint == Commit && h.env.local == Some(local)
       case StoreUds(local, ext) =>
         h.req.endpoint == Commit && h.env.local == Some(local) && h.env.writable && Told(cfg, h, local, ext)
       case Send(local, ext) =>
         h.req.endpoint == Commit && h.env.local == Some(local) && h.env.writable && Told(cfg, h, local, ext)
       case Panicked => h.req.endpoint == Commit
       case Finished(_) =>
         && (h.req.endpoint == AddData ==> ValidAddData(h.req) && h.pc == Finished(OK))
         && (h.req.endpoint == AddSecureBoot ==> h.req.secureBoot.Some?)
       case _ => true
  }

  /** The client was told about the secret mixed from local and ext. */
  predicate Told(cfg: Config, h: Handler, local: Bytes32, ext: Bytes32) {
    h.told == Some(Response(cfg.primitives, UniqueDeviceSecret(cfg.primitives, local, ext), cfg.hostName))
  }

  ghost predicate AllSound(cfg: Config, s: State) {
    forall id :: id in s.handlers ==> Sound(cfg, s.handlers[id])
  }

  /** A commit that has passed the store to UDS. */
  predicate PastStore(h: Handler) {
    h.req.endpoint == Commit && (h.pc.Send? || h.pc.Finished? || h.pc.Panicked?)
  }

  /** A recorded store was made by a commit that had told its client about the stored secret. */
  predicate BackedBy(cfg: Config, h: Handler, st: Stored) {
    && PastStore(h) && h.env.local == Some(st.local) && h.env.writable && Told(cfg, h, st.local, st.ext)
    && (h.pc.Send? ==> h.pc == Send(st.local, st.ext))
  }

  ghost predicate AllBacked(cfg: Config, handlers: map<nat, Handler>, stores: seq<Stored>) {
    forall st :: st in stores ==> st.id in handlers && BackedBy(cfg, handlers[st.id], st)
  }

  predicate HasStored(stores: seq<Stored>, id: nat) {
    exists i :: 0 <= i < |stores| && stores[i].id == id
  }

  ghost predicate AllRecorded(handlers: map<nat, Handler>, stores: seq<Stored>) {
    forall id :: id in handlers && PastStore(handlers[id]) ==> HasStored(stores, id)
  }

  predicate OnceEach(stores: seq<Stored>) {
    forall i, j :: 0 <= i < j < |stores| ==> stores[i].id != stores[j].id
  }

  function SecretAfter(cfg: Config, s: State, n: nat): Option<Bytes32>
    requires n <= |s.stores|
  {
    if n == 0 then None else Some(s.stores[n - 1].Secret(cfg.primitives))
  }

  /** UDS is the last store, and the commits past their store are exactly those recorded. */
  ghost predicate Stores(cfg: Config, s: State) {
    && s.shared.uds == SecretAfter(cfg, s, |s.stores|)
    && AllBacked(cfg, s.handlers, s.stores) && OnceEach(s.stores) && AllRecorded(s.handlers, s.stores)
  }

  /** The completed sends are those of the commits that finished. */
  ghost predicate Sends(s: State) {
    forall id :: id in s.sent
                 <==> id in s.handlers && s.handlers[id].req.endpoint == Commit && s.handlers[id].pc.Finished?
  }

  /** What the main goroutine read, and derived, is the secret of the last store at that time. */
  ghost predicate Reads(cfg: Config, s: State) {
    match s.main
    case Holding(uds, n) => n <= |s.stores| && uds == SecretAfter(cfg, s, n) && (s.waiter.Drained() ==> n == |s.stores|)
                            && (s.waiter.ReleasedBy(Token) ==> n > 0)
    case Persisted(key, n) =>
      && 0 < n <= |s.stores| && key == HostKey(cfg.primitives, s.stores[n - 1].Secret(cfg.primitives))
      && (s.waiter.Drained() ==> n == |s.stores|)
    case NilSecret => !s.waiter.ReleasedBy(Token)
    case _ => true
  }

  ghost predicate Inv(cfg: Config, s: State) {
    Control(s) && AllSound(cfg, s) && Stores(cfg, s) && Sends(s) && Reads(cfg, s)
  }

  // ----- It is inductive -----

  /** A move of the goroutine of stprov remote. */
  predicate OfMain(l: Move) {
    l.ReturnListener? || l.CloseCommit? || l.ReturnWait? || l.Confirm? || l.WriteHostKey?
  }

  lemma ControlKept(cfg: Config, s: State, l: Move)
    requires Control(s) && Sends(s) && Enabled(s, l)
    ensures Control(Apply(cfg, s, l))
  {
    if l.Advance? {
      ControlKeptByAdvance(cfg, s, l.id);
    } else if OfMain(l) {
      hide Control, Sends;
      ControlKeptByMain(cfg, s, l);
    } else {
      hide Sends;
      ControlKeptByRest(cfg, s, l);
    }
  }

  lemma ControlKeptByRest(cfg: Config, s: State, l: Move)
    requires Control(s) && !l.Advance? && !OfMain(l) && Enabled(s, l)
    ensures Control(Apply(cfg, s, l))
  {
    hide Step, Advanced, Answered, Runnable;
  }

  lemma ControlKeptByMain(cfg: Config, s: State, l: Move)
    requires Control(s) && OfMain(l) && Enabled(s, l)
    ensures Control(Apply(cfg, s, l))
  {
    hide HostKey, Advanced, Answered, Runnable;
  }

  lemma ControlKeptByAdvance(cfg: Config, s: State, id: nat)
    requires Control(s) && Sends(s) && Enabled(s, Advance(id))
    ensures Control(Advanced(cfg, s, id))
  {
    var h := s.handlers[id];
    var (shared, h') := Step(cfg, s.shared, h);
    StepAndChannel(cfg, s.shared, h);
    hide Step;
    assert h.pc.Send? ==> id !in s.sent;
  }

  /** Only a send touches the channel, and nothing a handler does closes it. */
  lemma StepAndChannel(cfg: Config, sh: Shared, h: Handler)
    requires Runnable(sh, h)
    ensures var (sh', h') := Step(cfg, sh, h);
            && sh'.closed == sh.closed
            && sh'.tokens == (if h.pc.Send? && !sh.closed then 1 else sh.tokens)
            && !h.pc.Terminal()
  {
    hide Gate, Dispatch, AfterSetupMode, Enrolled, NewIndications, UniqueDeviceSecret, Response;
  }

  lemma SoundStep(cfg: Config, sh: Shared, h: Handler)
    requires Runnable(sh, h) && Sound(cfg, h)
    ensures Sound(cfg, Step(cfg, sh, h).1)
  {
    hide Gate, Enrolled, NewIndications, UniqueDeviceSecret, Response, SetupModeOf;
  }

  lemma AllSoundKept(cfg: Config, s: State, l: Move)
    requires AllSound(cfg, s) && Enabled(s, l)
    ensures AllSound(cfg, Apply(cfg, s, l))
  {
    if l.Advance? {
      SoundStep(cfg, s.shared, s.handlers[l.id]);
    }
    hide Step, Sound;
    if l.Arrive? {
      assert Sound(cfg, Handler(l.req, l.env, Gates, None)) by {
        FreshIsSound(cfg, l.req, l.env);
      }
    }
  }

  lemma FreshIsSound(cfg: Config, req: Request, env: Env)
    ensures Sound(cfg, Handler(req, env, Gates, None))
  {
  }

  /** How a step moves a handler towards and past its store to UDS. */
  lemma StepAndStore(cfg: Config, sh: Shared, h: Handler)
    requires Runnable(sh, h) && Sound(cfg, h)
    ensures var (sh', h') := Step(cfg, sh, h);
            && sh'.uds == (if h.pc.StoreUds? then Some(UniqueDeviceSecret(cfg.primitives, h.pc.local, h.pc.ext)) else sh.uds)
            && (PastStore(h') <==> PastStore(h) || h.pc.StoreUds?)
            && (PastStore(h') ==> h'.told == h.told)
            && (h.pc.StoreUds? ==> Told(cfg, h, h.pc.local, h.pc.ext) && h'.pc == Send(h.pc.local, h.pc.ext))
            && (h'.pc.Send? ==> h.pc.StoreUds?)
            && (h'.req.endpoint == Commit && h'.pc.Finished? <==> h.pc.Send? && !sh.closed)
  {
    hide Gate, Enrolled, NewIndications, UniqueDeviceSecret, Response, SetupModeOf;
  }

  /** A handler's step keeps the records right, adding one when the handler stores. */
  lemma RecordsKept(cfg: Config, handlers: map<nat, Handler>, stores: seq<Stored>, id: nat, h': Handler)
    requires id in handlers && AllBacked(cfg, handlers, stores) && OnceEach(stores) && AllRecorded(handlers, stores)
    requires var h := handlers[id];
             && h'.req == h.req && h'.env == h.env
             && (PastStore(h') <==> PastStore(h) || h.pc.StoreUds?)
             && (PastStore(h') ==> h'.told == h.told) && (h'.pc.Send? ==> h.pc.StoreUds?)
             && (h.pc.StoreUds? ==> h'.pc == Send(h.pc.local, h.pc.ext) && Sound(cfg, h))
    ensures var h := handlers[id];
            var stores' := if h.pc.StoreUds? then stores + [Stored(id, h.pc.local, h.pc.ext)] else stores;
            AllBacked(cfg, handlers[id := h'], stores') && OnceEach(stores') && AllRecorded(handlers[id := h'], stores')
  {
    hide Gate, Told;
    var h := handlers[id];
    var stores' := if h.pc.StoreUds? then stores + [Stored(id, h.pc.local, h.pc.ext)] else stores;
    if h.pc.StoreUds? {
      assert !PastStore(h);
      assert forall st :: st in stores ==> st.id != id;
      forall i | 0 <= i < |stores|
        ensures stores[i].id != id
      {
        assert stores[i] in stores;
      }
      assert h'.told == h.told && Told(cfg, h, h.pc.local, h.pc.ext);
      assert Told(cfg, h', h.pc.local, h.pc.ext) by {
        SameTold(cfg, h, h', h.pc.local, h.pc.ext);
      }
    }
    forall st | st in stores
      ensures BackedBy(cfg, handlers[id := h'][st.id], st)
    {
      assert BackedBy(cfg, handlers[st.id], st);
      if st.id == id {
        SameTold(cfg, h, h', st.local, st.ext);
      }
    }
    forall j | j in handlers[id := h'] && PastStore(handlers[id := h'][j])
      ensures HasStored(stores', j)
    {
      if j == id && h.pc.StoreUds? {
        assert stores'[|stores|].id == id;
      } else {
        var i :| 0 <= i < |stores| && stores[i].id == j;
        assert stores'[i].id == j;
      }
    }
  }

  lemma SameTold(cfg: Config, h: Handler, h': Handler, local: Bytes32, ext: Bytes32)
    requires h.told == h'.told
    ensures Told(cfg, h, local, ext) <==> Told(cfg, h', local, ext)
  {
  }

  lemma StoresKeptByAdvance(cfg: Config, s: State, id: nat)
    requires AllSound(cfg, s) && Stores(cfg, s) && Enabled(s, Advance(id))
    ensures Stores(cfg, Advanced(cfg, s, id))
  {
    var h := s.handlers[id];
    var t := Advanced(cfg, s, id);
    StepAndStore(cfg, s.shared, h);
    hide Step, UniqueDeviceSecret, Response, Gate, Told, AllBacked, OnceEach, AllRecorded, PastStore, Sound;
    var h' := Step(cfg, s.shared, h).1;
    RecordsKept(cfg, s.handlers, s.stores, id, h');
    assert t.handlers == s.handlers[id := h'];
  }

  lemma StoresKeptByArrive(cfg: Config, s: State, id: nat, req: Request, env: Env)
    requires Stores(cfg, s) && id !in s.handlers
    ensures Stores(cfg, s.(handlers := s.handlers[id := Handler(req, env, Gates, None)], before := s.before[id := Answered(s)]))
  {
    hide Told, Answered;
  }

  /** Steps of the other goroutines leave the handlers, UDS and the record of its stores alone. */
  lemma OtherMoves(cfg: Config, s: State, l: Move)
    requires Enabled(s, l) && !l.Advance? && !l.Arrive?
    ensures var t := Apply(cfg, s, l);
            && t.handlers == s.handlers && t.stores == s.stores && t.sent == s.sent
            && t.shared.uds == s.shared.uds && t.shared.efi == s.shared.efi
            && t.shared.entropy == s.shared.entropy && t.shared.timestamp == s.shared.timestamp
            && t.attempts == s.attempts && t.turns == s.turns && t.before == s.before
  {
    hide Step, Advanced, Answered, HostKey;
  }

  lemma StoresKept(cfg: Config, s: State, l: Move)
    requires AllSound(cfg, s) && Stores(cfg, s) && Enabled(s, l)
    ensures Stores(cfg, Apply(cfg, s, l))
  {
    match l {
      case Advance(id) => StoresKeptByAdvance(cfg, s, id);
      case Arrive(id, req, env) => StoresKeptByArrive(cfg, s, id, req, env);
      case _ =>
        OtherMoves(cfg, s, l);
        hide *;
        assert Stores(cfg, Apply(cfg, s, l)) by {
          StoresDependOn(cfg, s, Apply(cfg, s, l));
        }
    }
  }

  lemma StoresDependOn(cfg: Config, s: State, t: State)
    requires Stores(cfg, s)
    requires t.handlers == s.handlers && t.stores == s.stores && t.shared.uds == s.shared.uds
    ensures Stores(cfg, t)
  {
    hide AllBacked, OnceEach, AllRecorded, UniqueDeviceSecret;
  }

  lemma SendsKept(cfg: Config, s: State, l: Move)
    requires AllSound(cfg, s) && Sends(s) && Enabled(s, l)
    ensures Sends(Apply(cfg, s, l))
  {
    match l {
      case Advance(id) => SendsKeptByAdvance(cfg, s, id);
      case Arrive(_, _, _) => hide Answered, AllSound;
      case _ =>
        OtherMoves(cfg, s, l);
        hide *;
        SendsDependOn(s, Apply(cfg, s, l));
    }
  }

  lemma SendsKeptByAdvance(cfg: Config, s: State, id: nat)
    requires AllSound(cfg, s) && Sends(s) && Enabled(s, Advance(id))
    ensures Sends(Advanced(cfg, s, id))
  {
    StepAndStore(cfg, s.shared, s.handlers[id]);
    hide Step, Sound, Gate, UniqueDeviceSecret, Response, AllSound, Turned;
  }

  lemma SendsDependOn(s: State, t: State)
    requires Sends(s) && t.handlers == s.handlers && t.sent == s.sent
    ensures Sends(t)
  {
  }

  lemma ReadsKept(cfg: Config, s: State, l: Move)
    requires Inv(cfg, s) && Enabled(s, l)
    ensures Reads(cfg, Apply(cfg, s, l))
  {
    if l.Advance? {
      ReadsKeptByAdvance(cfg, s, l.id);
    } else if OfMain(l) {
      hide Control, AllSound, Stores, Sends, Reads, Apply;
      if l == Confirm(true) && s.main.ok && s.waiter.ReleasedBy(Token) {
        TokenMeansStored(cfg, s);
      }
      ReadsKeptByMain(cfg, s, l);
    } else {
      hide AllSound, Stores, Sends, Apply, Enabled;
      OtherOrArrive(cfg, s, l);
      assert s.main.Holding? || s.main.Persisted? || s.main.NilSecret? ==> s.main.AfterRun();
      ReadsDependOn(cfg, s, Apply(cfg, s, l));
    }
  }

  /** What was read does not change while the main goroutine and the stores rest. */
  lemma ReadsDependOn(cfg: Config, s: State, t: State)
    requires Reads(cfg, s) && t.main == s.main && t.stores == s.stores
    requires s.main.AfterRun() ==> t.waiter == s.waiter
    ensures Reads(cfg, t)
  {
    hide UniqueDeviceSecret, HostKey;
  }

  lemma ReadsKeptByMain(cfg: Config, s: State, l: Move)
    requires Control(s) && Stores(cfg, s) && Reads(cfg, s) && OfMain(l) && Enabled(s, l)
    requires l == Confirm(true) && s.main.ok && s.waiter.ReleasedBy(Token) ==> s.stores != []
    ensures Reads(cfg, Apply(cfg, s, l))
  {
    hide UniqueDeviceSecret, HostKey, Advanced, Answered, Runnable, AllBacked, OnceEach, AllRecorded;
  }

  /** Moves that are neither the main goroutine's nor a handler's. */
  lemma OtherOrArrive(cfg: Config, s: State, l: Move)
    requires Control(s) && Enabled(s, l) && !l.Advance? && !OfMain(l)
    ensures var t := Apply(cfg, s, l);
            && t.main == s.main && t.stores == s.stores
            && (s.main.AfterRun() ==> t.waiter == s.waiter)
  {
    hide Advanced, Answered, Runnable;
  }

  lemma ReadsKeptByAdvance(cfg: Config, s: State, id: nat)
    requires Inv(cfg, s) && Enabled(s, Advance(id))
    ensures Reads(cfg, Advanced(cfg, s, id))
  {
    hide Step, Gate, UniqueDeviceSecret, Response, HostKey, Sound;
    assert !s.waiter.Drained();
  }

  /** When a token was received, it came from a commit that had stored. */
  lemma TokenMeansStored(cfg: Config, s: State)
    requires Control(s) && Stores(cfg, s) && Sends(s)
    requires s.waiter.ReleasedBy(Token)
    ensures s.stores != [] && s.receives == 1
    ensures exists id :: id in s.sent && HasStored(s.stores, id)
  {
    hide Gate, UniqueDeviceSecret, Response;
    assert s.sent != {};
    var id :| id in s.sent;
    assert PastStore(s.handlers[id]);
    assert HasStored(s.stores, id);
  }

  lemma {:induction false} Invariant(cfg: Config, efi: Store, ls: seq<Move>, s: State)
    requires Reaches(cfg, efi, ls, s)
    ensures Inv(cfg, s)
  {
    if ls != [] {
      var n := |ls| - 1;
      var before := Exec(cfg, Init(efi), ls[..n]).value;
      Invariant(cfg, efi, ls[..n], before);
      InvKept(cfg, before, ls[n]);
    }
  }

  lemma InvKept(cfg: Config, s: State, l: Move)
    requires Inv(cfg, s) && Enabled(s, l)
    ensures Inv(cfg, Apply(cfg, s, l))
  {
    hide Apply, Enabled, Control, AllSound, Stores, Sends, Reads;
    ControlKept(cfg, s, l);
    AllSoundKept(cfg, s, l);
    StoresKept(cfg, s, l);
    SendsKept(cfg, s, l);
    ReadsKept(cfg, s, l);
  }

  /**
   In every schedule, a request that is past the gates, or has been told anything, came with its endpoint's verb,
   from an allowed network, and with the right user and password.
   */
  lemma HandledIsAuthorized(cfg: Config, efi: Store, ls: seq<Move>, s: State, id: nat)
    requires Reaches(cfg, efi, ls, s) && id in s.handlers
    requires (!s.handlers[id].pc.Gates? && !s.handlers[id].pc.Refused?) || s.handlers[id].told.Some?
    ensures var req := s.handlers[id].req;
            && req.verb == (if req.endpoint == Commit then "GET" else "POST")
            && req.remote.Some?
            && (exists i :: 0 <= i < |cfg.localCIDR| && cfg.localCIDR[i].Contains(req.remote.value))
            && req.auth == Some(("example-user", cfg.password))
  {
    hide Gate, Exec, Control, Stores, Sends, Reads, Told, Netmask.IPNet.Contains;
    Invariant(cfg, efi, ls, s);
    assert Sound(cfg, s.handlers[id]);
    GateExactly(cfg, s.handlers[id].req);
  }
}
