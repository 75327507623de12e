/** End-to-end agreement between one client and the key that stprov remote persists. */
module Agreement {
  import opened Base
  import opened Secrets
  import opened Efi
  import opened Handler
  import opened Machine
  import opened Safety
  import opened Persistence
  import opened Received
  import K = SshKey

  /** A request that the server accepts and that goes on to write Entropy, Timestamp or UDS. */
  predicate ChangesState(cfg: Config, req: Request, env: Env) {
    (Gate(cfg, req) == None && ValidAddData(req)) || CanStore(cfg, req, env)
  }

  /** Request a adds data, request c commits, and no other request that changes the state has arrived. */
  ghost predicate OneClient(cfg: Config, handlers: map<nat, Handler>, a: nat, c: nat) {
    && a != c
    && (a in handlers ==> handlers[a].req.endpoint == AddData)
    && (c in handlers ==> handlers[c].req.endpoint == Commit)
    && forall id :: id in handlers && id != a && id != c ==> !ChangesState(cfg, handlers[id].req, handlers[id].env)
  }

  /** Handler a's part: its bytes are in Entropy as far as it has copied them. */
  predicate Copying(sh: Shared, h: Handler) {
    && (h.pc.CopyEntropy? ==> sh.timestamp == h.pc.timestamp && sh.entropy[..h.pc.i] == h.pc.entropy[..h.pc.i])
    && (h.pc == Finished(OK) && h.req.addData.Some? ==>
          sh.timestamp == h.req.addData.value.timestamp && sh.entropy == h.req.addData.value.entropy)
  }

  /** Handler c's part: what it has read of Entropy is what is in Entropy. */
  predicate Reading(sh: Shared, h: Handler) {
    && (h.pc.ReadEntropy? ==> h.pc.got == sh.entropy[..|h.pc.got|])
    && (h.pc.Respond? || h.pc.StoreUds? || h.pc.Send? ==> h.pc.ext == sh.entropy)
  }

  /** The commit arrived after the data was answered OK. */
  predicate InOrder(s: State, a: nat, c: nat) {
    c in s.before && a in s.before[c]
  }

  ghost predicate Agree(s: State, a: nat, c: nat) {
    && (a in s.handlers ==> Copying(s.shared, s.handlers[a]))
    && (forall st :: st in s.stores ==> st.id == c)
    && (InOrder(s, a, c) ==>
          && a in s.handlers && s.handlers[a].pc == Finished(OK)
          && c in s.handlers && Reading(s.shared, s.handlers[c])
          && forall st :: st in s.stores ==> st.ext == s.shared.entropy)
  }

  /** How a step touches the memory that the client cares about. */
  lemma StepAndMemory(cfg: Config, sh: Shared, h: Handler)
    requires Runnable(sh, h) && Sound(cfg, h)
    ensures var (sh', h') := Step(cfg, sh, h);
            && (!h.pc.StoreTimestamp? ==> sh'.timestamp == sh.timestamp)
            && (!h.pc.CopyEntropy? ==> sh'.entropy == sh.entropy)
            && (h.pc.StoreTimestamp? || h.pc.CopyEntropy? ==> ChangesState(cfg, h.req, h.env) && h.req.endpoint == AddData)
            && (h.pc.StoreUds? ==> ChangesState(cfg, h.req, h.env) && h.req.endpoint == Commit)
  {
    hide Gate, Enrolled, NewIndications, UniqueDeviceSecret, Response, SetupModeOf;
  }

  lemma CopyingKept(cfg: Config, sh: Shared, h: Handler)
    requires Runnable(sh, h) && Sound(cfg, h) && h.req.endpoint == AddData && Copying(sh, h)
    ensures var (sh', h') := Step(cfg, sh, h);
            Copying(sh', h')
  {
    hide Gate, Enrolled, NewIndications, UniqueDeviceSecret, Response, SetupModeOf;
    if h.pc.CopyEntropy? {
      var sh' := Step(cfg, sh, h).0;
      assert sh'.entropy[..h.pc.i + 1] == h.pc.entropy[..h.pc.i + 1];
    }
  }

  lemma ReadingKept(cfg: Config, sh: Shared, h: Handler)
    requires Runnable(sh, h) && Sound(cfg, h) && h.req.endpoint == Commit && Reading(sh, h)
    ensures var (sh', h') := Step(cfg, sh, h);
            Reading(sh', h') && sh'.entropy == sh.entropy
  {
    hide Gate, Enrolled, NewIndications, UniqueDeviceSecret, Response, SetupModeOf;
    if h.pc.ReadEntropy? {
      assert h.pc.got + [sh.entropy[|h.pc.got|]] == sh.entropy[..|h.pc.got| + 1];
    }
  }

  /** A step of a keeps the agreement: it copies, and once it is done it has no further step. */
  lemma AgreeKeptByData(s: State, t: State, a: nat, c: nat, h': Handler)
    requires a != c && a in s.handlers && !s.handlers[a].pc.Terminal() && Agree(s, a, c)
    requires t.handlers == s.handlers[a := h'] && t.stores == s.stores && t.before == s.before
    requires Copying(t.shared, h')
    ensures Agree(t, a, c)
  {
    hide Copying, Reading;
  }

  /** A step of c keeps the agreement: it reads, and stores what it read. */
  lemma AgreeKeptByCommit(s: State, t: State, a: nat, c: nat, h': Handler)
    requires a != c && c in s.handlers && Agree(s, a, c)
    requires t.handlers == s.handlers[c := h'] && t.before == s.before
    requires t.stores == s.stores || exists st :: t.stores == s.stores + [st] && st.id == c
                                                  && (InOrder(s, a, c) ==> st.ext == s.shared.entropy)
    requires t.shared.entropy == s.shared.entropy && t.shared.timestamp == s.shared.timestamp
    requires InOrder(s, a, c) ==> Reading(t.shared, h')
    ensures Agree(t, a, c)
  {
    hide Reading;
  }

  lemma AgreeKeptByAnother(s: State, t: State, id: nat, a: nat, c: nat, h': Handler)
    requires id != a && id != c && id in s.handlers && Agree(s, a, c)
    requires t.handlers == s.handlers[id := h'] && t.stores == s.stores && t.before == s.before
    requires t.shared.entropy == s.shared.entropy && t.shared.timestamp == s.shared.timestamp
    ensures Agree(t, a, c)
  {
  }

  lemma AgreeKeptByAdvance(cfg: Config, s: State, id: nat, a: nat, c: nat)
    requires AllSound(cfg, s) && Enabled(s, Advance(id))
    requires OneClient(cfg, s.handlers, a, c) && Agree(s, a, c)
    ensures Agree(Advanced(cfg, s, id), a, c)
  {
    var h := s.handlers[id];
    var t := Advanced(cfg, s, id);
    StepAndMemory(cfg, s.shared, h);
    if id == a {
      CopyingKept(cfg, s.shared, h);
      hide Step, Sound, ChangesState, Gate;
      AgreeKeptByData(s, t, a, c, Step(cfg, s.shared, h).1);
    } else if id == c {
      if InOrder(s, a, c) {
        ReadingKept(cfg, s.shared, h);
      }
      hide Step, Sound, ChangesState, Gate;
      AgreeKeptByCommit(s, t, a, c, Step(cfg, s.shared, h).1);
    } else {
      hide Step, Sound, ChangesState, Gate;
      AgreeKeptByAnother(s, t, id, a, c, Step(cfg, s.shared, h).1);
    }
  }

  lemma AgreeKept(cfg: Config, s: State, l: Move, a: nat, c: nat)
    requires AllSound(cfg, s) && Enabled(s, l)
    requires OneClient(cfg, Apply(cfg, s, l).handlers, a, c) && Agree(s, a, c)
    requires forall id :: id in s.before <==> id in s.handlers
    requires forall st :: st in s.stores ==> st.id in s.handlers
    ensures Agree(Apply(cfg, s, l), a, c)
  {
    match l {
      case Advance(id) =>
        OneClientBefore(cfg, s, l, a, c);
        AgreeKeptByAdvance(cfg, s, id, a, c);
      case Arrive(id, req, env) =>
        AgreeKeptByArrive(s, id, req, env, a, c);
      case _ =>
        OtherMoves(cfg, s, l);
        hide *;
        AgreeDependsOn(s, Apply(cfg, s, l), a, c);
    }
  }

  lemma AgreeDependsOn(s: State, t: State, a: nat, c: nat)
    requires Agree(s, a, c)
    requires t.handlers == s.handlers && t.stores == s.stores && t.before == s.before
    requires t.shared.entropy == s.shared.entropy && t.shared.timestamp == s.shared.timestamp
    ensures Agree(t, a, c)
  {
  }

  lemma AgreeKeptByArrive(s: State, id: nat, req: Request, env: Env, a: nat, c: nat)
    requires id !in s.handlers && a != c && Agree(s, a, c)
    requires forall j :: j in s.before <==> j in s.handlers
    requires forall st :: st in s.stores ==> st.id in s.handlers
    ensures Agree(s.(handlers := s.handlers[id := Handler(req, env, Gates, None)], before := s.before[id := Answered(s)]), a, c)
  {
  }

  /** Requests are not changed once they have arrived. */
  lemma OneClientBefore(cfg: Config, s: State, l: Move, a: nat, c: nat)
    requires Enabled(s, l) && OneClient(cfg, Apply(cfg, s, l).handlers, a, c)
    ensures OneClient(cfg, s.handlers, a, c)
  {
    HandlersPersist(cfg, s, l);
    hide Enabled, Apply, ChangesState;
  }

  lemma HandlersPersist(cfg: Config, s: State, l: Move)
    requires Enabled(s, l)
    ensures var t := Apply(cfg, s, l);
            forall id :: id in s.handlers ==>
                           id in t.handlers && t.handlers[id].req == s.handlers[id].req && t.handlers[id].env == s.handlers[id].env
  {
    if !l.Arrive? && !l.Advance? {
      OtherMoves(cfg, s, l);
      hide Apply, Enabled;
    }
    hide Step;
  }

  /** Every handler has a record of what had been answered when it arrived. */
  lemma ArrivalsRecorded(cfg: Config, s: State, l: Move)
    requires Enabled(s, l) && s.before.Keys == s.handlers.Keys
    ensures Apply(cfg, s, l).before.Keys == Apply(cfg, s, l).handlers.Keys
  {
    if !l.Arrive? && !l.Advance? {
      OtherMoves(cfg, s, l);
      hide Apply, Enabled;
    }
    hide Step, Answered;
  }

  lemma {:induction false} AgreeAlways(cfg: Config, efi: Store, ls: seq<Move>, s: State, a: nat, c: nat)
    requires Reaches(cfg, efi, ls, s) && OneClient(cfg, s.handlers, a, c)
    ensures Agree(s, a, c) && s.before.Keys == s.handlers.Keys
  {
    hide Apply, Enabled, Agree, OneClient, Control, AllSound, Sends, Reads;
    if ls == [] {
      assert Agree(s, a, c) by {
        AgreeAtStart(efi, a, c);
      }
    } else {
      var n := |ls| - 1;
      var u := Exec(cfg, Init(efi), ls[..n]).value;
      OneClientBefore(cfg, u, ls[n], a, c);
      AgreeAlways(cfg, efi, ls[..n], u, a, c);
      Invariant(cfg, efi, ls[..n], u);
      ArrivalsRecorded(cfg, u, ls[n]);
      AgreeKept(cfg, u, ls[n], a, c);
    }
  }

  lemma AgreeAtStart(efi: Store, a: nat, c: nat)
    ensures Agree(Init(efi), a, c)
  {
  }

  /**
   End-to-end agreement. In every schedule in which request a's data and request c's commit are the only
   accepted requests that change the state, and c arrived after a had been answered OK: when a host key has
   been persisted, the server holds exactly the client's entropy and timestamp; UDS is the one secret ever
   stored, mixed from local entropy followed by the client's; and the public key and fingerprint that the
   client was told belong to the persisted key.
   */
  lemma PersistedKeyIsTheClients(cfg: Config, efi: Store, ls: seq<Move>, s: State, a: nat, c: nat)
    requires Reaches(cfg, efi, ls, s) && s.main.Persisted?
    requires OneClient(cfg, s.handlers, a, c) && InOrder(s, a, c)
    ensures a in s.handlers && c in s.handlers && s.handlers[c].env.local.Some? && s.handlers[a].req.addData.Some?
    ensures s.shared.entropy == s.handlers[a].req.addData.value.entropy
    ensures s.shared.timestamp == s.handlers[a].req.addData.value.timestamp
    ensures var local := s.handlers[c].env.local.value;
            var uds := UniqueDeviceSecret(cfg.primitives, local, s.shared.entropy);
            && s.stores == [Stored(c, local, s.shared.entropy)] && s.shared.uds == Some(uds)
            && (forall i :: 0 <= i < 32 ==>
                              uds[i] == cfg.primitives.hkdf(local + s.shared.entropy, Ascii("1"), Ascii("stprov:uds"))(i))
            && s.main.key == HostKey(cfg.primitives, uds)
            && s.handlers[c].told == Some(Response(cfg.primitives, uds, cfg.hostName))
            && BelongsTo(cfg.primitives, s.handlers[c].told.value, s.main.key)
  {
    hide Gate, UniqueDeviceSecret, Response, HostKey, BelongsTo, K.Encode, K.Decode, ChangesState;
    AgreeAlways(cfg, efi, ls, s, a, c);
    Invariant(cfg, efi, ls, s);
    var st := s.stores[s.main.readAt - 1];
    assert st in s.stores;
    assert Sound(cfg, s.handlers[a]);
    if |s.stores| > 1 {
      TwoStoresDiffer(s.stores, c);
    }
    DerivedKeyReadsBack(cfg.primitives, st.Secret(cfg.primitives), cfg.hostName);
    SecretBytes(cfg.primitives, st.local, st.ext);
  }

  lemma TwoStoresDiffer(stores: seq<Stored>, c: nat)
    requires |stores| > 1 && OnceEach(stores)
    ensures exists st :: st in stores && st.id != c
  {
    assert stores[0] in stores && stores[1] in stores;
    assert stores[0].id != stores[1].id;
  }

  // ----- The order of the client's requests -----

  /** At the k-th move request c arrives, and a has been answered OK. */
  ghost predicate ArrivesAfter(cfg: Config, efi: Store, ls: seq<Move>, k: nat, a: nat, c: nat)
    requires k < |ls|
  {
    ls[k].Arrive? && ls[k].id == c &&
    match Exec(cfg, Init(efi), ls[..k])
    case None => false
    case Some(u) => a in u.handlers && u.handlers[a].pc == Finished(200)
  }

  ghost predicate SomeArrival(cfg: Config, efi: Store, ls: seq<Move>, a: nat, c: nat) {
    exists k :: 0 <= k < |ls| && ArrivesAfter(cfg, efi, ls, k, a, c)
  }

  lemma ArrivalExtends(cfg: Config, efi: Store, ls: seq<Move>, a: nat, c: nat)
    requires ls != []
    ensures SomeArrival(cfg, efi, ls, a, c)
            <==> SomeArrival(cfg, efi, ls[..|ls| - 1], a, c) || ArrivesAfter(cfg, efi, ls, |ls| - 1, a, c)
  {
    var n := |ls| - 1;
    forall k | 0 <= k < n
      ensures ArrivesAfter(cfg, efi, ls[..n], k, a, c) == ArrivesAfter(cfg, efi, ls, k, a, c)
    {
      assert ls[..n][..k] == ls[..k] && ls[..n][k] == ls[k];
      hide Exec;
    }
    hide ArrivesAfter;
    if SomeArrival(cfg, efi, ls[..n], a, c) {
      var k :| 0 <= k < n && ArrivesAfter(cfg, efi, ls[..n], k, a, c);
      assert ArrivesAfter(cfg, efi, ls, k, a, c);
    }
    if SomeArrival(cfg, efi, ls, a, c) && !ArrivesAfter(cfg, efi, ls, n, a, c) {
      var k :| 0 <= k < |ls| && ArrivesAfter(cfg, efi, ls, k, a, c);
      assert ArrivesAfter(cfg, efi, ls[..n], k, a, c);
    }
  }

  /** The record says so exactly when c arrived after a had been answered OK. */
  lemma {:induction false} InOrderExactly(cfg: Config, efi: Store, ls: seq<Move>, s: State, a: nat, c: nat)
    requires Reaches(cfg, efi, ls, s)
    ensures s.before.Keys == s.handlers.Keys
    ensures InOrder(s, a, c) <==> exists k :: 0 <= k < |ls| && ArrivesAfter(cfg, efi, ls, k, a, c)
  {
    if ls != [] {
      var n := |ls| - 1;
      var u := Exec(cfg, Init(efi), ls[..n]).value;
      assert Enabled(u, ls[n]) && s == Apply(cfg, u, ls[n]);
      InOrderExactly(cfg, efi, ls[..n], u, a, c);
      assert ArrivesAfter(cfg, efi, ls, n, a, c) <==> ls[n].Arrive? && ls[n].id == c && a in u.handlers && u.handlers[a].pc == Finished(200);
      ArrivalExtends(cfg, efi, ls, a, c);
      ArrivalsRecorded(cfg, u, ls[n]);
      hide Apply, Exec, ArrivesAfter;
      OrderOfMove(cfg, u, ls[n], a, c);
    }
  }

  lemma OrderOfMove(cfg: Config, s: State, l: Move, a: nat, c: nat)
    requires Enabled(s, l) && s.before.Keys == s.handlers.Keys
    ensures InOrder(Apply(cfg, s, l), a, c)
            <==> || InOrder(s, a, c)
                 || (l.Arrive? && l.id == c && a in s.handlers && s.handlers[a].pc == Finished(200))
  {
    if !l.Advance? && !l.Arrive? {
      OtherMoves(cfg, s, l);
      hide Apply, Enabled;
    }
    hide Step;
  }

  /**
   The honest client's run goes through: from the start, its data is added and its commit made, one after the
   other, the shutdown completes, and the key that it was told is persisted.
   */
  lemma HonestClientSucceeds(cfg: Config, efi: Store, data: Request, commit: Request, env: Env)
    returns (ls: seq<Move>, s: State)
    requires Gate(cfg, data) == None && ValidAddData(data) && CanStore(cfg, commit, env)
    ensures Reaches(cfg, efi, ls, s) && !s.cancelled && s.waiter.Drained() && s.main.Persisted?
    ensures s.handlers.Keys == {1, 2} && OneClient(cfg, s.handlers, 1, 2) && InOrder(s, 1, 2)
    ensures s.handlers[1] == Handler(data, env, Finished(200), None)
    ensures s.handlers[2].req == commit && s.handlers[2].env == env && s.handlers[2].pc == Finished(200)
  {
    hide UniqueDeviceSecret, Response, HostKey, RunAlone, Gate, Enabled, Apply, Exec, Runnable, Answered;
    var s0 := Init(efi);
    Arrives(cfg, s0, 1, data, env);
    var t1 := Apply(cfg, s0, Arrive(1, data, env));
    assert Exec(cfg, s0, []) == Some(s0) by {
      NoMoves(cfg, s0);
    }
    ExecExtends(cfg, s0, [], Arrive(1, data, env), s0);
    AddDataAlone(cfg, t1.shared, data, env);
    var ms1, s1 := AloneIsASchedule(cfg, t1, 1);
    var ls1 := [] + [Arrive(1, data, env)] + ms1;
    ExecComposes(cfg, s0, [] + [Arrive(1, data, env)], t1, ms1);
    Arrives(cfg, s1, 2, commit, env);
    var t2 := Apply(cfg, s1, Arrive(2, commit, env));
    ExecExtends(cfg, s0, ls1, Arrive(2, commit, env), s1);
    CommitAlone(cfg, t2.shared, commit, env);
    var ms2, s2 := AloneIsASchedule(cfg, t2, 2);
    ExecComposes(cfg, s0, ls1 + [Arrive(2, commit, env)], t2, ms2);
    var ms3, s3 := ShutDown(cfg, s2);
    ExecComposes(cfg, s0, ls1 + [Arrive(2, commit, env)] + ms2, s2, ms3);
    ls, s := ls1 + [Arrive(2, commit, env)] + ms2 + ms3, s3;
    assert 1 in Answered(s1) by {
      IsAnswered(s1, 1);
    }
  }

  lemma NoMoves(cfg: Config, s: State)
    ensures Exec(cfg, s, []) == Some(s)
  {
  }

  lemma IsAnswered(s: State, id: nat)
    requires id in s.handlers && s.handlers[id].pc == Finished(OK)
    ensures id in Answered(s)
  {
  }

  // ----- Why the commit must wait for the data -----

  /**
   A commit that overlaps the copying of the data reads part of it: the client's two requests are then answered
   OK, and the server ends with its data, but the persisted secret was mixed from the first byte only.
   */
  lemma OverlappingCommitReadsPart(cfg: Config, efi: Store, data: Request, commit: Request, env: Env)
    returns (ls: seq<Move>, s: State)
    requires Gate(cfg, data) == None && ValidAddData(data) && CanStore(cfg, commit, env)
    requires data.addData.value.entropy[1..] != Copied(32, [])[1..]
    ensures Reaches(cfg, efi, ls, s) && !s.cancelled && s.waiter.Drained()
    ensures s.handlers.Keys == {1, 2} && OneClient(cfg, s.handlers, 1, 2)
    ensures s.handlers[1].pc == Finished(OK) && s.handlers[2].pc == Finished(OK)
    ensures s.shared.entropy == data.addData.value.entropy
    ensures var p, part := cfg.primitives, [data.addData.value.entropy[0]] + Copied(32, [])[1..];
            && part != s.shared.entropy
            && s.main.Persisted? && s.main.key == HostKey(p, UniqueDeviceSecret(p, env.local.value, part))
  {
    hide UniqueDeviceSecret, Response, HostKey, RunAlone, Gate, Enabled, Apply, Exec, Runnable, Answered;
    var ls1, s1 := FirstByte(cfg, efi, data, env);
    Arrives(cfg, s1, 2, commit, env);
    var t := Apply(cfg, s1, Arrive(2, commit, env));
    ExecExtends(cfg, Init(efi), ls1, Arrive(2, commit, env), s1);
    CommitAlone(cfg, t.shared, commit, env);
    var ms2, s2 := AloneIsASchedule(cfg, t, 2);
    var ls2 := ls1 + [Arrive(2, commit, env)] + ms2;
    ExecComposes(cfg, Init(efi), ls1 + [Arrive(2, commit, env)], t, ms2);
    CopyAlone(cfg, s2.shared, s2.handlers[1]);
    var ms3, s3 := AloneIsASchedule(cfg, s2, 1);
    ExecComposes(cfg, Init(efi), ls2, s2, ms3);
    var ms4, s4 := ShutDown(cfg, s3);
    ExecComposes(cfg, Init(efi), ls2 + ms3, s3, ms4);
    ls, s := ls2 + ms3 + ms4, s4;
    var part := [data.addData.value.entropy[0]] + Copied(32, [])[1..];
    assert part[1..] == Copied(32, [])[1..];
  }

  /** From a buffered token and no handler in flight: shutdown and persistence. */
  lemma ShutDown(cfg: Config, s0: State) returns (ms: seq<Move>, s: State)
    requires s0.waiter == Selecting && s0.main == Serving && s0.wg == 1
    requires s0.shared.tokens == 1 && s0.shared.uds.Some?
    requires forall id :: id in s0.handlers ==> s0.handlers[id].pc.Terminal()
    ensures Exec(cfg, s0, ms) == Some(s)
    ensures s.handlers == s0.handlers && s.cancelled == s0.cancelled && s.shared.entropy == s0.shared.entropy
    ensures s.before == s0.before
    ensures s.waiter.Drained() && s.main.Persisted? && s.main.key == HostKey(cfg.primitives, s0.shared.uds.value)
  {
    hide HostKey;
    var s1 := Apply(cfg, s0, Select(Token));
    ExecExtends(cfg, s0, [], Select(Token), s0);
    var ms2, s2 := ToClosed(cfg, s1);
    ExecComposes(cfg, s0, [] + [Select(Token)], s1, ms2);
    var ms3, s3 := ToPersisted(cfg, s2);
    ExecComposes(cfg, s0, [] + [Select(Token)] + ms2, s2, ms3);
    ms, s := [] + [Select(Token)] + ms2 + ms3, s3;
  }
}
