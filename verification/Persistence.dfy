/** What stprov remote persists after a run of the server, and when it differs from what a client was told. */
module Persistence {
  import opened Base
  import opened Secrets
  import opened Efi
  import opened Handler
  import opened Machine
  import opened Safety
  import K = SshKey

  // ----- Safety of the secret that Run leaves behind -----

  /**
   If Run returns nil and its context has not been cancelled until then, UDS is set, by a commit that passed
   the gates, had told its client about it, and completed its send. Whatever happens afterwards, the context's
   cancellation included, a secret is then held and no host key is derived from a nil one.
   */
  lemma SuccessfulRunLeavesSecret(cfg: Config, efi: Store, ls: seq<Move>, s: State, ms: seq<Move>, t: State)
    requires Reaches(cfg, efi, ls, s) && s.main == RunReturned(true) && !s.cancelled
    requires Exec(cfg, s, ms) == Some(t)
    ensures s.shared.uds.Some? && s.receives == 1
    ensures exists id :: id in s.sent && HasStored(s.stores, id) && id in s.handlers && Gate(cfg, s.handlers[id].req) == None
    ensures t.main != NilSecret && (t.main.Holding? ==> t.main.uds.Some?)
  {
    hide Exec, Gate, UniqueDeviceSecret, Response, AllBacked, AllRecorded;
    Invariant(cfg, efi, ls, s);
    assert s.waiter.ReleasedBy(Token);
    TokenMeansStored(cfg, s);
    var id :| id in s.sent && HasStored(s.stores, id);
    assert Sound(cfg, s.handlers[id]);
    ExecComposes(cfg, Init(efi), ls, s, ms);
    Invariant(cfg, efi, ls + ms, t);
    WaiterRests(cfg, s, ms, t);
  }

  /** The awaiting goroutine does nothing after its callback. */
  lemma {:induction false} WaiterRests(cfg: Config, s: State, ms: seq<Move>, t: State)
    requires s.waiter.WaiterDone? && Exec(cfg, s, ms) == Some(t)
    ensures t.waiter == s.waiter
    decreases |ms|
  {
    hide Step, HostKey, Answered;
    if ms != [] {
      WaiterRests(cfg, s, ms[..|ms| - 1], Exec(cfg, s, ms[..|ms| - 1]).value);
    }
  }

  /** In any schedule, no secret is missing but after the cancellation released await, and no commit had stored. */
  lemma MissingSecretExactly(cfg: Config, efi: Store, ls: seq<Move>, s: State)
    requires Reaches(cfg, efi, ls, s)
    ensures s.main == NilSecret ==> s.waiter.ReleasedBy(ContextDone)
    ensures s.main.Holding? ==>
              && (s.main.uds == None <==> s.main.readAt == 0)
              && (s.main.uds == None ==> s.waiter.ReleasedBy(ContextDone))
  {
    hide Exec, AllSound, Sends, AllBacked, AllRecorded, UniqueDeviceSecret, HostKey;
    Invariant(cfg, efi, ls, s);
  }

  /** After a cancellation Run can return nil with no secret, which then crashes the derivation of the host key. */
  lemma CancelledRunCanLeaveNone(cfg: Config, efi: Store) returns (ls: seq<Move>, s: State)
    ensures Reaches(cfg, efi, ls, s) && s.main == NilSecret && s.handlers == map[] && s.waiter.ReleasedBy(ContextDone)
  {
    var s0 := Init(efi);
    var s1 := s0.(cancelled := true);
    var s2 := s1.(waiter := Selected(ContextDone));
    assert Exec(cfg, s0, [Cancel, Select(ContextDone)]) == Some(s2) by {
      ExecExtends(cfg, s0, [], Cancel, s0);
      ExecExtends(cfg, s0, [Cancel], Select(ContextDone), s1);
      assert [] + [Cancel] == [Cancel] && [Cancel] + [Select(ContextDone)] == [Cancel, Select(ContextDone)];
    }
    hide Exec;
    var ms3, s3 := ToClosed(cfg, s2);
    ExecComposes(cfg, s0, [Cancel, Select(ContextDone)], s2, ms3);
    var ms4, s4 := ToPersisted(cfg, s3);
    ExecComposes(cfg, s0, [Cancel, Select(ContextDone)] + ms3, s3, ms4);
    ls, s := [Cancel, Select(ContextDone)] + ms3 + ms4, s4;
  }

  /** Calling Shutdown, the listener's return and the closing of the channel. */
  lemma ToClosed(cfg: Config, s0: State) returns (ms: seq<Move>, s: State)
    requires s0.waiter.Selected? && s0.main == Serving
    ensures Exec(cfg, s0, ms) == Some(s)
    ensures s == s0.(waiter := InShutdown(s0.waiter.cause), shutdowns := s0.shutdowns + 1, main := InWait(true),
                     shared := s0.shared.(closed := true))
  {
    var s1 := s0.(waiter := InShutdown(s0.waiter.cause), shutdowns := s0.shutdowns + 1);
    var s2 := s1.(main := Returned(true));
    s := s2.(main := InWait(true), shared := s0.shared.(closed := true));
    ms := [];
    assert Exec(cfg, s0, ms) == Some(s0);
    hide Exec, Advanced, Answered, Step;
    ExecExtends(cfg, s0, ms, CallShutdown, s0);
    ms := ms + [CallShutdown];
    ExecExtends(cfg, s0, ms, ReturnListener(true), s1);
    ms := ms + [ReturnListener(true)];
    ExecExtends(cfg, s0, ms, CloseCommit, s2);
    ms := ms + [CloseCommit];
  }

  /** A shutdown that completes, the return of Run, and what is done with the secret. */
  lemma ToPersisted(cfg: Config, s0: State) returns (ms: seq<Move>, s: State)
    requires s0.waiter.InShutdown? && s0.main == InWait(true) && s0.wg == 1
    requires forall id :: id in s0.handlers ==> s0.handlers[id].pc.Terminal()
    ensures Exec(cfg, s0, ms) == Some(s)
    ensures s == s0.(waiter := WaiterDone(s0.waiter.cause, true), wg := 0,
                     main := if s0.shared.uds == None then NilSecret
                             else Persisted(HostKey(cfg.primitives, s0.shared.uds.value), |s0.stores|))
  {
    hide HostKey;
    var s1 := s0.(waiter := AfterShutdown(s0.waiter.cause, true));
    var s2 := s1.(waiter := WaiterDone(s0.waiter.cause, true), wg := 0);
    var s3 := s2.(main := RunReturned(true));
    var s4 := s3.(main := Holding(s0.shared.uds, |s0.stores|));
    ms := [];
    assert Exec(cfg, s0, ms) == Some(s0);
    hide Exec, Advanced, Answered, Step;
    ExecExtends(cfg, s0, ms, ReturnShutdown(true), s0);
    ms := ms + [ReturnShutdown(true)];
    ExecExtends(cfg, s0, ms, WgDone, s1);
    ms := ms + [WgDone];
    ExecExtends(cfg, s0, ms, ReturnWait, s2);
    ms := ms + [ReturnWait];
    ExecExtends(cfg, s0, ms, Confirm(true), s3);
    ms := ms + [Confirm(true)];
    s := Apply(cfg, s4, WriteHostKey(true));
    ExecExtends(cfg, s0, ms, WriteHostKey(true), s4);
    ms := ms + [WriteHostKey(true)];
  }

  // ----- Which key is persisted -----

  /**
   Whatever the schedule, a persisted key is the host key of the secret of the last commit to have stored
   before it was read; that commit's client had been told the public half of that very key; and what is
   written reads back as the key. A completed shutdown makes it the last commit to store at all.
   */
  lemma PersistedKeyWasTold(cfg: Config, efi: Store, ls: seq<Move>, s: State)
    requires Reaches(cfg, efi, ls, s) && s.main.Persisted?
    ensures 0 < s.main.readAt <= |s.stores|
    ensures var st := s.stores[s.main.readAt - 1];
            && s.main.key == HostKey(cfg.primitives, st.Secret(cfg.primitives))
            && st.id in s.handlers && s.handlers[st.id].told.Some?
            && BelongsTo(cfg.primitives, s.handlers[st.id].told.value, s.main.key)
            && K.Decode(K.Encode(s.main.key)) == Ok(s.main.key)
    ensures s.waiter.Drained() ==> s.main.readAt == |s.stores|
  {
    hide Gate, UniqueDeviceSecret, Response, HostKey, BelongsTo, K.Encode, K.Decode;
    Invariant(cfg, efi, ls, s);
    var st := s.stores[s.main.readAt - 1];
    assert st in s.stores;
    DerivedKeyReadsBack(cfg.primitives, st.Secret(cfg.primitives), cfg.hostName);
  }

  /** An accepted commit that gets its random bytes and can write its response: it goes on to store a secret. */
  predicate CanStore(cfg: Config, req: Request, env: Env) {
    Gate(cfg, req) == None && req.endpoint == Commit && env.local.Some? && env.writable
  }

  /**
   With one such commit, and any number of other requests in any order, a persisted key is the one that its
   client was told.
   */
  lemma OnlyCommitIsTold(cfg: Config, efi: Store, ls: seq<Move>, s: State, c: nat)
    requires Reaches(cfg, efi, ls, s) && s.main.Persisted?
    requires forall id :: id in s.handlers && id != c ==> !CanStore(cfg, s.handlers[id].req, s.handlers[id].env)
    ensures c in s.handlers && s.handlers[c].told.Some?
    ensures BelongsTo(cfg.primitives, s.handlers[c].told.value, s.main.key)
  {
    hide Gate, UniqueDeviceSecret, Response, HostKey, BelongsTo, Exec;
    Invariant(cfg, efi, ls, s);
    PersistedKeyWasTold(cfg, efi, ls, s);
    var st := s.stores[s.main.readAt - 1];
    assert st in s.stores && BackedBy(cfg, s.handlers[st.id], st) && Sound(cfg, s.handlers[st.id]);
  }

  // ----- The commit channel -----

  /** Sends are conserved: each was received or is buffered; and at most two commits ever complete one. */
  lemma TokensAreConserved(cfg: Config, efi: Store, ls: seq<Move>, s: State)
    requires Reaches(cfg, efi, ls, s)
    ensures |s.sent| == s.receives + s.shared.tokens <= 2
    ensures s.receives <= 1 && s.shared.tokens <= 1
    ensures forall id :: id in s.handlers && s.handlers[id].req.endpoint == Commit && s.handlers[id].pc.Finished?
                         <==> id in s.sent
  {
    hide Gate, UniqueDeviceSecret, Response;
    Invariant(cfg, efi, ls, s);
  }

  /**
   The first commit to reach its send never blocks; it meets a closed channel exactly when Run has closed it,
   which takes a cancellation or a failed listener.
   */
  lemma FirstSendGoesThrough(cfg: Config, efi: Store, ls: seq<Move>, s: State, id: nat)
    requires Reaches(cfg, efi, ls, s)
    requires id in s.handlers && s.handlers[id].pc.Send? && s.sent == {}
    ensures Enabled(s, Advance(id))
    ensures Advanced(cfg, s, id).handlers[id].pc == (if s.main.Closed() then Panicked else Finished(OK))
    ensures s.main.Closed() ==> s.cancelled || !s.main.Succeeded()
  {
    hide Exec, Stores, Sends, Reads, AllSound, Step, Init, Enabled, Advanced;
    Invariant(cfg, efi, ls, s);
    assert |s.sent| == 0;
    SendStep(cfg, s, id);
  }

  lemma SendStep(cfg: Config, s: State, id: nat)
    requires id in s.handlers && s.handlers[id].pc.Send? && (s.shared.closed || s.shared.tokens == 0)
    ensures Enabled(s, Advance(id))
    ensures Advanced(cfg, s, id).handlers[id].pc == (if s.shared.closed then Panicked else Finished(OK))
  {
    hide Gate, UniqueDeviceSecret, Response, Dispatch, AfterSetupMode, NewIndications;
  }

  /** The callback of await runs at most once, and exactly once by the time Run returns. */
  lemma ShutdownIsCalledOnce(cfg: Config, efi: Store, ls: seq<Move>, s: State)
    requires Reaches(cfg, efi, ls, s)
    ensures s.shutdowns <= 1 && 0 <= s.wg <= 1
    ensures s.main.AfterRun() ==> s.shutdowns == 1 && s.wg == 0 && s.shared.closed
  {
    Invariant(cfg, efi, ls, s);
  }

  // ----- A client can be told a key that is not persisted -----

  /** A handler run alone is one of the machine's schedules. */
  lemma {:induction false} AloneIsASchedule(cfg: Config, s: State, id: nat) returns (ms: seq<Move>, t: State)
    requires id in s.handlers
    ensures Exec(cfg, s, ms) == Some(t)
    ensures t.handlers.Keys == s.handlers.Keys
    ensures (t.shared, t.handlers[id]) == RunAlone(cfg, s.shared, s.handlers[id])
    ensures forall j :: j in s.handlers && j != id ==> t.handlers[j] == s.handlers[j]
    ensures t.waiter == s.waiter && t.main == s.main && t.cancelled == s.cancelled && t.wg == s.wg
    ensures t.before == s.before
    decreases s.handlers[id].pc.Weight()
  {
    hide Step;
    if Runnable(s.shared, s.handlers[id]) {
      var s1 := Advanced(cfg, s, id);
      var ms1;
      ms1, t := AloneIsASchedule(cfg, s1, id);
      ms := [Advance(id)] + ms1;
      ExecExtends(cfg, s, [], Advance(id), s);
      assert [] + [Advance(id)] == [Advance(id)];
      ExecComposes(cfg, s, [Advance(id)], s1, ms1);
    } else {
      ms, t := [], s;
    }
  }

  /**
   With two such commits, the client that is answered OK holds a key other than the persisted one, whenever
   their secrets have different public keys, although the context is not cancelled, the listener does not fail
   and the shutdown completes: the second commit stores its secret, is caught at its send by the closing of
   the channel, and its client gets no answer.
   */
  lemma AnsweredClientCanHoldOtherKey(cfg: Config, efi: Store, req: Request, env1: Env, env2: Env)
    returns (ls: seq<Move>, s: State)
    requires CanStore(cfg, req, env1) && CanStore(cfg, req, env2)
    requires var p, zeros := cfg.primitives, Copied(32, []);
             Response(p, UniqueDeviceSecret(p, env1.local.value, zeros), cfg.hostName).publicKey
             != Response(p, UniqueDeviceSecret(p, env2.local.value, zeros), cfg.hostName).publicKey
    ensures Reaches(cfg, efi, ls, s) && !s.cancelled && s.waiter.Drained()
    ensures s.main.Persisted? && 1 in s.handlers && s.handlers[1].pc == Finished(OK) && s.handlers[1].told.Some?
    ensures !BelongsTo(cfg.primitives, s.handlers[1].told.value, s.main.key)
    ensures var p, zeros := cfg.primitives, Copied(32, []);
            && s.handlers.Keys == {1, 2} && s.handlers[1].pc == Finished(OK) && s.handlers[2].pc == Panicked
            && s.handlers[1].told == Some(Response(p, UniqueDeviceSecret(p, env1.local.value, zeros), cfg.hostName))
            && s.main.Persisted? && s.main.key == HostKey(p, UniqueDeviceSecret(p, env2.local.value, zeros))
  {
    hide UniqueDeviceSecret, Response, HostKey, RunAlone, Gate;
    var ls1, s1 := OneCommit(cfg, efi, req, env1);
    var t := Apply(cfg, s1, Arrive(2, req, env2));
    ExecExtends(cfg, Init(efi), ls1, Arrive(2, req, env2), s1);
    CommitAlone(cfg, t.shared, req, env2);
    var ms2, s2 := AloneIsASchedule(cfg, t, 2);
    var ls2 := ls1 + [Arrive(2, req, env2)] + ms2;
    ExecComposes(cfg, Init(efi), ls1 + [Arrive(2, req, env2)], t, ms2);
    var ms, s' := WindDown(cfg, s2, 2);
    ExecComposes(cfg, Init(efi), ls2, s2, ms);
    ls, s := ls2 + ms, s';
    BelongsToSamePublicKey(cfg.primitives, s.handlers[1].told.value,
                           UniqueDeviceSecret(cfg.primitives, env2.local.value, Copied(32, [])), cfg.hostName);
  }

  lemma OneCommit(cfg: Config, efi: Store, req: Request, env: Env) returns (ls: seq<Move>, s: State)
    requires Gate(cfg, req) == None && req.endpoint == Commit && env.local.Some? && env.writable
    ensures Reaches(cfg, efi, ls, s)
    ensures var p, zeros := cfg.primitives, Copied(32, []);
            && s.handlers.Keys == {1} && s.handlers[1].pc == Finished(OK)
            && s.handlers[1].told == Some(Response(p, UniqueDeviceSecret(p, env.local.value, zeros), cfg.hostName))
            && s.shared.tokens == 1 && !s.shared.closed && s.shared.entropy == zeros
            && s.waiter == Selecting && s.main == Serving && !s.cancelled && s.wg == 1
  {
    hide UniqueDeviceSecret, Response, HostKey, RunAlone, Gate;
    var s0 := Init(efi);
    var t := Apply(cfg, s0, Arrive(1, req, env));
    ExecExtends(cfg, s0, [], Arrive(1, req, env), s0);
    CommitAlone(cfg, t.shared, req, env);
    var ms;
    ms, s := AloneIsASchedule(cfg, t, 1);
    ls := [] + [Arrive(1, req, env)] + ms;
    ExecComposes(cfg, s0, [] + [Arrive(1, req, env)], t, ms);
  }

  /** From a buffered token and one commit waiting to send: shutdown, the panic of that commit, and persistence. */
  lemma WindDown(cfg: Config, s0: State, id: nat) returns (ms: seq<Move>, s: State)
    requires s0.waiter == Selecting && s0.main == Serving && s0.wg == 1
    requires s0.shared.tokens == 1 && s0.shared.uds.Some?
    requires id in s0.handlers && s0.handlers[id].pc.Send?
    requires forall j :: j in s0.handlers && j != id ==> s0.handlers[j].pc.Terminal()
    ensures Exec(cfg, s0, ms) == Some(s)
    ensures s.handlers == s0.handlers[id := s0.handlers[id].(pc := Panicked)] && s.cancelled == s0.cancelled
    ensures s.waiter.Drained() && s.main.Persisted? && s.main.key == HostKey(cfg.primitives, s0.shared.uds.value)
  {
    hide UniqueDeviceSecret, Response, HostKey, Gate;
    var s1 := Apply(cfg, s0, Select(Token));
    ExecExtends(cfg, s0, [], Select(Token), s0);
    var ms2, s2 := ToClosed(cfg, s1);
    ExecComposes(cfg, s0, [] + [Select(Token)], s1, ms2);
    var ms3 := [] + [Select(Token)] + ms2;
    var s3 := Apply(cfg, s2, Advance(id));
    assert s3.handlers == s0.handlers[id := s0.handlers[id].(pc := Panicked)] && s3.shared == s2.shared;
    hide Exec, Step;
    ExecExtends(cfg, s0, ms3, Advance(id), s2);
    var ms4, s4 := ToPersisted(cfg, s3);
    ExecComposes(cfg, s0, ms3 + [Advance(id)], s3, ms4);
    ms, s := ms3 + [Advance(id)] + ms4, s4;
  }
}
