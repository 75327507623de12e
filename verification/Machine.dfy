/**
 The provisioning server as a machine of atomic steps: any number of request handlers, the goroutine that
 awaits the commit and shuts the server down, and the goroutine of stprov remote that runs the server and
 then persists the host key (internal/api/server.go, subcmd/remote/run/run.go).

 Assumed of net/http: ListenAndServeTLS returns ErrServerClosed only once Shutdown was called; a Shutdown
 that completes leaves no handler in flight and none can arrive afterwards.
 */
module Machine {
  import opened Base
  import opened Secrets
  import opened Efi
  import opened Handler
  import K = SshKey

  /** What released the awaiting goroutine from its select. */
  datatype Cause = Token | ContextDone | ChannelClosed

  /** The awaiting goroutine: in select, about to call Shutdown, in Shutdown, past it, past wg.Done. */
  datatype Waiter =
    | Selecting
    | Selected(cause: Cause)
    | InShutdown(cause: Cause)
    | AfterShutdown(cause: Cause, complete: bool)
    | WaiterDone(cause: Cause, complete: bool)
  {
    predicate ReleasedBy(c: Cause) {
      !Selecting? && cause == c
    }

    predicate CalledShutdown() {
      InShutdown? || AfterShutdown? || WaiterDone?
    }

    /** A shutdown has completed rather than run out of time. */
    predicate Drained() {
      (AfterShutdown? || WaiterDone?) && complete
    }
  }

  /**
   The goroutine of stprov remote: in ListenAndServeTLS, past it, past close(commit) and in wg.Wait, past Run;
   then holding the secret it read, and done in one of three ways. ok tells ErrServerClosed from a failure,
   readAt counts the secrets stored before the one that was read.
   */
  datatype Main =
    | Serving
    | Returned(ok: bool)
    | InWait(ok: bool)
    | RunReturned(ok: bool)
    | Holding(uds: Option<Bytes32>, readAt: nat)
    | Persisted(key: K.Key, readAt: nat)
    | NilSecret
    | Stopped
  {
    predicate Closed() {
      !Serving? && !Returned?
    }

    predicate AfterRun() {
      Closed() && !InWait?
    }

    /** Run returned nil, or is about to. */
    predicate Succeeded() {
      ((Returned? || InWait? || RunReturned?) && ok) || Holding? || Persisted? || NilSecret?
    }
  }

  /** A store to Server.UDS: by which handler, and mixed from which entropy. */
  datatype Stored = Stored(id: nat, local: Bytes32, ext: Bytes32) {
    function Secret(p: Primitives): Bytes32 {
      UniqueDeviceSecret(p, local, ext)
    }
  }

  /** An authenticated firmware write: by which handler, of which variable, and whether it was accepted. */
  datatype Attempt = Attempt(id: nat, v: Var, accepted: bool)

  /**
   Who has had a turn at memory that is written in several steps: the request that is now writing firmware
   variables, and whether two ever were; the request that is now adding data, the last one that did so to its
   end, and whether one ever started while another was at it.
   */
  datatype Turns = Turns(writer: Option<nat>, overlap: bool, adder: Option<nat>, added: Option<nat>, mixed: bool)

  /** The first group of fields is the program's state, the second records its history. */
  datatype State = State(
    shared: Shared,
    handlers: map<nat, Handler>,
    waiter: Waiter,
    main: Main,
    cancelled: bool,
    wg: int,

    shutdowns: nat,
    receives: nat,
    sent: set<nat>,
    stores: seq<Stored>,
    before: map<nat, set<nat>>,
    attempts: seq<Attempt>,
    turns: Turns)

  /** After wg.Add and the start of the awaiting goroutine. */
  function Init(efi: Store): State {
    State(Shared(Copied(32, []), 0, None, 0, false, efi), map[], Selecting, Serving, false, 1,
          0, 0, {}, [], map[], [], Turns(None, false, None, None, false))
  }

  datatype Move =
    | Arrive(id: nat, req: Request, env: Env)
    | Advance(id: nat)
    | Cancel
    | Select(cause: Cause)
    | CallShutdown
    | ReturnShutdown(complete: bool)
    | WgDone
    | ReturnListener(ok: bool)
    | CloseCommit
    | ReturnWait
    | Confirm(yes: bool)
    | WriteHostKey(ok: bool)

  /** The requests answered OK so far. */
  function Answered(s: State): set<nat> {
    set id | id in s.handlers && s.handlers[id].pc == Finished(OK)
  }

  predicate Enabled(s: State, l: Move) {
    match l
    case Arrive(id, _, _) => id !in s.handlers && !s.waiter.Drained()
    case Advance(id) => id in s.handlers && Runnable(s.shared, s.handlers[id])
    case Cancel => !s.cancelled
    case Select(Token) => s.waiter.Selecting? && s.shared.tokens > 0
    case Select(ContextDone) => s.waiter.Selecting? && s.cancelled
    case Select(ChannelClosed) => s.waiter.Selecting? && s.shared.tokens == 0 && s.shared.closed
    case CallShutdown => s.waiter.Selected?
    case ReturnShutdown(complete) =>
      s.waiter.InShutdown? && (complete ==> forall id :: id in s.handlers ==> s.handlers[id].pc.Terminal())
    case WgDone => s.waiter.AfterShutdown?
    case ReturnListener(ok) => s.main.Serving? && (ok ==> s.waiter.CalledShutdown())
    case CloseCommit => s.main.Returned?
    case ReturnWait => s.main.InWait? && s.wg == 0
    case Confirm(_) => s.main.RunReturned?
    case WriteHostKey(_) => s.main.Holding?
  }

  function Apply(cfg: Config, s: State, l: Move): State
    requires Enabled(s, l)
  {
    match l
    case Arrive(id, req, env) =>
      s.(handlers := s.handlers[id := Handler(req, env, Gates, None)], before := s.before[id := Answered(s)])
    case Advance(id) => Advanced(cfg, s, id)
    case Cancel => s.(cancelled := true)
    case Select(Token) =>
      s.(waiter := Selected(Token), shared := s.shared.(tokens := s.shared.tokens - 1), receives := s.receives + 1)
    case Select(cause) => s.(waiter := Selected(cause))
    case CallShutdown => s.(waiter := InShutdown(s.waiter.cause), shutdowns := s.shutdowns + 1)
    case ReturnShutdown(complete) => s.(waiter := AfterShutdown(s.waiter.cause, complete))
    case WgDone => s.(waiter := WaiterDone(s.waiter.cause, s.waiter.complete), wg := s.wg - 1)
    case ReturnListener(ok) => s.(main := Returned(ok))
    case CloseCommit => s.(main := InWait(s.main.ok), shared := s.shared.(closed := true))
    case ReturnWait => s.(main := RunReturned(s.main.ok))
    case Confirm(yes) => s.(main := if s.main.ok && yes then Holding(s.shared.uds, |s.stores|) else Stopped)
    case WriteHostKey(ok) =>
      s.(main := if s.main.uds == None then NilSecret
                 else if ok then Persisted(HostKey(cfg.primitives, s.main.uds.value), s.main.readAt)
                 else Stopped)
  }

  /** The turns after a step of a handler from h to h'. */
  function Turned(turns: Turns, id: nat, h: Handler, h': Handler): Turns {
    var entering := h.pc.ReadSetupMode? && h'.pc.WriteVar?;
    var copied := h.pc.CopyEntropy? && h'.pc.Finished?;
    Turns(
      if entering then Some(id)
      else if h.pc.WriteVar? && !h'.pc.WriteVar? && turns.writer == Some(id) then None
      else turns.writer,
      turns.overlap || (entering && turns.writer != None),
      if h.pc.StoreTimestamp? then Some(id) else if copied && turns.adder == Some(id) then None else turns.adder,
      if copied then Some(id) else turns.added,
      turns.mixed || (h.pc.StoreTimestamp? && turns.adder != None))
  }

  /** One step of a handler, with what it adds to the history. */
  function Advanced(cfg: Config, s: State, id: nat): State
    requires Enabled(s, Advance(id))
  {
    var h := s.handlers[id];
    var (shared, h') := Step(cfg, s.shared, h);
    s.(shared := shared,
       handlers := s.handlers[id := h'],
       sent := if h.pc.Send? && !s.shared.closed then s.sent + {id} else s.sent,
       stores := if h.pc.StoreUds? then s.stores + [Stored(id, h.pc.local, h.pc.ext)] else s.stores,
       attempts := if h.pc.WriteVar?
                   then s.attempts + [Attempt(id, ORDER[h.pc.k], ORDER[h.pc.k] in h.env.firmware.accepted)]
                   else s.attempts,
       turns := Turned(s.turns, id, h, h'))
  }

  /** The state that a schedule leads to, if each of its steps is enabled when its turn comes. */
  function Exec(cfg: Config, s: State, ls: seq<Move>): Option<State> {
    if ls == [] then Some(s)
    else
      var n := |ls| - 1;
      match Exec(cfg, s, ls[..n])
      case None => None
      case Some(t) => if Enabled(t, ls[n]) then Some(Apply(cfg, t, ls[n])) else None
  }

  /** Reachable from the start, under some schedule. */
  ghost predicate Reaches(cfg: Config, efi: Store, ls: seq<Move>, s: State) {
    Exec(cfg, Init(efi), ls) == Some(s)
  }

  /** A request can arrive until a shutdown has completed. */
  lemma Arrives(cfg: Config, s: State, id: nat, req: Request, env: Env)
    requires id !in s.handlers && !s.waiter.Drained()
    ensures Enabled(s, Arrive(id, req, env))
    ensures Apply(cfg, s, Arrive(id, req, env))
            == s.(handlers := s.handlers[id := Handler(req, env, Gates, None)], before := s.before[id := Answered(s)])
  {
  }

  lemma ExecExtends(cfg: Config, s: State, ls: seq<Move>, l: Move, t: State)
    requires Exec(cfg, s, ls) == Some(t) && Enabled(t, l)
    ensures Exec(cfg, s, ls + [l]) == Some(Apply(cfg, t, l))
  {
    assert (ls + [l])[..|ls|] == ls;
  }

  lemma {:induction false} ExecComposes(cfg: Config, s: State, ls: seq<Move>, t: State, ms: seq<Move>)
    requires Exec(cfg, s, ls) == Some(t)
    ensures Exec(cfg, s, ls + ms) == Exec(cfg, t, ms)
    decreases |ms|
  {
    hide Enabled, Apply;
    if ms == [] {
      assert ls + ms == ls;
    } else {
      var n := |ms| - 1;
      ExecComposes(cfg, s, ls, t, ms[..n]);
      assert (ls + ms)[..|ls| + n] == ls + ms[..n];
      assert (ls + ms)[|ls| + n] == ms[n];
    }
  }
}
