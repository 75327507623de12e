/** Secure Boot provisioning over whole schedules: the order of the writes, and that only one request writes. */
module SecureBoot {
  import opened Base
  import opened Secrets
  import opened Efi
  import opened Handler
  import opened Machine
  import opened Safety

  /** The variables that the firmware accepted, in the order of the writes. */
  function Written(attempts: seq<Attempt>): seq<Var> {
    if attempts == [] then []
    else
      var n := |attempts| - 1;
      Written(attempts[..n]) + if attempts[n].accepted then [attempts[n].v] else []
  }

  /** The request that took the platform out of setup mode. */
  function Owner(attempts: seq<Attempt>): Option<nat> {
    if attempts == [] then None
    else
      var n := |attempts| - 1;
      if Owner(attempts[..n]).Some? then Owner(attempts[..n])
      else if attempts[n].v == PK && attempts[n].accepted then Some(attempts[n].id) else None
  }

  /** After PK was accepted, all attempts are by the request that wrote it. */
  predicate OnlyOwnerWrites(attempts: seq<Attempt>) {
    forall i, j :: 0 <= i < j < |attempts| && attempts[i].v == PK && attempts[i].accepted ==> attempts[j].id == attempts[i].id
  }

  /** Every request can read the setup mode, and none started to write before an earlier one had stopped. */
  ghost predicate TakingTurns(s: State) {
    && !s.turns.overlap
    && forall id :: id in s.handlers ==> s.handlers[id].env.firmware.setupModeReadable
  }

  predicate Provisioning(h: Handler) {
    h.pc.WriteVar?
  }

  /** The handler has provisioned all variables of its request. */
  predicate Done(h: Handler) {
    && h.req.endpoint == AddSecureBoot && h.req.secureBoot.Some?
    && (h.pc == Finished(OK) || h.pc == ReadIndications(OK) || (h.pc.WriteIndications? && h.pc.code == OK))
  }

  /** The attempts of one request cover its first n variables, and the store holds its blobs. */
  ghost predicate Holds(attempts: seq<Attempt>, efi: Store, id: nat, blobs: Blobs, n: nat)
    requires n <= 4
  {
    forall k :: 0 <= k < n ==>
                  && Attempt(id, ORDER[k], true) in attempts
                  && ORDER[k] in efi && efi[ORDER[k]] == blobs.Data(k)
  }

  /** The order of writes: a prefix, in setup mode exactly while it is empty, all after PK by PK's writer. */
  ghost predicate InTurn(attempts: seq<Attempt>, efi: Store) {
    && Written(attempts) <= ORDER
    && SetupModeOf(efi, true) == Some(Written(attempts) == [])
    && (Owner(attempts) == None <==> Written(attempts) == [])
    && forall j :: 0 <= j < |attempts| && Owner(attempts[..j]).Some? ==> attempts[j].id == Owner(attempts[..j]).value
  }

  /** The one provisioning handler is where the writes are. */
  ghost predicate Writing(attempts: seq<Attempt>, efi: Store, writer: Option<nat>, id: nat, h: Handler)
    requires Provisioning(h)
  {
    && writer == Some(id) && h.pc.k == |Written(attempts)|
    && (h.pc.k > 0 ==> Owner(attempts) == Some(id))
    && Holds(attempts, efi, id, h.pc.request.blobs, h.pc.k)
  }

  ghost predicate HasWritten(attempts: seq<Attempt>, efi: Store, id: nat, h: Handler)
    requires Done(h)
  {
    var blobs := h.req.secureBoot.value.blobs;
    Owner(attempts) == Some(id) && Holds(attempts, efi, id, blobs, blobs.Count())
  }

  ghost predicate WriterIsProvisioning(writer: Option<nat>, handlers: map<nat, Handler>) {
    writer.Some? ==> writer.value in handlers && Provisioning(handlers[writer.value])
  }

  ghost predicate AllWriting(attempts: seq<Attempt>, efi: Store, writer: Option<nat>, handlers: map<nat, Handler>) {
    forall id :: id in handlers && Provisioning(handlers[id]) ==> Writing(attempts, efi, writer, id, handlers[id])
  }

  ghost predicate AllHaveWritten(attempts: seq<Attempt>, efi: Store, handlers: map<nat, Handler>) {
    forall id :: id in handlers && Done(handlers[id]) ==> HasWritten(attempts, efi, id, handlers[id])
  }

  ghost predicate Turns(s: State) {
    && InTurn(s.attempts, s.shared.efi)
    && WriterIsProvisioning(s.turns.writer, s.handlers)
    && AllWriting(s.attempts, s.shared.efi, s.turns.writer, s.handlers)
    && AllHaveWritten(s.attempts, s.shared.efi, s.handlers)
  }

  lemma Last(attempts: seq<Attempt>, x: Attempt)
    ensures Written(attempts + [x]) == Written(attempts) + if x.accepted then [x.v] else []
    ensures Owner(attempts + [x]) == if Owner(attempts).Some? then Owner(attempts)
                                     else if x.v == PK && x.accepted then Some(x.id) else None
  {
    assert (attempts + [x])[..|attempts|] == attempts;
  }

  /** The next variable in turn: the prefix grows, and PK ends setup mode. */
  lemma PrefixGrows(written: seq<Var>, efi: Store, k: VarIndex, data: seq<Byte>)
    requires written <= ORDER && k == |written|
    requires SetupModeOf(efi, true) == Some(written == [])
    ensures written + [ORDER[k]] <= ORDER
    ensures SetupModeOf(Enrolled(efi, ORDER[k], data), true) == Some(false)
  {
    assert written == ORDER[..k];
    assert written + [ORDER[k]] == ORDER[..k + 1];
  }

  /** An attempt by the handler whose turn it is keeps the order. */
  lemma InTurnKept(attempts: seq<Attempt>, efi: Store, id: nat, k: VarIndex, data: seq<Byte>, accepted: bool)
    requires InTurn(attempts, efi) && k == |Written(attempts)| && (k > 0 ==> Owner(attempts) == Some(id))
    ensures var attempts' := attempts + [Attempt(id, ORDER[k], accepted)];
            && InTurn(attempts', if accepted then Enrolled(efi, ORDER[k], data) else efi)
            && |Written(attempts')| == (if accepted then k + 1 else k)
            && Owner(attempts') == (if accepted then Some(id) else Owner(attempts))
  {
    var x := Attempt(id, ORDER[k], accepted);
    var attempts' := attempts + [x];
    Last(attempts, x);
    PrefixGrows(Written(attempts), efi, k, data);
    assert k == 0 ==> ORDER[k] == PK;
    hide Written, Owner, SetupModeOf, Enrolled, ORDER;
    forall j | 0 <= j < |attempts'| && Owner(attempts'[..j]).Some?
      ensures attempts'[j].id == Owner(attempts'[..j]).value
    {
      assert attempts'[..j] == attempts[..j];
      assert attempts[..|attempts|] == attempts;
    }
  }

  /** What is held stays held when further variables are written. */
  lemma HoldsKept(attempts: seq<Attempt>, efi: Store, id: nat, blobs: Blobs, k: VarIndex, accepted: bool)
    requires Holds(attempts, efi, id, blobs, k)
    ensures var attempts' := attempts + [Attempt(id, ORDER[k], accepted)];
            if accepted then Holds(attempts', Enrolled(efi, ORDER[k], blobs.Data(k)), id, blobs, k + 1)
            else Holds(attempts', efi, id, blobs, k)
  {
    var x := Attempt(id, ORDER[k], accepted);
    assert x in attempts + [x];
  }

  /** While a handler has its turn, no other has had one to the end. */
  lemma NoOtherIsDone(attempts: seq<Attempt>, efi: Store, writer: Option<nat>, handlers: map<nat, Handler>, id: nat)
    requires InTurn(attempts, efi) && AllHaveWritten(attempts, efi, handlers)
    requires id in handlers && Provisioning(handlers[id]) && Writing(attempts, efi, writer, id, handlers[id])
    ensures forall j :: j in handlers && Done(handlers[j]) ==> j == id
  {
    hide Written, Owner, Holds;
  }

  /** The state after a write by the handler whose turn it is. */
  lemma TurnsAfterWrite(s: State, t: State, id: nat, h': Handler, accepted: bool)
    requires Turns(s) && id in s.handlers && Provisioning(s.handlers[id])
    requires var pc := s.handlers[id].pc;
             && pc.k < pc.request.blobs.Count() && s.handlers[id].req.secureBoot == Some(pc.request)
             && t.handlers == s.handlers[id := h'] && h'.req == s.handlers[id].req
             && t.attempts == s.attempts + [Attempt(id, ORDER[pc.k], accepted)]
             && t.shared.efi == (if accepted then Enrolled(s.shared.efi, ORDER[pc.k], pc.request.blobs.Data(pc.k))
                                 else s.shared.efi)
             && t.turns.writer == (if h'.pc.WriteVar? then Some(id) else None)
             && (h'.pc.WriteVar? ==> accepted && h'.pc.request == pc.request && h'.pc.k == pc.k + 1)
             && (Done(h') ==> accepted && pc.k + 1 == pc.request.blobs.Count())
    ensures Turns(t)
  {
    var h := s.handlers[id];
    assert Writing(s.attempts, s.shared.efi, s.turns.writer, id, h);
    InTurnKept(s.attempts, s.shared.efi, id, h.pc.k, h.pc.request.blobs.Data(h.pc.k), accepted);
    HoldsKept(s.attempts, s.shared.efi, id, h.pc.request.blobs, h.pc.k, accepted);
    NoOtherIsDone(s.attempts, s.shared.efi, s.turns.writer, s.handlers, id);
    hide InTurn, Written, Owner, Holds, Enrolled, ORDER;
    assert AllHaveWritten(t.attempts, t.shared.efi, t.handlers) by {
      forall j | j in t.handlers && Done(t.handlers[j])
        ensures HasWritten(t.attempts, t.shared.efi, j, t.handlers[j])
      {
        assert j == id;
      }
    }
    assert forall j :: j in s.handlers && Provisioning(s.handlers[j]) ==> j == id;
  }

  lemma TurnsKeptByWrite(cfg: Config, s: State, id: nat)
    requires AllSound(cfg, s) && Turns(s) && Enabled(s, Advance(id)) && s.handlers[id].pc.WriteVar?
    ensures Turns(Advanced(cfg, s, id))
  {
    var h := s.handlers[id];
    var t := Advanced(cfg, s, id);
    var h' := Step(cfg, s.shared, h).1;
    var accepted := ORDER[h.pc.k] in h.env.firmware.accepted;
    assert Sound(cfg, h);
    assert s.turns.writer == Some(id) by {
      assert Writing(s.attempts, s.shared.efi, s.turns.writer, id, h);
    }
    assert t.handlers == s.handlers[id := h'];
    hide Turns, Gate, ORDER, Enrolled, AllSound, Owner, Written;
    TurnsAfterWrite(s, t, id, h', accepted);
  }

  // ----- Every other step -----

  /** Steps other than writes leave the order of variables alone, and no handler gets done by them. */
  lemma StepBesidesWrites(cfg: Config, sh: Shared, h: Handler)
    requires Runnable(sh, h) && Sound(cfg, h) && !h.pc.WriteVar?
    ensures var (sh', h') := Step(cfg, sh, h);
            && (sh'.efi == sh.efi || (OsIndications in sh'.efi && sh'.efi == sh.efi[OsIndications := sh'.efi[OsIndications]]))
            && (Done(h') ==> Done(h))
            && (h'.pc.WriteVar? ==> h.pc.ReadSetupMode? && h'.pc.k == 0
                                    && SetupModeOf(sh.efi, h.env.firmware.setupModeReadable) != Some(false))
            && (h.pc.ReadSetupMode? ==> sh'.efi == sh.efi)
  {
    hide Gate, NewIndications, UniqueDeviceSecret, Response, SetupModeOf;
  }

  lemma OtherVariables(attempts: seq<Attempt>, efi: Store, data: seq<Byte>)
    ensures var efi' := efi[OsIndications := data];
            && (InTurn(attempts, efi) ==> InTurn(attempts, efi'))
            && forall id, blobs, n: nat :: n <= 4 && Holds(attempts, efi, id, blobs, n) ==> Holds(attempts, efi', id, blobs, n)
  {
    hide Written, Owner;
  }

  lemma TurnsKeptByOther(cfg: Config, s: State, id: nat)
    requires AllSound(cfg, s) && Turns(s) && Enabled(s, Advance(id)) && !s.handlers[id].pc.WriteVar?
    requires s.handlers[id].env.firmware.setupModeReadable && !Advanced(cfg, s, id).turns.overlap
    ensures Turns(Advanced(cfg, s, id))
  {
    var h := s.handlers[id];
    var t := Advanced(cfg, s, id);
    StepBesidesWrites(cfg, s.shared, h);
    var (sh', h') := Step(cfg, s.shared, h);
    assert t.handlers == s.handlers[id := h'] && t.attempts == s.attempts;
    assert t.turns.writer == if h'.pc.WriteVar? then Some(id) else s.turns.writer;
    assert h'.pc.WriteVar? ==> s.turns.writer == None;
    hide Step, Sound, AllSound, Gate;
    if sh'.efi != s.shared.efi {
      OtherVariables(s.attempts, s.shared.efi, sh'.efi[OsIndications]);
    }
    hide SetupModeOf, Written, Owner, Holds;
    TurnsAfterOther(s, t, id, h');
  }

  lemma TurnsAfterOther(s: State, t: State, id: nat, h': Handler)
    requires Turns(s) && id in s.handlers && !Provisioning(s.handlers[id])
    requires t.handlers == s.handlers[id := h'] && t.attempts == s.attempts && h'.req == s.handlers[id].req
    requires t.turns.writer == (if h'.pc.WriteVar? then Some(id) else s.turns.writer)
    requires InTurn(t.attempts, t.shared.efi)
    requires forall j, blobs, n: nat :: n <= 4 && Holds(s.attempts, s.shared.efi, j, blobs, n) ==>
                                        Holds(t.attempts, t.shared.efi, j, blobs, n)
    requires Done(h') ==> Done(s.handlers[id])
    requires h'.pc.WriteVar? ==> s.turns.writer == None && h'.pc.k == 0 && Written(s.attempts) == []
    ensures Turns(t)
  {
    hide InTurn, Written, Owner;
    if h'.pc.WriteVar? {
      assert forall j :: j in s.handlers ==> !Provisioning(s.handlers[j]);
    }
  }

  lemma TurnsKept(cfg: Config, s: State, l: Move)
    requires AllSound(cfg, s) && Turns(s) && Enabled(s, l) && TakingTurns(Apply(cfg, s, l))
    requires forall id :: id in s.handlers ==> s.handlers[id].env.firmware.setupModeReadable
    ensures Turns(Apply(cfg, s, l))
  {
    match l {
      case Advance(id) =>
        if s.handlers[id].pc.WriteVar? {
          TurnsKeptByWrite(cfg, s, id);
        } else {
          TurnsKeptByOther(cfg, s, id);
        }
      case Arrive(id, req, env) =>
        hide InTurn, Writing, HasWritten, Answered;
      case _ =>
        OtherMoves(cfg, s, l);
        hide Apply, Enabled, InTurn, WriterIsProvisioning, AllWriting, AllHaveWritten;
    }
  }

  /** Overlaps are not undone, and what a request finds does not change. */
  lemma TakingTurnsBefore(cfg: Config, s: State, l: Move)
    requires Enabled(s, l) && TakingTurns(Apply(cfg, s, l))
    ensures TakingTurns(s)
  {
    var t := Apply(cfg, s, l);
    assert s.turns.overlap ==> t.turns.overlap by {
      if !l.Advance? && !l.Arrive? {
        OtherMoves(cfg, s, l);
      }
    }
    if !l.Advance? && !l.Arrive? {
      OtherMoves(cfg, s, l);
      hide Apply, Enabled;
    }
    hide Step, Answered;
    assert forall id :: id in s.handlers ==> id in t.handlers && t.handlers[id].env == s.handlers[id].env;
  }

  lemma {:induction false} TurnsAlways(cfg: Config, efi: Store, ls: seq<Move>, s: State)
    requires Reaches(cfg, efi, ls, s) && TakingTurns(s) && SetupModeOf(efi, true) == Some(true)
    ensures Turns(s)
  {
    if ls == [] {
      hide SetupModeOf;
    } else {
      hide Enabled, Apply, Turns, TakingTurns, Control, Stores, Sends, Reads, AllSound;
      var n := |ls| - 1;
      var u := Exec(cfg, Init(efi), ls[..n]).value;
      TakingTurnsBefore(cfg, u, ls[n]);
      TurnsAlways(cfg, efi, ls[..n], u);
      Invariant(cfg, efi, ls[..n], u);
      assert forall id :: id in u.handlers ==> u.handlers[id].env.firmware.setupModeReadable by {
        ReadableIn(u);
      }
      TurnsKept(cfg, u, ls[n]);
    }
  }

  lemma ReadableIn(s: State)
    requires TakingTurns(s)
    ensures forall id :: id in s.handlers ==> s.handlers[id].env.firmware.setupModeReadable
  {
  }

  /** At the k-th move a request starts to write firmware variables while another is at it. */
  ghost predicate EntersAmid(cfg: Config, efi: Store, ls: seq<Move>, k: nat)
    requires k < |ls|
  {
    ls[k].Advance? &&
    match Exec(cfg, Init(efi), ls[..k])
    case None => false
    case Some(u) =>
      && Enabled(u, ls[k]) && u.handlers[ls[k].id].pc.ReadSetupMode?
      && Step(cfg, u.shared, u.handlers[ls[k].id]).1.pc.WriteVar?
      && exists j :: j in u.handlers && u.handlers[j].pc.WriteVar?
  }

  /** The recorded writer is one. */
  ghost predicate WriterWrites(s: State) {
    s.turns.writer.Some? ==> s.turns.writer.value in s.handlers && s.handlers[s.turns.writer.value].pc.WriteVar?
  }

  lemma WriterWritesKept(cfg: Config, s: State, l: Move)
    requires WriterWrites(s) && Enabled(s, l)
    ensures WriterWrites(Apply(cfg, s, l))
  {
    if l.Advance? {
      hide Step;
    } else if l.Arrive? {
      hide Answered;
    } else {
      OtherMoves(cfg, s, l);
      hide Apply, Enabled;
    }
  }

  /** Without such a move, no overlap is recorded. */
  lemma {:induction false} NoOverlap(cfg: Config, efi: Store, ls: seq<Move>, s: State)
    requires Reaches(cfg, efi, ls, s)
    requires forall k :: 0 <= k < |ls| ==> !EntersAmid(cfg, efi, ls, k)
    ensures !s.turns.overlap && WriterWrites(s)
  {
    if ls != [] {
      var n := |ls| - 1;
      var u := Exec(cfg, Init(efi), ls[..n]).value;
      forall k | 0 <= k < n
        ensures !EntersAmid(cfg, efi, ls[..n], k)
      {
        assert ls[..n][..k] == ls[..k] && !EntersAmid(cfg, efi, ls, k);
      }
      NoOverlap(cfg, efi, ls[..n], u);
      assert !EntersAmid(cfg, efi, ls, n);
      hide Step, Enabled, WriterWrites, Apply;
      WriterWritesKept(cfg, u, ls[n]);
      if s.turns.overlap {
        OverlapOfMove(cfg, u, ls[n]);
      }
    }
  }

  lemma OverlapOfMove(cfg: Config, s: State, l: Move)
    requires WriterWrites(s) && Enabled(s, l) && !s.turns.overlap && Apply(cfg, s, l).turns.overlap
    ensures && l.Advance? && s.handlers[l.id].pc.ReadSetupMode? && Step(cfg, s.shared, s.handlers[l.id]).1.pc.WriteVar?
            && exists j :: j in s.handlers && s.handlers[j].pc.WriteVar?
  {
    hide Step, Answered, HostKey;
  }

  lemma InSetupMode(efi: Store)
    requires SetupMode in efi && efi[SetupMode] == [1]
    ensures SetupModeOf(efi, true) == Some(true)
  {
  }

  predicate HoldsItsBlobs(attempts: seq<Attempt>, efi: Store, id: nat, blobs: Blobs) {
    && Attempt(id, PK, true) in attempts && PK in efi && efi[PK] == blobs.pk
    && Attempt(id, KEK, true) in attempts && KEK in efi && efi[KEK] == blobs.kek
    && Attempt(id, Db, true) in attempts && Db in efi && efi[Db] == blobs.db
    && (blobs.dbx != [] ==> Attempt(id, Dbx, true) in attempts && Dbx in efi && efi[Dbx] == blobs.dbx)
  }

  lemma AllHeld(attempts: seq<Attempt>, efi: Store, id: nat, blobs: Blobs)
    requires Holds(attempts, efi, id, blobs, blobs.Count())
    ensures HoldsItsBlobs(attempts, efi, id, blobs)
  {
    assert ORDER[0] == PK && ORDER[1] == KEK && ORDER[2] == Db && ORDER[3] == Dbx;
    assert blobs.Data(0) == blobs.pk && blobs.Data(1) == blobs.kek && blobs.Data(2) == blobs.db && blobs.Data(3) == blobs.dbx;
  }

  /** The owner is the request of the first accepted PK. */
  lemma OwnerIsFirst(attempts: seq<Attempt>, i: nat)
    requires i < |attempts| && attempts[i].v == PK && attempts[i].accepted
    requires forall j :: 0 <= j < |attempts| && Owner(attempts[..j]).Some? ==> attempts[j].id == Owner(attempts[..j]).value
    ensures forall m :: i < m <= |attempts| ==> Owner(attempts[..m]) == Some(attempts[i].id)
  {
    forall m | i < m <= |attempts|
      ensures Owner(attempts[..m]) == Some(attempts[i].id)
    {
      OwnerAt(attempts, i, m);
    }
  }

  lemma {:induction false} OwnerAt(attempts: seq<Attempt>, i: nat, m: nat)
    requires i < m <= |attempts| && attempts[i].v == PK && attempts[i].accepted
    requires forall j :: 0 <= j < |attempts| && Owner(attempts[..j]).Some? ==> attempts[j].id == Owner(attempts[..j]).value
    ensures Owner(attempts[..m]) == Some(attempts[i].id)
    decreases m
  {
    assert attempts[..m][..m - 1] == attempts[..m - 1];
    if m > i + 1 {
      OwnerAt(attempts, i, m - 1);
    }
  }

  /**
   Secure Boot provisioning. Starting in setup mode, with a setup mode that can be read, in every schedule
   in which provisioning requests do not overlap: the variables written form a prefix of PK, KEK, db, dbx;
   after PK has been written only the request that wrote it attempts a write; and a request that was
   answered OK has itself written PK, KEK, db and any non-empty dbx, which still hold its blobs.
   */
  lemma ProvisioningIsOrdered(cfg: Config, efi: Store, ls: seq<Move>, s: State)
    requires Reaches(cfg, efi, ls, s) && SetupMode in efi && efi[SetupMode] == [1]
    requires forall id :: id in s.handlers ==> s.handlers[id].env.firmware.setupModeReadable
    requires forall k :: 0 <= k < |ls| ==> !EntersAmid(cfg, efi, ls, k)
    ensures Written(s.attempts) <= [PK, KEK, Db, Dbx]
    ensures forall i, j :: 0 <= i < j < |s.attempts| && s.attempts[i].v == PK && s.attempts[i].accepted ==>
                           s.attempts[j].id == s.attempts[i].id
    ensures forall id :: id in s.handlers && s.handlers[id].req.endpoint == AddSecureBoot && s.handlers[id].pc == Finished(200) ==>
                         && s.handlers[id].req.secureBoot.Some?
                         && var blobs, after := s.handlers[id].req.secureBoot.value.blobs, s.shared.efi;
                            && Attempt(id, PK, true) in s.attempts && PK in after && after[PK] == blobs.pk
                            && Attempt(id, KEK, true) in s.attempts && KEK in after && after[KEK] == blobs.kek
                            && Attempt(id, Db, true) in s.attempts && Db in after && after[Db] == blobs.db
                            && (blobs.dbx != [] ==>
                                  Attempt(id, Dbx, true) in s.attempts && Dbx in after && after[Dbx] == blobs.dbx)
  {
    NoOverlap(cfg, efi, ls, s);
    assert TakingTurns(s);
    hide Exec, SetupModeOf, Written, Owner, Holds, Gate, TakingTurns, EntersAmid;
    assert SetupModeOf(efi, true) == Some(true) by {
      InSetupMode(efi);
    }
    TurnsAlways(cfg, efi, ls, s);
    Invariant(cfg, efi, ls, s);
    forall id | id in s.handlers && s.handlers[id].req.endpoint == AddSecureBoot && s.handlers[id].pc == Finished(200)
      ensures s.handlers[id].req.secureBoot.Some?
      ensures HoldsItsBlobs(s.attempts, s.shared.efi, id, s.handlers[id].req.secureBoot.value.blobs)
    {
      assert Sound(cfg, s.handlers[id]);
      assert HasWritten(s.attempts, s.shared.efi, id, s.handlers[id]);
      AllHeld(s.attempts, s.shared.efi, id, s.handlers[id].req.secureBoot.value.blobs);
    }
    assert ORDER == [PK, KEK, Db, Dbx];
    forall i, j | 0 <= i < j < |s.attempts| && s.attempts[i].v == PK && s.attempts[i].accepted
      ensures s.attempts[j].id == s.attempts[i].id
    {
      OwnerIsFirst(s.attempts, i);
      assert Owner(s.attempts[..j]) == Some(s.attempts[i].id);
    }
  }

  // ----- Why both conditions are needed -----

  /**
   Once the platform is out of setup mode, a well-formed request is refused exactly when it can read the
   setup mode; when it cannot, it goes on to write, and PK is replaced if the firmware accepts.
   */
  lemma UnreadableSetupModeWritesAgain(cfg: Config, sh: Shared, req: Request, env: Env)
    requires Gate(cfg, req) == None && req.endpoint == AddSecureBoot
    requires req.secureBoot.Some? && req.secureBoot.value.Check()
    requires SetupModeOf(sh.efi, true) == Some(false) && PK in env.firmware.accepted
    ensures var (sh', h') := RunAlone(cfg, sh, Handler(req, env, Gates, None));
            && (h'.pc == Refused(FORBIDDEN) <==> env.firmware.setupModeReadable)
            && (h'.pc == Refused(FORBIDDEN) ==> sh' == sh)
            && (h'.pc != Refused(FORBIDDEN) ==> PK in sh'.efi && sh'.efi[PK] == req.secureBoot.value.blobs.pk)
  {
    hide Gate, NewIndications;
    var h := Handler(req, env, Gates, None);
    var (sh1, h1) := Step(cfg, sh, h);
    var (sh2, h2) := Step(cfg, sh1, h1);
    assert RunAlone(cfg, sh, h) == RunAlone(cfg, sh1, h1) == RunAlone(cfg, sh2, h2);
    if h2.pc.WriteVar? {
      hide RunAlone;
      ProvisionAlone(cfg, sh2, h2);
      var n := ProvisionedIsPrefix(sh2.efi, h2.pc.request.blobs, env.firmware.accepted, 0);
      assert n > 0;
      assert ORDER[0] == PK;
    }
  }

  /** A provisioning request on its way through the gates and the check of the setup mode. */
  lemma Enter(cfg: Config, s0: State, id: nat, req: Request, env: Env) returns (ms: seq<Move>, s: State)
    requires id !in s0.handlers && !s0.waiter.Drained()
    requires Gate(cfg, req) == None && req.endpoint == AddSecureBoot
    requires req.secureBoot.Some? && req.secureBoot.value.Check()
    requires SetupModeOf(s0.shared.efi, env.firmware.setupModeReadable) == Some(true)
    ensures Exec(cfg, s0, ms) == Some(s)
    ensures s.handlers == s0.handlers[id := Handler(req, env, WriteVar(req.secureBoot.value, 0), None)]
    ensures s.shared == s0.shared && s.attempts == s0.attempts && s.waiter == s0.waiter
  {
    assert Exec(cfg, s0, []) == Some(s0);
    hide Gate, SetupModeOf, Answered, Exec, Step, Enabled, Apply;
    EntersBySteps(cfg, s0.shared, req, env);
    Arrives(cfg, s0, id, req, env);
    var s1 := Apply(cfg, s0, Arrive(id, req, env));
    ExecExtends(cfg, s0, [], Arrive(id, req, env), s0);
    var s2 := Moves(cfg, s1, id, ReadSetupMode);
    ExecExtends(cfg, s0, [] + [Arrive(id, req, env)], Advance(id), s1);
    s := Moves(cfg, s2, id, WriteVar(req.secureBoot.value, 0));
    ms := [] + [Arrive(id, req, env)] + [Advance(id)];
    ExecExtends(cfg, s0, ms, Advance(id), s2);
    ms := ms + [Advance(id)];
  }

  lemma EntersBySteps(cfg: Config, sh: Shared, req: Request, env: Env)
    requires Gate(cfg, req) == None && req.endpoint == AddSecureBoot
    requires req.secureBoot.Some? && req.secureBoot.value.Check()
    requires SetupModeOf(sh.efi, env.firmware.setupModeReadable) == Some(true)
    ensures Step(cfg, sh, Handler(req, env, Gates, None)) == (sh, Handler(req, env, ReadSetupMode, None))
    ensures Step(cfg, sh, Handler(req, env, ReadSetupMode, None))
            == (sh, Handler(req, env, WriteVar(req.secureBoot.value, 0), None))
  {
    hide Gate, SetupModeOf;
  }

  /** A step of a handler that leaves shared memory alone. */
  lemma Moves(cfg: Config, s: State, id: nat, pc: Pc) returns (t: State)
    requires id in s.handlers && (s.handlers[id].pc.Gates? || s.handlers[id].pc.ReadSetupMode?)
    requires Step(cfg, s.shared, s.handlers[id]) == (s.shared, s.handlers[id].(pc := pc))
    ensures Enabled(s, Advance(id)) && t == Apply(cfg, s, Advance(id))
    ensures t.handlers == s.handlers[id := s.handlers[id].(pc := pc)]
    ensures t.shared == s.shared && t.attempts == s.attempts && t.waiter == s.waiter
  {
    hide Step;
    t := Advanced(cfg, s, id);
  }

  /** Two overlapping requests that both find the platform in setup mode both write PK. */
  lemma OverlappingRequestsWriteTwice(cfg: Config, efi: Store, req: Request, env: Env)
    returns (ls: seq<Move>, s: State)
    requires Gate(cfg, req) == None && req.endpoint == AddSecureBoot
    requires req.secureBoot.Some? && req.secureBoot.value.Check()
    requires SetupModeOf(efi, env.firmware.setupModeReadable) == Some(true) && PK in env.firmware.accepted
    ensures Reaches(cfg, efi, ls, s)
    ensures s.attempts == [Attempt(1, PK, true), Attempt(2, PK, true)]
    ensures !OnlyOwnerWrites(s.attempts)
  {
    hide Gate, SetupModeOf, Apply, Enabled, OnlyOwnerWrites;
    var ls2, s2 := BothEnter(cfg, efi, req, env);
    var s3 := WritePk(cfg, s2, 1);
    ExecExtends(cfg, Init(efi), ls2, Advance(1), s2);
    s := WritePk(cfg, s3, 2);
    ExecExtends(cfg, Init(efi), ls2 + [Advance(1)], Advance(2), s3);
    ls := ls2 + [Advance(1)] + [Advance(2)];
    TwoOwners(s.attempts);
  }

  lemma TwoOwners(attempts: seq<Attempt>)
    requires attempts == [Attempt(1, PK, true), Attempt(2, PK, true)]
    ensures !OnlyOwnerWrites(attempts)
  {
    assert attempts[0].v == PK && attempts[0].accepted && attempts[1].id != attempts[0].id;
  }

  lemma BothEnter(cfg: Config, efi: Store, req: Request, env: Env) returns (ls: seq<Move>, s: State)
    requires Gate(cfg, req) == None && req.endpoint == AddSecureBoot
    requires req.secureBoot.Some? && req.secureBoot.value.Check()
    requires SetupModeOf(efi, env.firmware.setupModeReadable) == Some(true)
    ensures Reaches(cfg, efi, ls, s) && s.attempts == []
    ensures var h := Handler(req, env, WriteVar(req.secureBoot.value, 0), None);
            s.handlers == map[1 := h, 2 := h]
  {
    hide Gate, SetupModeOf, Exec, Apply, Enabled;
    var s0 := Init(efi);
    var ms1, s1 := Enter(cfg, s0, 1, req, env);
    var ms2;
    ms2, s := Enter(cfg, s1, 2, req, env);
    ExecComposes(cfg, s0, ms1, s1, ms2);
    ls := ms1 + ms2;
  }

  lemma WritePk(cfg: Config, s: State, id: nat) returns (t: State)
    requires id in s.handlers && s.handlers[id].pc.WriteVar? && s.handlers[id].pc.k == 0
    requires PK in s.handlers[id].env.firmware.accepted
    ensures Enabled(s, Advance(id)) && t == Apply(cfg, s, Advance(id))
    ensures t.attempts == s.attempts + [Attempt(id, PK, true)]
    ensures t.handlers == s.handlers[id := t.handlers[id]]
  {
    hide Enrolled;
    assert ORDER[0] == PK;
    t := Advanced(cfg, s, id);
  }
}
