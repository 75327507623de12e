/** What the server holds of the data that was added, and when it is one request's data as a whole. */
module Received {
  import opened Base
  import opened Secrets
  import opened Efi
  import opened Handler
  import opened Machine
  import opened Safety
  import opened Persistence

  // ----- Requests that do not overlap -----

  ghost predicate HasData(handlers: map<nat, Handler>, added: Option<nat>) {
    match added
    case None => forall id :: id in handlers && handlers[id].req.endpoint == AddData ==> !handlers[id].pc.Finished?
    case Some(a) => a in handlers && ValidAddData(handlers[a].req) && handlers[a].pc == Finished(OK)
  }

  /** The data of the last request to have finished; zeros before the first. */
  ghost function Last(handlers: map<nat, Handler>, added: Option<nat>): (int, Bytes32)
    requires HasData(handlers, added)
  {
    match added
    case None => (0, Copied(32, []))
    case Some(a) => (handlers[a].req.addData.value.timestamp, handlers[a].req.addData.value.entropy)
  }

  /** Only the recorded request is copying; the others have not begun to, or have stopped. */
  ghost predicate OnlyAdder(handlers: map<nat, Handler>, adder: Option<nat>) {
    && (forall id :: id in handlers && handlers[id].pc.CopyEntropy? ==> adder == Some(id))
    && (adder.Some? ==> adder.value in handlers && handlers[adder.value].pc.CopyEntropy?)
  }

  /** Entropy and Timestamp are the last request's, up to where the one that is copying has got. */
  ghost predicate Whole(s: State) {
    && HasData(s.handlers, s.turns.added) && OnlyAdder(s.handlers, s.turns.adder)
    && var (timestamp, entropy) := Last(s.handlers, s.turns.added);
       match s.turns.adder
       case None => s.shared.timestamp == timestamp && s.shared.entropy == entropy
       case Some(id) =>
         var pc := s.handlers[id].pc;
         s.shared.timestamp == pc.timestamp && s.shared.entropy == pc.entropy[..pc.i] + entropy[pc.i..]
  }

  /** How a step moves a handler through its copying. */
  lemma StepAndData(cfg: Config, sh: Shared, h: Handler)
    requires Runnable(sh, h) && Sound(cfg, h)
    ensures var (sh', h') := Step(cfg, sh, h);
            && h'.req == h.req && !h.pc.Finished?
            && (!h.pc.StoreTimestamp? && !h.pc.CopyEntropy? ==>
                  && sh'.timestamp == sh.timestamp && sh'.entropy == sh.entropy && !h'.pc.CopyEntropy?
                  && (h.req.endpoint == AddData ==> !h'.pc.Finished?))
            && (h.pc.StoreTimestamp? ==>
                  && !h'.pc.Finished? && sh'.timestamp == h.pc.timestamp && sh'.entropy == sh.entropy
                  && h'.pc == CopyEntropy(h.pc.timestamp, h.pc.entropy, 0))
            && (h.pc.CopyEntropy? ==>
                  && ValidAddData(h.req) && h.req.addData == Some(AddDataRequest(h.pc.entropy, h.pc.timestamp))
                  && sh'.timestamp == sh.timestamp && sh'.entropy == sh.entropy[h.pc.i := h.pc.entropy[h.pc.i]]
                  && h'.pc == if h.pc.i == 31 then Finished(OK) else CopyEntropy(h.pc.timestamp, h.pc.entropy, h.pc.i + 1))
  {
    hide Gate, Enrolled, NewIndications, UniqueDeviceSecret, Response, SetupModeOf;
  }

  /** Copying one more byte. */
  lemma OneMore(entropy: Bytes32, from: Bytes32, onto: Bytes32, i: Index32)
    requires entropy == from[..i] + onto[i..]
    ensures entropy[i := from[i]] == from[..i + 1] + onto[i + 1..]
  {
  }

  lemma WholeKeptByAdvance(cfg: Config, s: State, id: nat)
    requires AllSound(cfg, s) && Whole(s) && Enabled(s, Advance(id)) && !Advanced(cfg, s, id).turns.mixed
    ensures Whole(Advanced(cfg, s, id))
  {
    var h := s.handlers[id];
    StepAndData(cfg, s.shared, h);
    var (sh', h') := Step(cfg, s.shared, h);
    var t := Advanced(cfg, s, id);
    assert t.handlers == s.handlers[id := h'] && t.shared == sh' && t.turns == Turned(s.turns, id, h, h');
    hide Step, Sound, AllSound, Runnable, Advanced, Enabled, Whole, ValidAddData, Last;
    if h.pc.CopyEntropy? {
      WholeAfterCopy(s, t, id, h');
    } else {
      WholeAfterOther(s, t, id, h');
    }
  }

  lemma WholeAfterCopy(s: State, t: State, id: nat, h': Handler)
    requires Whole(s) && id in s.handlers && s.handlers[id].pc.CopyEntropy?
    requires t.handlers == s.handlers[id := h'] && t.turns == Turned(s.turns, id, s.handlers[id], h')
    requires var h, pc := s.handlers[id], s.handlers[id].pc;
             && h'.req == h.req && ValidAddData(h.req) && h.req.addData == Some(AddDataRequest(pc.entropy, pc.timestamp))
             && t.shared.timestamp == s.shared.timestamp && t.shared.entropy == s.shared.entropy[pc.i := pc.entropy[pc.i]]
             && h'.pc == if pc.i == 31 then Finished(OK) else CopyEntropy(pc.timestamp, pc.entropy, pc.i + 1)
    ensures Whole(t)
  {
    hide ValidAddData;
    var pc, onto := s.handlers[id].pc, Last(s.handlers, s.turns.added).1;
    OneMore(s.shared.entropy, pc.entropy, onto, pc.i);
    assert pc.entropy[..32] + onto[32..] == pc.entropy;
  }

  lemma WholeAfterOther(s: State, t: State, id: nat, h': Handler)
    requires Whole(s) && id in s.handlers && !s.handlers[id].pc.CopyEntropy? && !s.handlers[id].pc.Finished?
    requires t.handlers == s.handlers[id := h'] && t.turns == Turned(s.turns, id, s.handlers[id], h') && !t.turns.mixed
    requires var h, pc := s.handlers[id], s.handlers[id].pc;
             && h'.req == h.req && t.shared.entropy == s.shared.entropy && (h.req.endpoint == AddData ==> !h'.pc.Finished?)
             && if pc.StoreTimestamp?
                then t.shared.timestamp == pc.timestamp && h'.pc == CopyEntropy(pc.timestamp, pc.entropy, 0)
                else t.shared.timestamp == s.shared.timestamp && !h'.pc.CopyEntropy?
    ensures Whole(t)
  {
    hide ValidAddData;
    var pc, onto := s.handlers[id].pc, Last(s.handlers, s.turns.added).1;
    if pc.StoreTimestamp? {
      assert onto == pc.entropy[..0] + onto[0..];
    }
  }

  lemma WholeKept(cfg: Config, s: State, l: Move)
    requires AllSound(cfg, s) && Whole(s) && Enabled(s, l) && !Apply(cfg, s, l).turns.mixed
    ensures Whole(Apply(cfg, s, l))
  {
    match l {
      case Advance(id) => WholeKeptByAdvance(cfg, s, id);
      case Arrive(id, req, env) => hide Answered, ValidAddData;
      case _ =>
        OtherMoves(cfg, s, l);
        hide *;
        WholeDependsOn(s, Apply(cfg, s, l));
    }
  }

  lemma WholeDependsOn(s: State, t: State)
    requires Whole(s) && t.handlers == s.handlers && t.turns.adder == s.turns.adder && t.turns.added == s.turns.added
    requires t.shared.entropy == s.shared.entropy && t.shared.timestamp == s.shared.timestamp
    ensures Whole(t)
  {
  }

  lemma MixedIsKept(cfg: Config, s: State, l: Move)
    requires Enabled(s, l)
    ensures s.turns.mixed ==> Apply(cfg, s, l).turns.mixed
  {
    hide Step, Answered, HostKey;
  }

  /** In every schedule in which no request starts to add data while another is copying. */
  lemma {:induction false} WholeAlways(cfg: Config, efi: Store, ls: seq<Move>, s: State)
    requires Reaches(cfg, efi, ls, s) && !s.turns.mixed
    ensures Whole(s)
  {
    if ls != [] {
      hide Enabled, Apply, Whole, Control, Stores, Sends, Reads, AllSound;
      var n := |ls| - 1;
      var u := Exec(cfg, Init(efi), ls[..n]).value;
      MixedIsKept(cfg, u, ls[n]);
      WholeAlways(cfg, efi, ls[..n], u);
      Invariant(cfg, efi, ls[..n], u);
      WholeKept(cfg, u, ls[n]);
    }
  }

  /** At the k-th move an add-data request starts to store while another is copying. */
  ghost predicate StartsAmid(cfg: Config, efi: Store, ls: seq<Move>, k: nat)
    requires k < |ls|
  {
    ls[k].Advance? &&
    match Exec(cfg, Init(efi), ls[..k])
    case None => false
    case Some(u) =>
      && ls[k].id in u.handlers && u.handlers[ls[k].id].pc.StoreTimestamp?
      && exists j :: j in u.handlers && u.handlers[j].pc.CopyEntropy?
  }

  /** The k-th move copies the last byte of an add-data request. */
  ghost predicate Finishes(cfg: Config, efi: Store, ls: seq<Move>, k: nat)
    requires k < |ls|
  {
    ls[k].Advance? &&
    match Exec(cfg, Init(efi), ls[..k])
    case None => false
    case Some(u) => ls[k].id in u.handlers && u.handlers[ls[k].id].pc.CopyEntropy? && u.handlers[ls[k].id].pc.i == 31
  }

  /** The recorded request is copying. */
  ghost predicate AdderCopies(s: State) {
    s.turns.adder.Some? ==> s.turns.adder.value in s.handlers && s.handlers[s.turns.adder.value].pc.CopyEntropy?
  }

  lemma TurnsOfMove(cfg: Config, s: State, l: Move)
    requires AdderCopies(s) && Enabled(s, l)
    ensures var t := Apply(cfg, s, l);
            && AdderCopies(t)
            && (t.turns.mixed && !s.turns.mixed ==>
                  && l.Advance? && s.handlers[l.id].pc.StoreTimestamp?
                  && exists j :: j in s.handlers && s.handlers[j].pc.CopyEntropy?)
  {
    if l.Advance? {
      var h := s.handlers[l.id];
      CopyStep(cfg, s.shared, h);
      hide Step;
    } else if l.Arrive? {
      hide Answered;
    } else {
      OtherMoves(cfg, s, l);
      hide Apply, Enabled;
    }
  }

  lemma AddedByMove(cfg: Config, s: State, l: Move)
    requires Enabled(s, l)
    ensures Apply(cfg, s, l).turns.added
            == if l.Advance? && s.handlers[l.id].pc.CopyEntropy? && s.handlers[l.id].pc.i == 31
               then Some(l.id) else s.turns.added
  {
    if l.Advance? {
      CopyStep(cfg, s.shared, s.handlers[l.id]);
      hide Step;
    } else if l.Arrive? {
      hide Answered;
    } else {
      OtherMoves(cfg, s, l);
      hide Apply, Enabled;
    }
  }

  lemma CopyStep(cfg: Config, sh: Shared, h: Handler)
    requires Runnable(sh, h)
    ensures var (sh', h') := Step(cfg, sh, h);
            && (h.pc.StoreTimestamp? ==> h'.pc.CopyEntropy?)
            && (h.pc.CopyEntropy? ==> if h.pc.i == 31 then h'.pc.Finished? else h'.pc.CopyEntropy?)
  {
  }

  lemma EarlierMove(cfg: Config, efi: Store, ls: seq<Move>, n: nat, m: nat)
    requires m < n <= |ls|
    ensures StartsAmid(cfg, efi, ls[..n], m) == StartsAmid(cfg, efi, ls, m)
    ensures Finishes(cfg, efi, ls[..n], m) == Finishes(cfg, efi, ls, m)
  {
    assert ls[..n][..m] == ls[..m] && ls[..n][m] == ls[m];
    hide Exec;
  }

  lemma LastMove(cfg: Config, efi: Store, ls: seq<Move>, u: State)
    requires ls != [] && Exec(cfg, Init(efi), ls[..|ls| - 1]) == Some(u) && Enabled(u, ls[|ls| - 1])
    ensures var l := ls[|ls| - 1];
            && (StartsAmid(cfg, efi, ls, |ls| - 1)
                <==> && l.Advance? && u.handlers[l.id].pc.StoreTimestamp?
                     && exists j :: j in u.handlers && u.handlers[j].pc.CopyEntropy?)
            && (Finishes(cfg, efi, ls, |ls| - 1)
                <==> l.Advance? && u.handlers[l.id].pc.CopyEntropy? && u.handlers[l.id].pc.i == 31)
  {
    hide Exec;
  }

  /** Without a move that starts a store amid a copy, none is recorded. */
  lemma {:induction false} NotMixed(cfg: Config, efi: Store, ls: seq<Move>, s: State)
    requires Reaches(cfg, efi, ls, s)
    requires forall k :: 0 <= k < |ls| ==> !StartsAmid(cfg, efi, ls, k)
    ensures AdderCopies(s) && !s.turns.mixed
  {
    if ls != [] {
      var n := |ls| - 1;
      var u := Exec(cfg, Init(efi), ls[..n]).value;
      assert Enabled(u, ls[n]) && s == Apply(cfg, u, ls[n]);
      forall k | 0 <= k < n
        ensures !StartsAmid(cfg, efi, ls[..n], k)
      {
        EarlierMove(cfg, efi, ls, n, k);
      }
      NotMixed(cfg, efi, ls[..n], u);
      LastMove(cfg, efi, ls, u);
      hide StartsAmid, AdderCopies, Apply, Exec;
      TurnsOfMove(cfg, u, ls[n]);
    }
  }

  /** Who copied the last byte last, if any request did. */
  ghost predicate LastToFinish(cfg: Config, efi: Store, ls: seq<Move>, added: Option<nat>) {
    forall k :: 0 <= k < |ls| && Finishes(cfg, efi, ls, k) ==>
                  added.Some? && ((forall m :: k < m < |ls| ==> !Finishes(cfg, efi, ls, m)) ==> added.value == ls[k].id)
  }

  ghost predicate SomeFinish(cfg: Config, efi: Store, ls: seq<Move>) {
    exists k :: 0 <= k < |ls| && Finishes(cfg, efi, ls, k)
  }

  lemma LastExtends(cfg: Config, efi: Store, ls: seq<Move>, added: Option<nat>)
    requires ls != [] && LastToFinish(cfg, efi, ls[..|ls| - 1], added)
    ensures var n := |ls| - 1;
            && (!Finishes(cfg, efi, ls, n) ==> LastToFinish(cfg, efi, ls, added))
            && (Finishes(cfg, efi, ls, n) && ls[n].Advance? ==> LastToFinish(cfg, efi, ls, Some(ls[n].id)))
            && (SomeFinish(cfg, efi, ls) <==> SomeFinish(cfg, efi, ls[..n]) || Finishes(cfg, efi, ls, n))
  {
    var n := |ls| - 1;
    hide Finishes;
    forall k | 0 <= k < n
      ensures Finishes(cfg, efi, ls[..n], k) == Finishes(cfg, efi, ls, k) && ls[..n][k] == ls[k]
    {
      EarlierMove(cfg, efi, ls, n, k);
    }
    if SomeFinish(cfg, efi, ls) && !Finishes(cfg, efi, ls, n) {
      var k :| 0 <= k < |ls| && Finishes(cfg, efi, ls, k);
      assert Finishes(cfg, efi, ls[..n], k);
    }
    if SomeFinish(cfg, efi, ls[..n]) {
      var k :| 0 <= k < n && Finishes(cfg, efi, ls[..n], k);
      assert Finishes(cfg, efi, ls, k);
    }
  }

  lemma {:induction false} AddedIsTheLast(cfg: Config, efi: Store, ls: seq<Move>, s: State)
    requires Reaches(cfg, efi, ls, s)
    ensures LastToFinish(cfg, efi, ls, s.turns.added)
    ensures s.turns.added.Some? <==> SomeFinish(cfg, efi, ls)
  {
    if ls != [] {
      var n := |ls| - 1;
      var u := Exec(cfg, Init(efi), ls[..n]).value;
      assert Enabled(u, ls[n]) && s == Apply(cfg, u, ls[n]);
      AddedIsTheLast(cfg, efi, ls[..n], u);
      LastMove(cfg, efi, ls, u);
      hide LastToFinish, SomeFinish, Finishes, Apply, Exec;
      LastExtends(cfg, efi, ls, u.turns.added);
      AddedByMove(cfg, u, ls[n]);
    }
  }

  /**
   Whole data. In every schedule in which no add-data request starts to store while another is copying:
   whenever none is copying, the server holds zeros if none has copied its last byte, and otherwise exactly the
   timestamp and entropy of the last one that did, which has been answered OK.
   */
  lemma DataIsWhole(cfg: Config, efi: Store, ls: seq<Move>, s: State)
    requires Reaches(cfg, efi, ls, s)
    requires forall k :: 0 <= k < |ls| ==> !StartsAmid(cfg, efi, ls, k)
    requires forall id :: id in s.handlers ==> !s.handlers[id].pc.CopyEntropy?
    ensures (forall k :: 0 <= k < |ls| ==> !Finishes(cfg, efi, ls, k)) ==>
              s.shared.timestamp == 0 && forall i :: 0 <= i < 32 ==> s.shared.entropy[i] == 0
    ensures forall k :: 0 <= k < |ls| && Finishes(cfg, efi, ls, k)
                        && (forall m :: k < m < |ls| ==> !Finishes(cfg, efi, ls, m)) ==>
                        && ls[k].id in s.handlers && s.handlers[ls[k].id].pc == Finished(200)
                        && s.handlers[ls[k].id].req.endpoint == AddData && s.handlers[ls[k].id].req.addData.Some?
                        && s.shared.timestamp == s.handlers[ls[k].id].req.addData.value.timestamp
                        && s.shared.entropy == s.handlers[ls[k].id].req.addData.value.entropy
  {
    NotMixed(cfg, efi, ls, s);
    AddedIsTheLast(cfg, efi, ls, s);
    WholeAlways(cfg, efi, ls, s);
    hide Exec, StartsAmid, Finishes;
  }

  // ----- Overlapping requests -----

  /**
   Any two accepted add-data requests whose entropy differs in the first byte and in the others can overlap,
   both be answered OK, and leave entropy that neither of them sent: the first byte and the timestamp of one,
   the other bytes of the other.
   */
  lemma OverlappingDataMixes(cfg: Config, efi: Store, req1: Request, req2: Request, env: Env)
    returns (ls: seq<Move>, s: State)
    requires Gate(cfg, req1) == None && ValidAddData(req1) && Gate(cfg, req2) == None && ValidAddData(req2)
    requires req1.addData.value.entropy[0] != req2.addData.value.entropy[0]
    requires req1.addData.value.entropy[1..] != req2.addData.value.entropy[1..]
    ensures Reaches(cfg, efi, ls, s)
    ensures s.shared.entropy != req1.addData.value.entropy && s.shared.entropy != req2.addData.value.entropy
    ensures s.handlers == map[1 := Handler(req1, env, Finished(OK), None), 2 := Handler(req2, env, Finished(OK), None)]
    ensures s.shared.entropy == [req2.addData.value.entropy[0]] + req1.addData.value.entropy[1..]
    ensures s.shared.timestamp == req2.addData.value.timestamp
  {
    hide Gate, RunAlone, Enabled, Apply, Exec, Runnable;
    var ls1, s1 := FirstByte(cfg, efi, req1, env);
    var ls2, s2 := OtherData(cfg, efi, ls1, s1, req2, env);
    CopyAlone(cfg, s2.shared, s2.handlers[1]);
    var ms;
    ms, s := AloneIsASchedule(cfg, s2, 1);
    ExecComposes(cfg, Init(efi), ls2, s2, ms);
    ls := ls2 + ms;
    assert req2.addData.value.entropy[..1] == [req2.addData.value.entropy[0]];
    assert s.shared.entropy[1..] == req1.addData.value.entropy[1..];
  }

  /** A second request arrives and is handled to its end. */
  lemma OtherData(cfg: Config, efi: Store, ls: seq<Move>, s: State, req: Request, env: Env)
    returns (ls': seq<Move>, s': State)
    requires Reaches(cfg, efi, ls, s) && s.waiter == Selecting && s.handlers.Keys == {1}
    requires Gate(cfg, req) == None && ValidAddData(req)
    ensures Reaches(cfg, efi, ls', s')
    ensures s'.handlers == s.handlers[2 := Handler(req, env, Finished(OK), None)]
    ensures s'.shared.entropy == req.addData.value.entropy && s'.shared.timestamp == req.addData.value.timestamp
  {
    hide Gate, RunAlone, Enabled, Apply, Exec, Runnable, Answered, Init;
    Arrives(cfg, s, 2, req, env);
    var t := Apply(cfg, s, Arrive(2, req, env));
    ExecExtends(cfg, Init(efi), ls, Arrive(2, req, env), s);
    AddDataAlone(cfg, t.shared, req, env);
    var ms;
    ms, s' := AloneIsASchedule(cfg, t, 2);
    ExecComposes(cfg, Init(efi), ls + [Arrive(2, req, env)], t, ms);
    ls' := ls + [Arrive(2, req, env)] + ms;
  }

  /** The state after one request has stored its timestamp and copied its first byte. */
  lemma FirstByte(cfg: Config, efi: Store, req: Request, env: Env) returns (ls: seq<Move>, s: State)
    requires Gate(cfg, req) == None && ValidAddData(req)
    ensures Reaches(cfg, efi, ls, s)
    ensures s.handlers
            == map[1 := Handler(req, env, CopyEntropy(req.addData.value.timestamp, req.addData.value.entropy, 1), None)]
    ensures s.waiter == Selecting && s.main == Serving && !s.cancelled && s.wg == 1
    ensures s.shared.tokens == 0 && !s.shared.closed
    ensures s.shared.entropy == [req.addData.value.entropy[0]] + Copied(32, [])[1..]
  {
    hide Gate, Answered;
    var s0 := Init(efi);
    Arrives(cfg, s0, 1, req, env);
    var s1 := Apply(cfg, s0, Arrive(1, req, env));
    ExecExtends(cfg, s0, [], Arrive(1, req, env), s0);
    ls := [] + [Arrive(1, req, env)];
    hide Exec;
    var s2 := Advanced(cfg, s1, 1);
    ExecExtends(cfg, s0, ls, Advance(1), s1);
    ls := ls + [Advance(1)];
    var s3 := Advanced(cfg, s2, 1);
    ExecExtends(cfg, s0, ls, Advance(1), s2);
    ls := ls + [Advance(1)];
    s := Advanced(cfg, s3, 1);
    ExecExtends(cfg, s0, ls, Advance(1), s3);
    ls := ls + [Advance(1)];
  }
}
