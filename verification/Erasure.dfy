/** Requests that are turned away leave no trace: a schedule without them leads to the same memory. */
module Erasure {
  import opened Base
  import opened Secrets
  import opened Efi
  import opened Handler
  import opened Machine

  /**
   A handler that has not touched shared memory and is not about to. It is where every request ends that is
   stopped by the method, network or basic-auth gate, by the validation of add-data, by the checks of
   add-secure-boot before the first write, or in a commit before its response was written.
   */
  predicate WithoutEffect(h: Handler) {
    h.pc.Gates? || h.pc.ReadSetupMode? || h.pc.ReadEntropy? || h.pc.Respond? || h.pc.Refused?
  }

  predicate Concerns(l: Move, ids: set<nat>) {
    (l.Arrive? || l.Advance?) && l.id in ids
  }

  /** The schedule without the moves of some requests. */
  function Erase(ls: seq<Move>, ids: set<nat>): seq<Move> {
    if ls == [] then []
    else
      var n := |ls| - 1;
      if Concerns(ls[n], ids) then Erase(ls[..n], ids) else Erase(ls[..n], ids) + [ls[n]]
  }

  /** The state without some requests. */
  function Without(s: State, ids: set<nat>): State {
    s.(handlers := s.handlers - ids, before := s.before - ids)
  }

  predicate Harmless(s: State, ids: set<nat>) {
    forall id :: id in ids && id in s.handlers ==> WithoutEffect(s.handlers[id])
  }

  /** A step that ends without effect started without effect, and had none. */
  lemma StepWithoutEffect(cfg: Config, sh: Shared, h: Handler)
    requires Runnable(sh, h)
    ensures var (sh', h') := Step(cfg, sh, h);
            WithoutEffect(h') ==> WithoutEffect(h) && sh' == sh && !h.pc.WriteVar? && !h'.pc.WriteVar?
  {
    hide Gate, Enrolled, NewIndications, UniqueDeviceSecret, Response, SetupModeOf;
  }

  lemma HarmlessBefore(cfg: Config, s: State, l: Move, ids: set<nat>)
    requires Enabled(s, l) && Harmless(Apply(cfg, s, l), ids)
    ensures Harmless(s, ids)
  {
    var t := Apply(cfg, s, l);
    if l.Advance? {
      StepWithoutEffect(cfg, s.shared, s.handlers[l.id]);
      hide Step, WithoutEffect;
      assert forall id :: id in s.handlers ==> id in t.handlers && (id != l.id ==> t.handlers[id] == s.handlers[id]);
    } else {
      hide Step, WithoutEffect, Advanced, Answered, HostKey;
      assert forall id :: id in s.handlers ==> id in t.handlers && t.handlers[id] == s.handlers[id];
    }
  }

  /** A move of an erased request changes nothing but that request. */
  lemma ErasedMove(cfg: Config, s: State, l: Move, ids: set<nat>)
    requires Enabled(s, l) && Concerns(l, ids) && Harmless(Apply(cfg, s, l), ids)
    ensures Without(Apply(cfg, s, l), ids) == Without(s, ids)
  {
    if l.Advance? {
      StepWithoutEffect(cfg, s.shared, s.handlers[l.id]);
      hide Step, WithoutEffect;
      var h := s.handlers[l.id];
      var h' := Step(cfg, s.shared, h).1;
      assert Advanced(cfg, s, l.id) == s.(handlers := s.handlers[l.id := h']);
      assert s.handlers[l.id := h'] - ids == s.handlers - ids;
    } else {
      hide Answered, WithoutEffect;
      var h := Handler(l.req, l.env, Gates, None);
      assert s.handlers[l.id := h] - ids == s.handlers - ids;
      assert s.before[l.id := Answered(s)] - ids == s.before - ids;
    }
  }

  lemma KeptAdvance(cfg: Config, s: State, id: nat, ids: set<nat>)
    requires Enabled(s, Advance(id)) && id !in ids
    ensures Enabled(Without(s, ids), Advance(id))
    ensures Advanced(cfg, Without(s, ids), id) == Without(Advanced(cfg, s, id), ids)
  {
    hide Step;
    var h' := Step(cfg, s.shared, s.handlers[id]).1;
    assert s.handlers[id := h'] - ids == (s.handlers - ids)[id := h'];
  }

  lemma KeptArrival(cfg: Config, s: State, l: Move, ids: set<nat>)
    requires l.Arrive? && Enabled(s, l) && l.id !in ids && Harmless(s, ids)
    ensures Enabled(Without(s, ids), l)
    ensures Apply(cfg, Without(s, ids), l) == Without(Apply(cfg, s, l), ids)
  {
    SameAnswered(s, ids);
    hide Answered, Harmless;
    var h := Handler(l.req, l.env, Gates, None);
    assert s.handlers[l.id := h] - ids == (s.handlers - ids)[l.id := h];
    assert s.before[l.id := Answered(s)] - ids == (s.before - ids)[l.id := Answered(s)];
  }

  /** Any other move is as possible without the erased requests, and does the same. */
  lemma KeptMove(cfg: Config, s: State, l: Move, ids: set<nat>)
    requires Enabled(s, l) && !Concerns(l, ids) && Harmless(s, ids)
    ensures Enabled(Without(s, ids), l)
    ensures Apply(cfg, Without(s, ids), l) == Without(Apply(cfg, s, l), ids)
  {
    if l.Advance? {
      KeptAdvance(cfg, s, l.id, ids);
      hide Advanced, Without, Runnable;
    } else if l.Arrive? {
      KeptArrival(cfg, s, l, ids);
      hide *;
    } else {
      hide Step, Advanced, Answered, HostKey, Harmless;
    }
  }

  lemma SameAnswered(s: State, ids: set<nat>)
    requires Harmless(s, ids)
    ensures Answered(Without(s, ids)) == Answered(s)
  {
  }

  /**
   Refused requests are invisible. Take any schedule, and any set of requests that in its final state have
   had no effect. The schedule with all their moves deleted is a schedule, and leads to the same state but
   for those requests: the same Entropy, Timestamp, UDS, channel and firmware variables, the same answers
   to all other clients, and the same persisted key.
   */
  lemma {:induction false} RefusedRequestsAreInvisible(cfg: Config, efi: Store, ls: seq<Move>, s: State, ids: set<nat>)
    requires Reaches(cfg, efi, ls, s) && Harmless(s, ids)
    ensures Reaches(cfg, efi, Erase(ls, ids), Without(s, ids))
    ensures forall l :: l in Erase(ls, ids) ==> l in ls && !((l.Arrive? || l.Advance?) && l.id in ids)
    decreases |ls|
  {
    if ls == [] {
      assert Init(efi).handlers - ids == map[] && Init(efi).before - ids == map[];
    } else {
      hide Enabled, Apply, Harmless, Without, Concerns;
      var n := |ls| - 1;
      var u := Exec(cfg, Init(efi), ls[..n]).value;
      HarmlessBefore(cfg, u, ls[n], ids);
      RefusedRequestsAreInvisible(cfg, efi, ls[..n], u, ids);
      if Concerns(ls[n], ids) {
        ErasedMove(cfg, u, ls[n], ids);
      } else {
        KeptMove(cfg, u, ls[n], ids);
        ExecExtends(cfg, Init(efi), Erase(ls[..n], ids), ls[n], Without(u, ids));
      }
    }
  }

  /** Which outcomes are without effect: exactly the refusals, among the ways a handler can end. */
  lemma RefusalsAreExactlyWithoutEffect(cfg: Config, sh: Shared, req: Request, env: Env)
    ensures var (sh', h') := RunAlone(cfg, sh, Handler(req, env, Gates, None));
            && (h'.pc.Refused? ==> sh' == sh)
            && (h'.pc.Refused? <==> WithoutEffect(h'))
            && (Gate(cfg, req).Some? || (req.endpoint == AddData && !ValidAddData(req)) ==> h'.pc.Refused?)
  {
    var h := Handler(req, env, Gates, None);
    WithoutEffectAlone(cfg, sh, h);
    var (sh1, h1) := Step(cfg, sh, h);
    hide Gate;
    assert RunAlone(cfg, sh, h) == RunAlone(cfg, sh1, h1);
  }

  lemma {:induction false} WithoutEffectAlone(cfg: Config, sh: Shared, h: Handler)
    ensures var (sh', h') := RunAlone(cfg, sh, h);
            WithoutEffect(h') ==> sh' == sh && WithoutEffect(h) && h'.pc.Refused?
    decreases h.pc.Weight()
  {
    if Runnable(sh, h) {
      var (sh1, h1) := Step(cfg, sh, h);
      StepWithoutEffect(cfg, sh, h);
      hide Step, WithoutEffect;
      WithoutEffectAlone(cfg, sh1, h1);
    }
  }
}
