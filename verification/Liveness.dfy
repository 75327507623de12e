/**
 Run returns after a commit has sent, a cancellation, or the return of its listener: nothing deadlocks, and a
 measure bounds the steps left.
 */
module Liveness {
  import opened Base
  import opened Secrets
  import opened Efi
  import opened Handler
  import opened Machine
  import opened Safety

  // ----- The measure -----

  ghost function Work(handlers: map<nat, Handler>): nat {
    if handlers == map[] then 0
    else
      var id :| id in handlers;
      handlers[id].pc.Weight() + Work(handlers - {id})
  }

  lemma {:induction false} WorkSplits(handlers: map<nat, Handler>, id: nat)
    requires id in handlers
    ensures Work(handlers) == handlers[id].pc.Weight() + Work(handlers - {id})
  {
    var first :| id in handlers && first in handlers
                 && Work(handlers) == handlers[first].pc.Weight() + Work(handlers - {first});
    if first != id {
      WorkSplits(handlers - {first}, id);
      WorkSplits(handlers - {id}, first);
      assert handlers - {first} - {id} == handlers - {id} - {first};
    }
  }

  lemma WorkUpdated(handlers: map<nat, Handler>, id: nat, h: Handler)
    requires id in handlers
    ensures Work(handlers[id := h]) + handlers[id].pc.Weight() == Work(handlers) + h.pc.Weight()
  {
    WorkSplits(handlers, id);
    WorkSplits(handlers[id := h], id);
    assert handlers[id := h] - {id} == handlers - {id};
  }

  function WaiterWeight(w: Waiter): nat {
    match w
    case Selecting => 4
    case Selected(_) => 3
    case InShutdown(_) => 2
    case AfterShutdown(_, _) => 1
    case WaiterDone(_, _) => 0
  }

  function MainWeight(m: Main): nat {
    match m
    case Serving => 5
    case Returned(_) => 4
    case InWait(_) => 3
    case RunReturned(_) => 2
    case Holding(_, _) => 1
    case _ => 0
  }

  ghost function Measure(s: State): nat {
    Work(s.handlers) + WaiterWeight(s.waiter) + MainWeight(s.main) + (if s.cancelled then 0 else 1)
  }

  /** Every move but the arrival of a request decreases the measure. */
  lemma MovesDecrease(cfg: Config, s: State, l: Move)
    requires Enabled(s, l) && !l.Arrive?
    ensures Measure(Apply(cfg, s, l)) < Measure(s)
  {
    hide Work;
    if l.Advance? {
      var h := s.handlers[l.id];
      var h' := Step(cfg, s.shared, h).1;
      hide Step;
      WorkUpdated(s.handlers, l.id, h');
    } else {
      OtherMoves(cfg, s, l);
      hide Step, HostKey, Advanced;
    }
  }

  predicate Internal(ms: seq<Move>) {
    forall i :: 0 <= i < |ms| ==> !ms[i].Arrive?
  }

  /** Without arrivals, a schedule is no longer than the measure it uses up. */
  lemma {:induction false} SchedulesAreBounded(cfg: Config, s: State, ms: seq<Move>, t: State)
    requires Exec(cfg, s, ms) == Some(t) && Internal(ms)
    ensures |ms| + Measure(t) <= Measure(s)
    decreases |ms|
  {
    hide Enabled, Apply, Measure;
    if ms != [] {
      var n := |ms| - 1;
      var u := Exec(cfg, s, ms[..n]).value;
      SchedulesAreBounded(cfg, s, ms[..n], u);
      MovesDecrease(cfg, u, ms[n]);
    }
  }

  // ----- Progress -----

  /** Run is between the return of its listener and its own. */
  predicate Unwinding(s: State) {
    s.main.Returned? || s.main.InWait?
  }

  /** Run is bound to return: it unwinds, or it serves while a commit has sent or the context is cancelled. */
  predicate Ending(s: State) {
    Unwinding(s) || (s.main.Serving? && (s.sent != {} || s.cancelled))
  }

  /**
   Moves the program makes by itself: no arrival, no cancellation, no failure of the listener, no shutdown
   that runs out of time.
   */
  predicate Proper(l: Move) {
    !l.Arrive? && !l.Cancel? && l != ReturnListener(false) && l != ReturnShutdown(false)
  }

  /** While Run is bound to return, some goroutine can move, even if no shutdown ever times out. */
  lemma Progress(cfg: Config, s: State) returns (l: Move)
    requires Inv(cfg, s) && Ending(s)
    ensures Proper(l) && Enabled(s, l)
  {
    hide AllSound, Stores, Sends, Reads;
    if s.main.Returned? {
      l := CloseCommit;
    } else if s.main.Serving? && s.waiter.CalledShutdown() {
      l := ReturnListener(true);
    } else {
      match s.waiter
      case Selecting =>
        assert s.main.Serving? && s.shared.tokens == 0 ==> |s.sent| == 0;
        l := Select(if s.shared.tokens > 0 then Token else if s.main.Serving? then ContextDone else ChannelClosed);
      case Selected(_) => l := CallShutdown;
      case InShutdown(_) =>
        if id :| id in s.handlers && !s.handlers[id].pc.Terminal() {
          l := Advance(id);
        } else {
          l := ReturnShutdown(true);
        }
      case AfterShutdown(_, _) => l := WgDone;
      case WaiterDone(_, _) => l := ReturnWait;
    }
  }

  /** The outcome with which the listener returns is the outcome of Run. */
  predicate SameOutcome(s: State, t: State) {
    Unwinding(s) ==>
      && (Unwinding(t) ==> t.main.ok == s.main.ok)
      && (t.main.RunReturned? ==> t.main.ok == s.main.ok)
  }

  /** With which outcome Run returns unless the listener fails. */
  predicate Outcome(s: State)
    requires Ending(s)
  {
    s.main.Serving? || s.main.ok
  }

  lemma EndingKept(cfg: Config, s: State, l: Move)
    requires Enabled(s, l) && Ending(s) && Proper(l)
    ensures var t := Apply(cfg, s, l);
            if Ending(t) then Outcome(t) == Outcome(s) else t.main == RunReturned(Outcome(s))
  {
    hide Step, HostKey, Answered;
  }

  /**
   From every reachable state in which Run is bound to return, properly moving on brings it to its return, with
   the outcome of the listener, in no more moves than the measure.
   */
  lemma {:induction false} RunReturns(cfg: Config, s: State) returns (ms: seq<Move>, t: State)
    requires Inv(cfg, s) && Ending(s)
    ensures Exec(cfg, s, ms) == Some(t) && t.main == RunReturned(Outcome(s))
    ensures forall i :: 0 <= i < |ms| ==> Proper(ms[i])
    ensures |ms| <= Measure(s)
    decreases Measure(s)
  {
    hide Inv, Enabled, Apply, Measure;
    var l := Progress(cfg, s);
    var u := Apply(cfg, s, l);
    MovesDecrease(cfg, s, l);
    EndingKept(cfg, s, l);
    InvKept(cfg, s, l);
    ExecExtends(cfg, s, [], l, s);
    assert [] + [l] == [l];
    if Ending(u) {
      var ms1;
      ms1, t := RunReturns(cfg, u);
      ms := [l] + ms1;
      ExecComposes(cfg, s, [l], u, ms1);
    } else {
      ms, t := [l], u;
    }
  }

  /**
   No deadlock: whatever the schedule was up to a commit's send, the cancellation of the context or the
   listener's return, and after it, as long as no further request arrives Run returns within a bounded number
   of moves, since a schedule that stops short of it can still move and one that does not stop uses up the
   measure.
   */
  lemma NoDeadlock(cfg: Config, efi: Store, ls: seq<Move>, s: State, ms: seq<Move>, t: State)
    requires Reaches(cfg, efi, ls, s)
    requires s.main.Returned? || s.main.InWait? || (s.main.Serving? && (s.sent != {} || s.cancelled))
    requires Exec(cfg, s, ms) == Some(t) && forall i :: 0 <= i < |ms| ==> !ms[i].Arrive?
    ensures |ms| + Measure(t) <= Measure(s)
    ensures || t.main.RunReturned? || t.main.Holding? || t.main.Persisted? || t.main.NilSecret? || t.main.Stopped?
            || exists l :: Enabled(t, l) && !l.Arrive? && !l.Cancel? && l != ReturnListener(false) && l != ReturnShutdown(false)
    ensures SameOutcome(s, t)
  {
    hide Inv, Measure, Exec;
    ExecComposes(cfg, Init(efi), ls, s, ms);
    Invariant(cfg, efi, ls + ms, t);
    SchedulesAreBounded(cfg, s, ms, t);
    OutcomeOfSchedule(cfg, s, ms, t);
    if Ending(t) {
      var l := Progress(cfg, t);
      assert Enabled(t, l) && Proper(l);
    }
  }

  lemma {:induction false} OutcomeOfSchedule(cfg: Config, s: State, ms: seq<Move>, t: State)
    requires Exec(cfg, s, ms) == Some(t) && Ending(s)
    ensures SameOutcome(s, t) && (Ending(t) || t.main.AfterRun())
    ensures Unwinding(s) ==> t.main != Serving
    decreases |ms|
  {
    hide Enabled, Apply;
    if ms != [] {
      var n := |ms| - 1;
      var u := Exec(cfg, s, ms[..n]).value;
      OutcomeOfSchedule(cfg, s, ms[..n], u);
      MainMoves(cfg, u, ms[n]);
    }
  }

  /** The main goroutine never goes back, sends are not undone, and a cancellation lasts. */
  lemma MainMoves(cfg: Config, s: State, l: Move)
    requires Enabled(s, l)
    ensures var t := Apply(cfg, s, l);
            && (s.main != Serving ==> t.main != Serving)
            && (t.main.Returned? ==> t.main == s.main || s.main == Serving)
            && (t.main.InWait? ==> t.main == s.main || s.main == Returned(t.main.ok))
            && (t.main.RunReturned? ==> t.main == s.main || s.main == InWait(t.main.ok))
            && (s.main.AfterRun() ==> t.main.AfterRun())
            && (t.main.Serving? && (s.sent != {} || s.cancelled) ==> t.sent != {} || t.cancelled)
  {
    hide Step, HostKey, Answered;
  }
}
