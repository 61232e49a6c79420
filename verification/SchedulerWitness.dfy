/**
 What fails, by runs: a dispatch whose `ev_type` does not classify like its `ev_priority` can be
 run by the wrong stage, and EMRG and HIGH are not first-in first-out.
 */
module SchedulerWitness {
  import opened Wrappers
  import opened Scheduler
  import opened SchedulerOrder

  /** A running handler has the class of the stage that runs it. */
  predicate StageFits(s: State) {
    s.pc.Run? && s.running.Some? ==> Rank(s.running.value.prio) == Rank(s.pc.stage)
  }

  /** The dispatch agrees, or it is one with this type and priority. */
  predicate Admitted(a: Action, kind: int, p: Priority) {
    AgreeingAction(a) || (a.Enqueue? && a.kind == kind && Decode(a.prio) == Some(p))
  }

  predicate Admits(acts: seq<Action>, kind: int, p: Priority) {
    forall i :: 0 <= i < |acts| ==> Admitted(acts[i], kind, p)
  }

  ghost predicate Reaches(s: State, t: State, kind: int, p: Priority) {
    exists acts :: Admits(acts, kind, p) && Exec(s, acts) == t
  }

  lemma {:induction false} ReachSelf(s: State, kind: int, p: Priority)
    ensures Reaches(s, s, kind, p)
  {
    assert Admits([], kind, p) && Exec(s, []) == s;
  }

  lemma {:induction false} ReachNext(s: State, t: State, a: Action, kind: int, p: Priority)
    requires Reaches(s, t, kind, p) && Admitted(a, kind, p)
    ensures Reaches(s, Apply(t, a), kind, p)
  {
    var acts :| Admits(acts, kind, p) && Exec(s, acts) == t;
    ExecSnoc(s, acts, a);
    assert Admits(acts + [a], kind, p);
  }

  lemma {:induction false} ReachStep(s: State, t: State, kind: int, p: Priority) returns (u: State)
    requires Reaches(s, t, kind, p)
    ensures Reaches(s, u, kind, p) && u == WorkerStep(t)
  {
    u := WorkerStep(t);
    ReachNext(s, t, Step, kind, p);
  }

  /** Dispatch and signal an event. */
  lemma {:induction false} ReachEnqueue(s: State, t: State, k: int, q: Priority, kind: int, p: Priority)
    returns (u: State)
    requires Reaches(s, t, kind, p) && (Agrees(k, q) || (k == kind && q == p))
    ensures Reaches(s, u, kind, p) && u == EnqueueStep(t, k, Code(q), 0)
  {
    u := EnqueueStep(t, k, Code(q), 0);
    ReachNext(s, t, Enqueue(k, Code(q), 0), kind, p);
  }

  predicate NothingQueued(s: State) {
    s.queues == Lanes([], [], [], [], []) && s.pending == Lanes(0, 0, 0, 0, 0)
  }

  /** A stage that finds its queue empty and takes nothing from the private list. */
  lemma {:induction false} PassStage(s: State, t: State, kind: int, p: Priority) returns (u: State)
    requires Reaches(s, t, kind, p) && t.pc.Splice? && t.pc.stage != Idle
    requires t.queues.At(t.pc.stage) == [] && t.pending.At(t.pc.stage) == 0
    requires t.local == [] || !Takes(t.pc.stage, t.local[0])
    ensures Reaches(s, u, kind, p)
    ensures u == t.(pc := Splice(Below(t.pc.stage)), ratio := u.ratio, high := u.high)
  {
    var m := ReachStep(s, t, kind, p);
    assert m.local == t.local;
    assert m.queues == t.queues && m.pending == t.pending;
    u := ReachStep(s, m, kind, p);
  }

  /** Pass the stages above `q`, none of which has anything to do. */
  lemma {:induction false} PassTo(s: State, t: State, q: Priority, kind: int, p: Priority)
    returns (u: State)
    requires Reaches(s, t, kind, p) && t.pc.Splice? && Code(t.pc.stage) >= Code(q)
    requires forall r: Priority :: Code(r) > Code(q) ==> t.queues.At(r) == [] && t.pending.At(r) == 0
    requires t.local == []
    ensures Reaches(s, u, kind, p)
    ensures u == t.(pc := Splice(q), ratio := u.ratio, high := u.high)
    decreases Code(t.pc.stage)
  {
    if t.pc.stage == q {
      u := t;
    } else {
      var m := PassStage(s, t, kind, p);
      u := PassTo(s, m, q, kind, p);
    }
  }

  /** The only event left is `e`, and some stage from `q` down takes it against its class. */
  lemma {:induction false} Misrun(s: State, t: State, e: Item, kind: int, p: Priority)
    returns (u: State)
    requires Reaches(s, t, kind, p) && t.pc.Splice? && t.pc.stage != Idle
    requires NothingQueued(t) && t.local == [e]
    requires Rank(e.prio) > Rank(t.pc.stage) || (Rank(e.prio) == 0 && 2 <= e.kind <= Code(t.pc.stage))
    ensures Reaches(s, u, kind, p) && !StageFits(u)
    decreases Code(t.pc.stage)
  {
    if Takes(t.pc.stage, e) {
      var m := ReachStep(s, t, kind, p);
      assert m.local == [e];
      u := ReachStep(s, m, kind, p);
    } else {
      var m := PassStage(s, t, kind, p);
      u := Misrun(s, m, e, kind, p);
    }
  }

  /** The first two steps: the worker finds the signal up and starts at the CRIT stage. */
  lemma {:induction false} WakeUp(s: State, t: State, ticket: nat, kind: int, p: Priority)
    returns (u: State)
    requires Reaches(s, t, kind, p) && ticket in t.unsignalled
    requires t.pc == Check && t.status == Running && t.cvCount == 0
    ensures Reaches(s, u, kind, p)
    ensures u == t.(pc := Splice(Crit), woken := false, unsignalled := t.unsignalled - {ticket})
  {
    var m := SignalStep(t, ticket);
    ReachNext(s, t, Signal(ticket), kind, p);
    var n := ReachStep(s, m, kind, p);
    u := ReachStep(s, n, kind, p);
  }

  /** An event of CRIT, EMRG or HIGH that its own stage does not take. */
  lemma {:induction false} SkippedByItsStage(s0: State, kind: int, p: Priority) returns (u: State)
    requires Initial(s0) && Code(p) >= 2 && kind != Code(p)
    ensures Reaches(s0, u, kind, p) && !StageFits(u)
  {
    ReachSelf(s0, kind, p);
    var e := Item(0, p, kind, 0);
    assert s0.queues.At(p) + [e] == [e];
    var t := ReachEnqueue(s0, s0, kind, p, kind, p);
    assert t.queues == s0.queues.With(p, [e]) && t.pending == s0.pending.With(p, 1);
    t := WakeUp(s0, t, 0, kind, p);
    t := PassTo(s0, t, p, kind, p);
    t := ReachStep(s0, t, kind, p);
    assert t.local == [e] && NothingQueued(t);
    t := ReachStep(s0, t, kind, p);
    u := Misrun(s0, t, e, kind, p);
  }

  lemma {:induction false} TwoQueued(s0: State, x: Item, e: Item, kind: int, p: Priority)
    returns (t: State)
    requires Initial(s0) && x == Item(0, p, x.kind, 0) && e == Item(1, p, kind, 0)
    requires Agrees(x.kind, p)
    ensures Reaches(s0, t, kind, p)
    ensures t.queues == s0.queues.With(p, [x, e]) && t.pending == s0.pending.With(p, 2)
    ensures t.pc == Check && t.status == Running && t.cvCount == 0 && t.local == [] && t.running == None
    ensures 0 in t.unsignalled && t.accepted == [x, e] && t.started == []
  {
    ReachSelf(s0, kind, p);
    var m := ReachEnqueue(s0, s0, x.kind, p, kind, p);
    assert s0.queues.At(p) + [x] == [x];
    assert m.queues.At(p) == [x];
    t := ReachEnqueue(s0, m, kind, p, kind, p);
    assert [x] + [e] == [x, e];
  }

  /** `x` and `e` are taken over in one batch; `x` runs while `e` waits in the private list. */
  lemma {:induction false} HeldBack(s0: State, x: Item, e: Item, kind: int, p: Priority)
    returns (t: State)
    requires Initial(s0) && x == Item(0, p, x.kind, 0) && e == Item(1, p, kind, 0)
    requires p != Crit && Agrees(x.kind, p) && Takes(p, x)
    ensures Reaches(s0, t, kind, p)
    ensures t.pc == Run(p) && t.running.Some? && t.local == [e] && NothingQueued(t)
    ensures t.accepted == [x, e] && t.started == [x]
  {
    t := TwoQueued(s0, x, e, kind, p);
    t := WakeUp(s0, t, 0, kind, p);
    t := PassTo(s0, t, p, kind, p);
    t := ReachStep(s0, t, kind, p);
    assert t.local == [x, e];
    t := ReachStep(s0, t, kind, p);
  }

  /** A CRIT event arrives during a handler, and the poll after the handler jumps to it. */
  lemma {:induction false} JumpToCrit(s: State, t: State, c: Item, kind: int, p: Priority)
    returns (u: State)
    requires Reaches(s, t, kind, p) && t.pc.Run? && t.pc.stage != Crit && t.running.Some?
    requires t.queues.crit == [] && t.pending.crit == 0 && c == Item(|t.accepted|, Crit, 4, 0)
    ensures Reaches(s, u, kind, p)
    ensures u.pc == Splice(Crit) && u.local == t.local && u.running == None
    ensures u.queues == t.queues.(crit := [c]) && u.pending == t.pending.(crit := 1)
    ensures u.accepted == t.accepted + [c] && u.started == t.started
  {
    assert t.queues.crit + [c] == [c];
    u := ReachEnqueue(s, t, 4, Crit, kind, p);
    u := ReachStep(s, u, kind, p);
    u := ReachStep(s, u, kind, p);
  }

  /** ... where it is run next, in front of the private list. */
  lemma {:induction false} InterruptedByCrit(s: State, t: State, e: Item, kind: int, p: Priority)
    returns (u: State)
    requires Reaches(s, t, kind, p) && t.pc.Run? && t.pc.stage != Crit && t.running.Some?
    requires t.queues.crit == [] && t.pending.crit == 0 && t.local == [e]
    ensures Reaches(s, u, kind, p)
    ensures u.pc == Loop(Crit) && u.local == [e] && u.running == None
    ensures u.queues == t.queues && u.pending == t.pending
    ensures u.accepted == t.accepted + [Item(|t.accepted|, Crit, 4, 0)]
    ensures u.started == t.started + [Item(|t.accepted|, Crit, 4, 0)]
  {
    var c := Item(|t.accepted|, Crit, 4, 0);
    u := JumpToCrit(s, t, c, kind, p);
    u := ReachStep(s, u, kind, p);
    assert u.local == [c, e];
    u := ReachStep(s, u, kind, p);
    assert u.local == [e] && u.pc == Run(Crit);
    u := ReachStep(s, u, kind, p);
  }

  /** A NORM or IDLE event that waits in the private list while a higher stage is entered. */
  lemma {:induction false} TakenByAnotherStage(s0: State, kind: int, p: Priority) returns (u: State)
    requires Initial(s0) && (p == Norm || p == Idle) && 2 <= kind <= 4
    ensures Reaches(s0, u, kind, p) && !StageFits(u)
  {
    var x, e := Item(0, p, 0, 0), Item(1, p, kind, 0);
    var t := HeldBack(s0, x, e, kind, p);
    t := InterruptedByCrit(s0, t, e, kind, p);
    t := ReachStep(s0, t, kind, p);
    if kind == 4 {
      u := t;
    } else {
      u := Misrun(s0, t, e, kind, p);
    }
  }

  lemma {:induction false} FitsAlways(s0: State, acts: seq<Action>)
    requires Initial(s0) && Agreeing(acts)
    ensures StageFits(Exec(s0, acts))
  {
    PriorityShape(s0, acts);
  }

  /** The type tests of the program run an event in the stages of its class in every run, whatever
      agreeing events it is mixed with, exactly when its `ev_type` and `ev_priority` agree. */
  lemma {:induction false} StageFitsIff(s0: State, kind: int, p: Priority)
    requires Initial(s0)
    ensures Agrees(kind, p) <==> forall acts :: Admits(acts, kind, p) ==> StageFits(Exec(s0, acts))
  {
    if Agrees(kind, p) {
      forall acts | Admits(acts, kind, p)
        ensures StageFits(Exec(s0, acts))
      {
        assert forall i :: 0 <= i < |acts| ==> Admitted(acts[i], kind, p);
        FitsAlways(s0, acts);
      }
    } else {
      var u: State;
      if Code(p) >= 2 {
        u := SkippedByItsStage(s0, kind, p);
      } else {
        u := TakenByAnotherStage(s0, kind, p);
      }
      assert Reaches(s0, u, kind, p);
    }
  }

  /** Back in stage `p` after the CRIT event, the batch that came meanwhile goes first. */
  lemma {:induction false} NewBatchFirst(s: State, t: State, e: Item, y: Item, p: Priority, kind: int)
    returns (u: State)
    requires p == Emrg || p == High
    requires Reaches(s, t, kind, p) && t.pc == Loop(Crit) && t.local == [e]
    requires e.kind == Code(p) && y.kind == Code(p)
    requires t.queues == Lanes([], [], [], [], []).With(p, [y]) && t.pending == Lanes(0, 0, 0, 0, 0).With(p, 1)
    ensures Reaches(s, u, kind, p)
    ensures u.started == t.started + [y] && u.accepted == t.accepted
  {
    u := ReachStep(s, t, kind, p);
    u := PassEmrg(s, u, p, kind);
    u := ReachStep(s, u, kind, p);
    assert u.local == [y, e];
    u := ReachStep(s, u, kind, p);
  }

  /** EMRG and HIGH are not first-in first-out, even when every dispatch agrees: a second batch
      goes in front of what a CRIT event made the worker leave behind. */
  lemma {:induction false} FrontStagesReorder(s0: State, p: Priority)
    requires Initial(s0) && (p == Emrg || p == High)
    ensures exists acts :: (&& Agreeing(acts)
                            && !(Lane(Exec(s0, acts).started, p) <= Lane(Exec(s0, acts).accepted, p)))
  {
    var k := Code(p);
    var x, e, y := Item(0, p, k, 0), Item(1, p, k, 0), Item(2, p, k, 0);
    var t := HeldBack(s0, x, e, k, p);
    assert t.queues.At(p) + [y] == [y];
    t := ReachEnqueue(s0, t, k, p, k, p);
    t := InterruptedByCrit(s0, t, e, k, p);
    t := NewBatchFirst(s0, t, e, y, p, k);
    Overtaken(t, x, e, y, Item(3, Crit, 4, 0), p);
    var acts :| Admits(acts, k, p) && Exec(s0, acts) == t;
    assert forall i :: 0 <= i < |acts| ==> Admitted(acts[i], k, p);
    assert Agreeing(acts);
  }

  lemma {:induction false} PassEmrg(s: State, t: State, p: Priority, kind: int) returns (u: State)
    requires p == Emrg || p == High
    requires Reaches(s, t, kind, p) && t.pc == Splice(Emrg)
    requires p == High ==> t.queues.emrg == [] && t.pending.emrg == 0
    requires p == High && t.local != [] ==> !Takes(Emrg, t.local[0])
    ensures Reaches(s, u, kind, p)
    ensures u == t.(pc := Splice(p), ratio := u.ratio, high := u.high)
  {
    if p == High {
      u := PassStage(s, t, kind, p);
    } else {
      u := t;
    }
  }

  lemma {:induction false} Overtaken(t: State, x: Item, e: Item, y: Item, c: Item, p: Priority)
    requires t.started == [x, c, y] && t.accepted == [x, e, y, c]
    requires x.prio == e.prio == y.prio == p && c.prio != p && e != y
    ensures !(Lane(t.started, p) <= Lane(t.accepted, p))
  {
    LaneConcat([x], [c, y], p);
    LaneConcat([c], [y], p);
    LaneConcat([x], [e, y, c], p);
    LaneConcat([e], [y, c], p);
    LaneConcat([y], [c], p);
    assert [x] + [c, y] == t.started && [c] + [y] == [c, y];
    assert [x] + [e, y, c] == t.accepted && [e] + [y, c] == [e, y, c] && [y] + [c] == [y, c];
    LanePure([x], p, p);
    LanePure([y], p, p);
    LanePure([e], p, p);
    LanePure([c], c.prio, p);
    assert Lane(t.started, p) == [x, y];
    assert Lane(t.accepted, p) == [x, e, y];
    assert Lane(t.started, p)[1] != Lane(t.accepted, p)[1];
  }
}
