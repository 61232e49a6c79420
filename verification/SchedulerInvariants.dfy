/** Safety over every run: control state, exactly-once conservation, wake-up coverage, shutdown. */
module SchedulerInvariants {
  import opened Wrappers
  import opened Scheduler

  // ---- control and counters

  predicate WorkerIdle(pc: Pc) {
    pc.Check? || pc.Wait? || pc.Blocked? || pc.Break? || pc.Exit?
  }

  /** What the program points say about the rest of the state. */
  ghost predicate Control(s: State) {
    && (s.pc.Poll? ==> Code(s.pc.probe) > Code(s.pc.stage))
    && (s.running.Some? <==> s.pc.Run?)
    && 0 <= s.cvCount <= 1
    && (s.woken <==> s.pc == Blocked && s.cvCount == 1)
    && (WorkerIdle(s.pc) ==> s.local == [])
    && (s.pc.Break? ==> s.status == Stop)
    && (s.pc.Exit? <==> s.status == Zero)
  }

  /** Each pending counter is the length of its queue whenever the lock is free. */
  ghost predicate Counted(s: State) {
    && s.pending.crit == |s.queues.crit|
    && s.pending.emrg == |s.queues.emrg|
    && s.pending.high == |s.queues.high|
    && s.pending.norm == |s.queues.norm|
    && s.pending.idle == |s.queues.idle|
  }

  lemma {:induction false} ControlStep(s: State, a: Action)
    requires Control(s) && Counted(s)
    ensures Control(Apply(s, a))
  {
  }

  lemma {:induction false} CountedStep(s: State, a: Action)
    requires Counted(s)
    ensures Counted(Apply(s, a))
  {
    match a
    case Enqueue(kind, prio, emit) =>
      match Decode(prio) {
        case Some(p) => 
        case None =>
      }
    case Step =>
      match s.pc {
        case Splice(p) =>
        case Poll(p, q) =>
        case _ =>
      }
    case _ =>
  }

  // ---- conservation

  function Count(xs: seq<Item>, f: Item -> bool): nat {
    if xs == [] then 0 else (if f(xs[0]) then 1 else 0) + Count(xs[1..], f)
  }

  lemma {:induction false} CountConcat(xs: seq<Item>, ys: seq<Item>, f: Item -> bool)
    ensures Count(xs + ys, f) == Count(xs, f) + Count(ys, f)
  {
    if xs == [] {
      assert xs + ys == ys;
    } else {
      assert (xs + ys)[1..] == xs[1..] + ys;
      CountConcat(xs[1..], ys, f);
    }
  }

  function CountLanes(q: Lanes<seq<Item>>, f: Item -> bool): nat {
    Count(q.crit, f) + Count(q.emrg, f) + Count(q.high, f) + Count(q.norm, f) + Count(q.idle, f)
  }

  function RunningItems(s: State): seq<Item> {
    if s.running.Some? then [s.running.value] else []
  }

  /** How many items with property `f` are queued, in the private list, running or finished. */
  function Placed(s: State, f: Item -> bool): nat {
    CountLanes(s.queues, f) + Count(s.local, f) + Count(RunningItems(s), f) + Count(s.finished, f)
  }

  ghost predicate History(s: State) {
    && (forall i :: 0 <= i < |s.accepted| ==> s.accepted[i].ticket == i)
    && s.started == s.finished + RunningItems(s)
    && s.handled.crit + s.handled.emrg + s.handled.high + s.handled.norm + s.handled.idle
       == |s.finished|
  }

  lemma {:induction false} HistoryStep(s: State, a: Action)
    requires Control(s) && History(s)
    ensures History(Apply(s, a))
  {
    var t := Apply(s, a);
    if a.Enqueue? && Decode(a.prio).Some? {
      assert t.accepted[|s.accepted|].ticket == |s.accepted|;
    }
  }

  lemma {:induction false} CountLanesWith(q: Lanes<seq<Item>>, p: Priority, v: seq<Item>, f: Item -> bool)
    ensures CountLanes(q.With(p, v), f) == CountLanes(q, f) - Count(q.At(p), f) + Count(v, f)
  {
  }

  lemma {:induction false} EnqueueConserves(s: State, kind: int, prio: int, emit: nat, f: Item -> bool)
    requires Placed(s, f) == Count(s.accepted, f)
    ensures var t := EnqueueStep(s, kind, prio, emit); Placed(t, f) == Count(t.accepted, f)
  {
    if Decode(prio).Some? {
      var p := Decode(prio).value;
      var it := Item(|s.accepted|, p, kind, emit);
      CountConcat(s.queues.At(p), [it], f);
      CountLanesWith(s.queues, p, s.queues.At(p) + [it], f);
      CountConcat(s.accepted, [it], f);
    }
  }

  lemma {:induction false} SpliceConserves(s: State, p: Priority, f: Item -> bool)
    ensures Placed(SpliceStep(s, p), f) == Placed(s, f)
  {
    CountConcat(s.queues.At(p), s.local, f);
    CountConcat(s.local, s.queues.At(p), f);
  }

  lemma {:induction false} LoopConserves(s: State, p: Priority, f: Item -> bool)
    requires s.running == None
    ensures Placed(LoopStep(s, p), f) == Placed(s, f)
  {
    if s.local != [] && Takes(p, s.local[0]) {
      assert Count(s.local, f) == Count([s.local[0]], f) + Count(s.local[1..], f);
      assert RunningItems(LoopStep(s, p)) == [s.local[0]];
    }
  }

  lemma {:induction false} FinishConserves(s: State, p: Priority, f: Item -> bool)
    ensures Placed(FinishStep(s, p), f) == Placed(s, f)
  {
    if s.running.Some? {
      CountConcat(s.finished, [s.running.value], f);
    }
  }

  /** Reads, jumps, waits and wake-ups move no event. */
  lemma {:induction false} StillStep(s: State)
    requires !s.pc.Splice? && !s.pc.Loop? && !s.pc.Run?
    ensures var t := WorkerStep(s);
            && t.queues == s.queues && t.pending == s.pending && t.handled == s.handled
            && t.local == s.local && t.running == s.running && t.accepted == s.accepted
            && t.started == s.started && t.finished == s.finished
  {
  }

  lemma {:induction false} WorkerConserves(s: State, f: Item -> bool)
    requires Control(s)
    ensures Placed(WorkerStep(s), f) == Placed(s, f)
    ensures WorkerStep(s).accepted == s.accepted
  {
    match s.pc
    case Loop(p) => LoopConserves(s, p, f);
    case Run(p) => FinishConserves(s, p, f);
    case Splice(p) => SpliceConserves(s, p, f);
    case _ => StillStep(s);
  }

  lemma {:induction false} ConservedStep(s: State, a: Action, f: Item -> bool)
    requires Control(s)
    requires Placed(s, f) == Count(s.accepted, f)
    ensures Placed(Apply(s, a), f) == Count(Apply(s, a).accepted, f)
  {
    match a
    case Enqueue(kind, prio, emit) => EnqueueConserves(s, kind, prio, emit, f);
    case Step => WorkerConserves(s, f);
    case _ =>
  }

  // ---- wake-up coverage

  /** Will the worker splice queue `p` before it can wait again? */
  predicate WillSplice(pc: Pc, p: Priority) {
    match pc
    case Splice(q) => Code(p) <= Code(q)
    case Loop(q) => Code(p) < Code(q)
    case Run(q) => Code(p) < Code(q)
    case Poll(q, _) => Code(p) < Code(q)
    case _ => false
  }

  ghost predicate CoveredLane(s: State, p: Priority, xs: seq<Item>) {
    || s.cvCount == 1
    || WillSplice(s.pc, p)
    || forall i :: 0 <= i < |xs| ==> xs[i].ticket in s.unsignalled
  }

  /** Each queued event is covered by a raised signal, by a worker that will still splice its
      queue, or by a dispatcher that has not signalled yet. */
  ghost predicate Covered(s: State) {
    && CoveredLane(s, Crit, s.queues.crit)
    && CoveredLane(s, Emrg, s.queues.emrg)
    && CoveredLane(s, High, s.queues.high)
    && CoveredLane(s, Norm, s.queues.norm)
    && CoveredLane(s, Idle, s.queues.idle)
  }

  lemma {:induction false} EnqueueCovers(s: State, kind: int, prio: int, emit: nat)
    requires Covered(s)
    ensures Covered(EnqueueStep(s, kind, prio, emit))
  {
  }

  lemma {:induction false} SpliceCovers(s: State, p: Priority)
    requires s.pc == Splice(p) && Covered(s)
    ensures Covered(SpliceStep(s, p))
  {
  }

  lemma {:induction false} JumpCovers(s: State)
    requires s.pc.Poll? || s.pc.Break?
    requires Control(s) && Covered(s)
    ensures Covered(WorkerStep(s))
  {
  }

  lemma {:induction false} WorkerCovers(s: State)
    requires Control(s) && Covered(s)
    ensures Covered(WorkerStep(s))
  {
    match s.pc
    case Splice(p) => SpliceCovers(s, p);
    case Poll(p, q) => JumpCovers(s);
    case Break(q) => JumpCovers(s);
    case _ =>
  }

  lemma {:induction false} CoveredStep(s: State, a: Action)
    requires Control(s) && Covered(s)
    ensures Covered(Apply(s, a))
  {
    match a
    case Enqueue(kind, prio, emit) => EnqueueCovers(s, kind, prio, emit);
    case Step => WorkerCovers(s);
    case Signal(t) =>
    case _ =>
  }

  // ---- shutdown

  /** Only events accepted after STOP are queued here. */
  predicate OnlyLate(xs: seq<Item>, s: State) {
    && (forall i :: 0 <= i < |xs| ==> xs[i].ticket >= s.early)
    && (s.early == |s.accepted| ==> xs == [])
  }

  /** The queues that the shutdown has polled and passed stay free of events accepted before STOP. */
  ghost predicate Draining(s: State) {
    && s.early <= |s.accepted|
    && (s.status == Running ==> s.early == |s.accepted|)
    && (s.pc.Break? ==>
          && (Code(s.pc.probe) < 4 ==> OnlyLate(s.queues.crit, s))
          && (Code(s.pc.probe) < 3 ==> OnlyLate(s.queues.emrg, s))
          && (Code(s.pc.probe) < 2 ==> OnlyLate(s.queues.high, s))
          && (Code(s.pc.probe) < 1 ==> OnlyLate(s.queues.norm, s)))
    && (s.pc.Exit? ==> AllLate(s))
  }

  ghost predicate AllLate(s: State) {
    && OnlyLate(s.queues.crit, s) && OnlyLate(s.queues.emrg, s) && OnlyLate(s.queues.high, s)
    && OnlyLate(s.queues.norm, s) && OnlyLate(s.queues.idle, s)
  }

  lemma {:induction false} EnqueueDrains(s: State, kind: int, prio: int, emit: nat)
    requires Control(s) && Draining(s)
    ensures Draining(EnqueueStep(s, kind, prio, emit))
  {
  }

  lemma {:induction false} BreakDrains(s: State, q: Priority)
    requires s.pc == Break(q) && Control(s) && Counted(s) && Draining(s)
    ensures Draining(BreakStep(s, q))
  {
  }

  lemma {:induction false} WorkerDrains(s: State)
    requires Control(s) && Counted(s) && Draining(s)
    ensures Draining(WorkerStep(s))
  {
    match s.pc
    case Break(q) => BreakDrains(s, q);
    case Poll(p, q) => StillStep(s);
    case _ =>
  }

  lemma {:induction false} DrainingStep(s: State, a: Action)
    requires Control(s) && Counted(s) && Draining(s)
    ensures Draining(Apply(s, a))
  {
    match a
    case Enqueue(kind, prio, emit) => EnqueueDrains(s, kind, prio, emit);
    case Step => WorkerDrains(s);
    case _ =>
  }

  // ---- every run

  ghost predicate Inv(s: State) {
    Control(s) && Counted(s) && History(s) && Covered(s) && Draining(s)
  }

  lemma {:induction false} InvStep(s: State, a: Action)
    requires Inv(s)
    ensures Inv(Apply(s, a))
  {
    ControlStep(s, a);
    CountedStep(s, a);
    HistoryStep(s, a);
    CoveredStep(s, a);
    DrainingStep(s, a);
  }

  lemma {:induction false} InvRun(s: State, acts: seq<Action>)
    requires Inv(s)
    ensures Inv(Exec(s, acts))
  {
    if acts != [] {
      InvRun(s, acts[..|acts| - 1]);
      InvStep(Exec(s, acts[..|acts| - 1]), acts[|acts| - 1]);
    }
  }

  lemma {:induction false} Always(s0: State, acts: seq<Action>)
    requires Initial(s0)
    ensures Inv(Exec(s0, acts))
  {
    InvRun(s0, acts);
  }

  lemma {:induction false} Conservation(s0: State, acts: seq<Action>, f: Item -> bool)
    requires Initial(s0)
    ensures var t := Exec(s0, acts); Placed(t, f) == Count(t.accepted, f)
  {
    if acts != [] {
      var before := acts[..|acts| - 1];
      Conservation(s0, before, f);
      Always(s0, before);
      ConservedStep(Exec(s0, before), acts[|acts| - 1], f);
    }
  }

  function Is(y: Item): Item -> bool {
    x => x == y
  }

  lemma {:induction false} CountOnce(xs: seq<Item>, y: Item)
    requires forall i, j :: 0 <= i < j < |xs| ==> xs[i].ticket != xs[j].ticket
    ensures Count(xs, Is(y)) == if y in xs then 1 else 0
  {
    if xs != [] {
      CountOnce(xs[1..], y);
      if xs[0] == y {
        assert forall i :: 0 < i < |xs| ==> xs[i].ticket != y.ticket;
      }
    }
  }

  /** Exactly-once conservation: in every run each accepted dispatch is in exactly one place, once,
      and nothing else is in any place. */
  lemma {:induction false} ExactlyOnce(s0: State, acts: seq<Action>, y: Item)
    requires Initial(s0)
    ensures var t := Exec(s0, acts); Placed(t, Is(y)) == if y in t.accepted then 1 else 0
  {
    var t := Exec(s0, acts);
    Always(s0, acts);
    Conservation(s0, acts, Is(y));
    CountOnce(t.accepted, y);
  }

  /** Counters agree with the queues, and the handled counters sum to the finished events. */
  lemma {:induction false} CountersExact(s0: State, acts: seq<Action>, p: Priority)
    requires Initial(s0)
    ensures var t := Exec(s0, acts);
            && t.pending.At(p) == |t.queues.At(p)|
            && t.handled.crit + t.handled.emrg + t.handled.high + t.handled.norm + t.handled.idle
               == |t.finished|
            && t.started == t.finished + RunningItems(t)
  {
    Always(s0, acts);
  }

  /** No lost wake-up: a worker asleep without a notification has only unsignalled events queued,
      however many signals were merged into one. */
  lemma {:induction false} NoLostWakeup(s0: State, acts: seq<Action>, p: Priority, it: Item)
    requires Initial(s0)
    requires var t := Exec(s0, acts); t.pc == Blocked && !t.woken && it in t.queues.At(p)
    ensures it.ticket in Exec(s0, acts).unsignalled
  {
    Always(s0, acts);
  }

  lemma {:induction false} CountLate(xs: seq<Item>, n: nat, y: Item)
    requires forall i :: 0 <= i < |xs| ==> xs[i].ticket >= n
    requires y.ticket < n
    ensures Count(xs, Is(y)) == 0
  {
    if xs != [] {
      CountLate(xs[1..], n, y);
    }
  }

  lemma {:induction false} LanesLate(s: State, y: Item)
    requires AllLate(s) && y.ticket < s.early
    ensures CountLanes(s.queues, Is(y)) == 0
  {
    CountLate(s.queues.crit, s.early, y);
    CountLate(s.queues.emrg, s.early, y);
    CountLate(s.queues.high, s.early, y);
    CountLate(s.queues.norm, s.early, y);
    CountLate(s.queues.idle, s.early, y);
  }

  /** Shutdown drain: a worker at its final teardown has run each event it accepted before STOP
      exactly once, whatever was dispatched later; with no dispatch after STOP, that is every
      event it ever accepted, and nothing is queued. */
  lemma {:induction false} ShutdownDrain(s0: State, acts: seq<Action>, y: Item)
    requires Initial(s0) && Exec(s0, acts).pc == Exit
    ensures var t := Exec(s0, acts);
            && (y in t.accepted && y.ticket < t.early ==> Count(t.finished, Is(y)) == 1)
            && (t.early == |t.accepted| ==>
                  && t.queues == Lanes([], [], [], [], [])
                  && Count(t.finished, Is(y)) == if y in t.accepted then 1 else 0)
  {
    Always(s0, acts);
    ExactlyOnce(s0, acts, y);
    if y.ticket < Exec(s0, acts).early {
      LanesLate(Exec(s0, acts), y);
    }
  }
}
