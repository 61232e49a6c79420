/** Order on one worker: shape of the private list, first-in first-out, preemption bounds. */
module SchedulerOrder {
  import opened Wrappers
  import opened Scheduler
  import opened SchedulerInvariants

  // ---- when the ev_type tests of the program mean what ev_priority says

  /** The three stages that test `ev_type` see an event exactly when its priority is theirs. */
  predicate Agrees(kind: int, p: Priority) {
    (kind == 4 <==> p == Crit) && (kind == 3 <==> p == Emrg) && (kind == 2 <==> p == High)
  }

  predicate AgreeAll(xs: seq<Item>) {
    forall i :: 0 <= i < |xs| ==> Agrees(xs[i].kind, xs[i].prio)
  }

  /** A condition each caller can check before its dispatch. */
  predicate AgreeingAction(a: Action) {
    a.Enqueue? && Decode(a.prio).Some? ==> Agrees(a.kind, Decode(a.prio).value)
  }

  predicate Agreeing(acts: seq<Action>) {
    forall i :: 0 <= i < |acts| ==> AgreeingAction(acts[i])
  }

  predicate PureLane(xs: seq<Item>, p: Priority) {
    forall i :: 0 <= i < |xs| ==> xs[i].prio == p
  }

  /** Each queue holds events of its own priority only. */
  predicate Pure(s: State) {
    && PureLane(s.queues.crit, Crit)
    && PureLane(s.queues.emrg, Emrg)
    && PureLane(s.queues.high, High)
    && PureLane(s.queues.norm, Norm)
    && PureLane(s.queues.idle, Idle)
  }

  lemma {:induction false} PureStep(s: State, a: Action)
    requires Pure(s)
    ensures Pure(Apply(s, a))
  {
    match a
    case Enqueue(kind, prio, emit) =>
    case Step =>
      match s.pc {
        case Splice(p) =>
        case _ =>
      }
    case _ =>
  }

  predicate AgreeingState(s: State) {
    && AgreeAll(s.queues.crit) && AgreeAll(s.queues.emrg) && AgreeAll(s.queues.high)
    && AgreeAll(s.queues.norm) && AgreeAll(s.queues.idle) && AgreeAll(s.local)
  }

  lemma {:induction false} AgreeingSplice(s: State, p: Priority)
    requires AgreeingState(s)
    ensures AgreeingState(SpliceStep(s, p))
  {
    assert AgreeAll(s.queues.At(p));
  }

  lemma {:induction false} AgreeingStep(s: State, a: Action)
    requires AgreeingState(s) && AgreeingAction(a)
    ensures AgreeingState(Apply(s, a))
  {
    match a
    case Enqueue(kind, prio, emit) =>
    case Step =>
      match s.pc {
        case Splice(p) => AgreeingSplice(s, p);
        case Loop(p) =>
        case Run(p) =>
        case _ => StillStep(s);
      }
    case _ =>
  }

  // ---- priority shape

  /** NORM and IDLE share one class of the private list. */
  function Rank(p: Priority): int {
    match p
    case Crit => 3
    case Emrg => 2
    case High => 1
    case Norm => 0
    case Idle => 0
  }

  /** The highest class the private list may hold at a program point; -1 means it is empty. */
  function Cap(pc: Pc): int {
    match pc
    case Splice(p) => if p == Crit then 2 else Rank(p)
    case Loop(p) => Rank(p)
    case Run(p) => Rank(p)
    case Poll(p, _) => Rank(p)
    case _ => -1
  }

  predicate Capped(xs: seq<Item>, c: int) {
    forall i :: 0 <= i < |xs| ==> Rank(xs[i].prio) <= c
  }

  /** CRIT* EMRG* HIGH* (NORM or IDLE)* */
  predicate Descending(xs: seq<Item>) {
    forall i, j :: 0 <= i < j < |xs| ==> Rank(xs[i].prio) >= Rank(xs[j].prio)
  }

  predicate Shaped(s: State) {
    && Descending(s.local)
    && Capped(s.local, Cap(s.pc))
    && (s.running.Some? && s.pc.Run? ==> Rank(s.running.value.prio) == Rank(s.pc.stage))
  }

  lemma {:induction false} SpliceShape(s: State, p: Priority)
    requires s.pc == Splice(p) && Shaped(s) && Pure(s) && s.running == None
    ensures Shaped(SpliceStep(s, p))
  {
    assert PureLane(s.queues.At(p), p);
  }

  lemma {:induction false} LoopShape(s: State, p: Priority)
    requires s.pc == Loop(p) && Shaped(s) && AgreeAll(s.local) && s.running == None
    ensures Shaped(LoopStep(s, p))
  {
    if s.local != [] {
      assert Agrees(s.local[0].kind, s.local[0].prio);
      if !Takes(p, s.local[0]) {
        assert Rank(s.local[0].prio) < Rank(p);
      }
    }
  }

  lemma {:induction false} WorkerShape(s: State)
    requires Control(s) && Shaped(s) && Pure(s) && AgreeingState(s)
    ensures Shaped(WorkerStep(s))
  {
    match s.pc
    case Splice(p) => SpliceShape(s, p);
    case Loop(p) => LoopShape(s, p);
    case Run(p) =>
    case _ => StillStep(s);
  }

  lemma {:induction false} ShapeStep(s: State, a: Action)
    requires Control(s) && Shaped(s) && Pure(s) && AgreeingState(s)
    ensures Shaped(Apply(s, a))
  {
    match a
    case Step => WorkerShape(s);
    case _ =>
  }

  predicate Tidy(s: State) {
    Pure(s) && AgreeingState(s) && Shaped(s)
  }

  lemma {:induction false} TidyStep(s: State, a: Action)
    requires Control(s) && Tidy(s) && AgreeingAction(a)
    ensures Tidy(Apply(s, a))
  {
    PureStep(s, a);
    AgreeingStep(s, a);
    ShapeStep(s, a);
  }

  lemma {:induction false} TidyRun(s: State, acts: seq<Action>)
    requires Inv(s) && Tidy(s) && Agreeing(acts)
    ensures Inv(Exec(s, acts)) && Tidy(Exec(s, acts))
  {
    InvRun(s, acts);
    if acts != [] {
      var before := acts[..|acts| - 1];
      TidyRun(s, before);
      TidyStep(Exec(s, before), acts[|acts| - 1]);
    }
  }

  /** Priority shape: in every run whose dispatches agree, the private list is
      CRIT* EMRG* HIGH* (NORM or IDLE)*, bounded by the stage, and a handler that runs in a stage has
      that stage's class, so no NORM or IDLE event runs while a higher one is in the list. */
  lemma {:induction false} PriorityShape(s0: State, acts: seq<Action>)
    requires Initial(s0)
    requires Agreeing(acts)
    ensures var t := Exec(s0, acts);
            && Descending(t.local)
            && Capped(t.local, Cap(t.pc))
            && (t.pc.Run? ==> t.running.Some? && Rank(t.running.value.prio) == Rank(t.pc.stage))
  {
    TidyRun(s0, acts);
  }

  // ---- the handled counters

  function HasRank(r: int): Item -> bool {
    (x: Item) => Rank(x.prio) == r
  }

  /** Each handled counter is the number of finished events of its class. */
  predicate HandledByClass(s: State) {
    && s.handled.crit == Count(s.finished, HasRank(3))
    && s.handled.emrg == Count(s.finished, HasRank(2))
    && s.handled.high == Count(s.finished, HasRank(1))
    && s.handled.norm + s.handled.idle == Count(s.finished, HasRank(0))
  }

  lemma {:induction false} HandledFinish(s: State, p: Priority)
    requires s.pc == Run(p) && Shaped(s) && HandledByClass(s)
    ensures HandledByClass(FinishStep(s, p))
  {
    if s.running.Some? {
      CountConcat(s.finished, [s.running.value], HasRank(3));
      CountConcat(s.finished, [s.running.value], HasRank(2));
      CountConcat(s.finished, [s.running.value], HasRank(1));
      CountConcat(s.finished, [s.running.value], HasRank(0));
    }
  }

  lemma {:induction false} HandledStep(s: State, a: Action)
    requires Shaped(s) && HandledByClass(s)
    ensures HandledByClass(Apply(s, a))
  {
    if a == Step {
      match s.pc
      case Run(p) => HandledFinish(s, p);
      case Loop(_) =>
      case Splice(_) =>
      case _ => StillStep(s);
    }
  }

  /** With agreeing dispatches each handled counter counts the finished events of its class. */
  lemma {:induction false} HandledExact(s0: State, acts: seq<Action>)
    requires Initial(s0) && Agreeing(acts)
    ensures HandledByClass(Exec(s0, acts))
  {
    if acts != [] {
      var before := acts[..|acts| - 1];
      HandledExact(s0, before);
      TidyRun(s0, before);
      HandledStep(Exec(s0, before), acts[|acts| - 1]);
    }
  }

  // ---- first-in first-out

  /** The events of one priority, in order. */
  function Lane(xs: seq<Item>, p: Priority): seq<Item> {
    if xs == [] then [] else (if xs[0].prio == p then [xs[0]] else []) + Lane(xs[1..], p)
  }

  lemma {:induction false} LaneConcat(xs: seq<Item>, ys: seq<Item>, p: Priority)
    ensures Lane(xs + ys, p) == Lane(xs, p) + Lane(ys, p)
  {
    if xs == [] {
      assert xs + ys == ys;
    } else {
      var first := if xs[0].prio == p then [xs[0]] else [];
      assert (xs + ys)[0] == xs[0] && (xs + ys)[1..] == xs[1..] + ys;
      LaneConcat(xs[1..], ys, p);
      assert first + (Lane(xs[1..], p) + Lane(ys, p)) == first + Lane(xs[1..], p) + Lane(ys, p);
    }
  }

  lemma {:induction false} LanePure(xs: seq<Item>, q: Priority, p: Priority)
    requires PureLane(xs, q)
    ensures Lane(xs, p) == if p == q then xs else []
  {
    if xs != [] {
      LanePure(xs[1..], q, p);
    }
  }

  lemma {:induction false} LaneAbsent(xs: seq<Item>, p: Priority, c: int)
    requires Capped(xs, c) && c < Rank(p)
    ensures Lane(xs, p) == []
  {
    if xs != [] {
      LaneAbsent(xs[1..], p, c);
    }
  }

  lemma {:induction false} Lane3(a: seq<Item>, b: seq<Item>, c: seq<Item>, p: Priority)
    ensures Lane(a + b + c, p) == Lane(a, p) + Lane(b, p) + Lane(c, p)
  {
    LaneConcat(a + b, c, p);
    LaneConcat(a, b, p);
  }

  /** Inserting events of other priorities on either side of `b` does not show. */
  lemma {:induction false} InsertForeign(a: seq<Item>, b: seq<Item>, c: seq<Item>, f: seq<Item>, p: Priority)
    requires Lane(f, p) == []
    ensures Lane(a + (b + f) + c, p) == Lane(a + b + c, p) == Lane(a + (f + b) + c, p)
  {
    Lane3(a, b + f, c, p);
    Lane3(a, f + b, c, p);
    Lane3(a, b, c, p);
    LaneConcat(b, f, p);
    LaneConcat(f, b, p);
  }

  /** Moving a batch in front of `b` shows exactly as far as `b` holds events of the priority. */
  lemma {:induction false} SwapBatch(a: seq<Item>, b: seq<Item>, f: seq<Item>, p: Priority)
    ensures Lane(a + (f + b) + [], p) == Lane(a, p) + (Lane(f, p) + Lane(b, p))
    ensures Lane(a + b + f, p) == Lane(a, p) + (Lane(b, p) + Lane(f, p))
  {
    Lane3(a, f + b, [], p);
    LaneConcat(f, b, p);
    Lane3(a, b, f, p);
    assert Lane(a, p) + Lane(b, p) + Lane(f, p) == Lane(a, p) + (Lane(b, p) + Lane(f, p));
    assert Lane(a, p) + (Lane(f, p) + Lane(b, p)) + [] == Lane(a, p) + (Lane(f, p) + Lane(b, p));
  }

  /** The order in which the worker has started and would start the events it holds. */
  function Line(s: State, p: Priority): seq<Item> {
    s.started + s.local + s.queues.At(p)
  }

  /** Started, then private, then queued events of priority `p` are the accepted ones in order. */
  predicate InOrder(s: State, p: Priority) {
    Lane(Line(s, p), p) == Lane(s.accepted, p)
  }

  lemma {:induction false} EnqueueInOrder(s: State, kind: int, prio: int, emit: nat, p: Priority)
    requires InOrder(s, p)
    ensures InOrder(EnqueueStep(s, kind, prio, emit), p)
  {
    if Decode(prio).Some? {
      var it := Item(|s.accepted|, Decode(prio).value, kind, emit);
      LaneConcat(s.accepted, [it], p);
      if it.prio == p {
        LaneConcat(Line(s, p), [it], p);
        assert Line(EnqueueStep(s, kind, prio, emit), p) == Line(s, p) + [it];
      } else {
        LanePure([it], it.prio, p);
      }
    }
  }

  lemma {:induction false} SpliceOther(s: State, q: Priority, p: Priority)
    requires InOrder(s, p) && PureLane(s.queues.At(q), q) && q != p
    ensures InOrder(SpliceStep(s, q), p)
  {
    LanePure(s.queues.At(q), q, p);
    InsertForeign(s.started, s.local, s.queues.At(p), s.queues.At(q), p);
  }

  lemma {:induction false} SpliceBack(s: State, p: Priority)
    requires InOrder(s, p) && (p == Norm || p == Idle)
    ensures InOrder(SpliceStep(s, p), p)
  {
    assert Line(SpliceStep(s, p), p) == Line(s, p);
  }

  lemma {:induction false} SpliceFront(s: State, p: Priority)
    requires InOrder(s, p) && p != Norm && p != Idle && (Lane(s.local, p) == [] || s.queues.At(p) == [])
    ensures InOrder(SpliceStep(s, p), p)
  {
    SwapBatch(s.started, s.local, s.queues.At(p), p);
  }

  /** A splice in front finds both a batch and leftovers of its priority. */
  predicate Meets(s: State, a: Action, p: Priority) {
    && a.Step? && s.pc == Splice(p) && p != Norm && p != Idle
    && s.queues.At(p) != [] && Lane(s.local, p) != []
  }

  /** The splice of stage `q` keeps the order of `p`: always at the back, and at the front unless a
      batch meets leftovers. */
  lemma {:induction false} SpliceInOrder(s: State, q: Priority, p: Priority)
    requires InOrder(s, p) && PureLane(s.queues.At(q), q)
    requires q == p ==> p == Norm || p == Idle || Lane(s.local, p) == [] || s.queues.At(p) == []
    ensures InOrder(SpliceStep(s, q), p)
  {
    if q != p {
      SpliceOther(s, q, p);
    } else if p == Norm || p == Idle {
      SpliceBack(s, p);
    } else {
      SpliceFront(s, p);
    }
  }

  lemma {:induction false} LoopInOrder(s: State, q: Priority, p: Priority)
    requires InOrder(s, p)
    ensures InOrder(LoopStep(s, q), p)
  {
    assert Line(LoopStep(s, q), p) == Line(s, p);
  }

  lemma {:induction false} SameLine(s: State, a: Action, p: Priority)
    requires !a.Enqueue?
    requires a.Step? ==> !s.pc.Splice? && !s.pc.Loop?
    ensures Line(Apply(s, a), p) == Line(s, p) && Apply(s, a).accepted == s.accepted
  {
  }

  lemma {:induction false} InOrderStep(s: State, a: Action, p: Priority)
    requires InOrder(s, p) && Pure(s)
    requires !Meets(s, a, p)
    ensures InOrder(Apply(s, a), p)
  {
    match a
    case Enqueue(kind, prio, emit) => EnqueueInOrder(s, kind, prio, emit, p);
    case Step =>
      match s.pc {
        case Splice(q) => SpliceInOrder(s, q, p);
        case Loop(q) => LoopInOrder(s, q, p);
        case _ => SameLine(s, a, p);
      }
    case _ => SameLine(s, a, p);
  }

  /** For NORM and IDLE no condition on the events is needed; for CRIT the dispatches must agree. */
  ghost predicate Ordered(s: State, acts: seq<Action>, p: Priority) {
    && Pure(s) && InOrder(s, p)
    && (p == Norm || p == Idle || (p == Crit && Inv(s) && Tidy(s) && Agreeing(acts)))
  }

  lemma {:induction false} OrderRun(s: State, acts: seq<Action>, p: Priority)
    requires Ordered(s, acts, p)
    ensures Pure(Exec(s, acts)) && InOrder(Exec(s, acts), p)
  {
    if acts != [] {
      var before := acts[..|acts| - 1];
      OrderRun(s, before, p);
      var u := Exec(s, before);
      if p == Crit {
        TidyRun(s, before);
        NoCritAtSplice(u);
      }
      PureStep(u, acts[|acts| - 1]);
      InOrderStep(u, acts[|acts| - 1], p);
    }
  }

  lemma {:induction false} OrderedAtStart(s0: State, acts: seq<Action>, p: Priority)
    requires Initial(s0)
    requires p == Norm || p == Idle || (p == Crit && Agreeing(acts))
    ensures Ordered(s0, acts, p)
  {
  }

  lemma {:induction false} NoCritAtSplice(s: State)
    requires Shaped(s)
    ensures s.pc == Splice(Crit) ==> Lane(s.local, Crit) == []
  {
    if s.pc == Splice(Crit) {
      LaneAbsent(s.local, Crit, 2);
    }
  }

  /** First-in first-out: the events of this priority start in the order they were accepted. */
  lemma {:induction false} FirstInFirstOut(s0: State, acts: seq<Action>, p: Priority)
    requires Initial(s0)
    requires p == Norm || p == Idle || (p == Crit && Agreeing(acts))
    ensures var t := Exec(s0, acts); Lane(t.started, p) <= Lane(t.accepted, p)
  {
    OrderedAtStart(s0, acts, p);
    OrderRun(s0, acts, p);
    StartedPrefix(Exec(s0, acts), p);
  }

  lemma {:induction false} StartedPrefix(s: State, p: Priority)
    requires InOrder(s, p)
    ensures Lane(s.started, p) <= Lane(s.accepted, p)
  {
    Lane3(s.started, s.local, s.queues.At(p), p);
  }

  lemma {:induction false} LaneFrom(xs: seq<Item>, p: Priority)
    ensures forall x :: x in Lane(xs, p) ==> x in xs
  {
    if xs != [] {
      LaneFrom(xs[1..], p);
    }
  }

  /** Two sequences without a common element commute only if one is empty. */
  lemma {:induction false} Commute(a: seq<Item>, x: seq<Item>, y: seq<Item>)
    requires forall u :: u in x ==> u !in y
    ensures a + (x + y) == a + (y + x) <==> x == [] || y == []
  {
    if x == [] || y == [] {
      assert x + y == y + x;
    } else {
      assert (a + (x + y))[|a|] == x[0];
      assert (a + (y + x))[|a|] == y[0];
      assert x[0] in x;
    }
  }

  /** EMRG and HIGH: a splice keeps the order exactly when the new batch or the leftovers of the
      preempted one are empty. */
  lemma {:induction false} FrontSpliceOrder(s: State, p: Priority)
    requires p == Emrg || p == High
    requires InOrder(s, p) && PureLane(s.queues.At(p), p)
    requires forall x :: x in s.local ==> x !in s.queues.At(p)
    ensures InOrder(SpliceStep(s, p), p) <==> Lane(s.local, p) == [] || s.queues.At(p) == []
  {
    SwapBatch(s.started, s.local, s.queues.At(p), p);
    LanePure(s.queues.At(p), p, p);
    LaneFrom(s.local, p);
    Commute(Lane(s.started, p), s.queues.At(p), Lane(s.local, p));
  }

  // ---- preemption

  function IsBelow(p: Priority): Item -> bool {
    (x: Item) => Code(x.prio) < Code(p)
  }

  /** How many events of `xs` are below priority `p`. */
  function CountBelow(xs: seq<Item>, p: Priority): nat {
    Count(xs, IsBelow(p))
  }

  /** An upper bound, read off the program point, on the events below `p` (CRIT or EMRG) that can
      still start before the queue of `p` is spliced, once an event of `p` is counted pending. */
  function Budget(p: Priority, pc: Pc): nat {
    match pc
    case Splice(q) => if Code(q) >= Code(p) then 0 else 1
    case Loop(q) => if Code(q) > Code(p) then 0 else 1
    case Run(q) => if q == p then 1 else 0
    case Poll(q, r) => if q == p || (Code(q) < Code(p) && Code(r) < Code(p)) then 1 else 0
    case Break(r) => if Code(r) >= Code(p) then 0 else 1
    case _ => 0
  }

  /** No action of the run splices the queue of `p`. */
  predicate Avoids(s: State, acts: seq<Action>, p: Priority) {
    acts == []
    || (var before := acts[..|acts| - 1];
        && Avoids(s, before, p)
        && !(acts[|acts| - 1] == Step && Exec(s, before).pc == Splice(p)))
  }

  lemma {:induction false} PreemptLoop(s: State, p: Priority)
    requires p == Crit || p == Emrg
    requires s.pc.Loop? && AgreeAll(s.local)
    ensures var t := WorkerStep(s);
            CountBelow(t.started, p) + Budget(p, t.pc) <= CountBelow(s.started, p) + Budget(p, s.pc)
  {
    if s.local != [] && Takes(s.pc.stage, s.local[0]) {
      assert Agrees(s.local[0].kind, s.local[0].prio);
      CountConcat(s.started, [s.local[0]], IsBelow(p));
    }
  }

  lemma {:induction false} PreemptWorker(s: State, p: Priority)
    requires p == Crit || p == Emrg
    requires Control(s) && s.pending.At(p) > 0 && s.pc != Splice(p) && !s.pc.Loop?
    ensures var t := WorkerStep(s);
            t.started == s.started && Budget(p, t.pc) <= Budget(p, s.pc) && t.pending.At(p) > 0
  {
  }

  lemma {:induction false} PreemptStep(s: State, a: Action, p: Priority)
    requires p == Crit || p == Emrg
    requires Control(s) && Counted(s) && Tidy(s)
    requires s.pending.At(p) > 0 && !(a == Step && s.pc == Splice(p))
    ensures var t := Apply(s, a);
            && t.pending.At(p) > 0
            && CountBelow(t.started, p) + Budget(p, t.pc) <= CountBelow(s.started, p) + Budget(p, s.pc)
  {
    if a == Step {
      if s.pc.Loop? { PreemptLoop(s, p); } else { PreemptWorker(s, p); }
    }
  }

  /** Preemption bound: once an event of CRIT (or EMRG) is counted pending, at every later moment
      before its stage begins at most `Budget` further events below it have started. */
  lemma {:induction false} PreemptRun(s: State, acts: seq<Action>, p: Priority)
    requires p == Crit || p == Emrg
    requires Inv(s) && Tidy(s) && Agreeing(acts)
    requires s.pending.At(p) > 0 && Avoids(s, acts, p)
    ensures var t := Exec(s, acts);
            && t.pending.At(p) > 0
            && CountBelow(t.started, p) + Budget(p, t.pc) <= CountBelow(s.started, p) + Budget(p, s.pc)
  {
    if acts != [] {
      var before := acts[..|acts| - 1];
      PreemptRun(s, before, p);
      TidyRun(s, before);
      PreemptStep(Exec(s, before), acts[|acts| - 1], p);
    }
  }

  lemma {:induction false} BudgetAtMostOne(p: Priority, s: State)
    ensures Budget(p, s.pc) <= 1
    ensures s.pc.Run? && s.pc.stage != p ==> Budget(p, s.pc) == 0
  {
  }

  ghost predicate Preempting(s: State, acts: seq<Action>, p: Priority) {
    Inv(s) && Tidy(s) && Agreeing(acts) && s.pending.At(p) > 0 && Avoids(s, acts, p)
  }

  lemma {:induction false} PreemptFrom(s: State, acts: seq<Action>, p: Priority)
    requires p == Crit || p == Emrg
    requires Preempting(s, acts, p)
    ensures CountBelow(Exec(s, acts).started, p) <= CountBelow(s.started, p) + 1
    ensures s.pc.Run? && s.pc.stage != p ==>
      CountBelow(Exec(s, acts).started, p) <= CountBelow(s.started, p)
  {
    BudgetAtMostOne(p, s);
    PreemptRun(s, acts, p);
  }

  /** The bound over whole runs: after any history `pre`, with an event of CRIT or EMRG counted
      pending, at most one event below it starts before its stage, and none at all when the
      handler of another stage is still running. */
  lemma {:induction false} PreemptionBound(s0: State, pre: seq<Action>, acts: seq<Action>, p: Priority)
    requires Initial(s0)
    requires p == Crit || p == Emrg
    requires Agreeing(pre) && Agreeing(acts)
    requires Exec(s0, pre).pending.At(p) > 0 && Avoids(Exec(s0, pre), acts, p)
    ensures var s := Exec(s0, pre);
            var t := Exec(s, acts);
            && CountBelow(t.started, p) <= CountBelow(s.started, p) + 1
            && (s.pc.Run? && s.pc.stage != p ==> CountBelow(t.started, p) <= CountBelow(s.started, p))
  {
    TidyRun(s0, pre);
    PreemptFrom(Exec(s0, pre), acts, p);
  }
}
