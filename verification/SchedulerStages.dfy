/**
 What the stages do with one another: which stage is left for which, what the NORM ratio is at each check,
 and which stage a finished event is counted for.
 */
module SchedulerStages {
  import opened Wrappers
  import opened Scheduler
  import opened SchedulerInvariants
  import opened SchedulerProgress

  // ---- the IDLE stage yields

  /** No action of the run takes over a queue. */
  predicate BeforeSplice(s: State, acts: seq<Action>) {
    acts == []
    || (var before := acts[..|acts| - 1];
        BeforeSplice(s, before) && !(acts[|acts| - 1] == Step && Exec(s, before).pc.Splice?))
  }

  predicate InIdleStage(pc: Pc) {
    pc == Loop(Idle) || pc == Run(Idle) || (pc.Poll? && pc.stage == Idle)
  }

  /** From the IDLE stage the worker comes to a higher stage, at once or by way of the wait. */
  predicate LeavingIdle(pc: Pc) {
    match pc
    case Splice(r) => r != Idle
    case Break(r) => true
    case Check => true
    case Wait => true
    case Blocked => true
    case _ => InIdleStage(pc)
  }

  /** In the handler, or at a read of a counter down to that of `q`. */
  predicate Asking(p: Priority, q: Priority, pc: Pc) {
    pc == Run(p) || (pc.Poll? && pc.stage == p && Code(pc.probe) >= Code(q))
  }

  /** One event may start where the counter of `q` has been read already, or is not read before. */
  function IdleBudget(q: Priority, pc: Pc): nat {
    if pc == Loop(Idle) || (pc.Poll? && Code(pc.probe) < Code(q)) then 1 else 0
  }

  /** After the main loop, `q` is still to be read. */
  predicate StillRead(q: Priority, pc: Pc) {
    pc.Break? ==> Code(pc.probe) >= Code(q)
  }

  ghost predicate Yielding(s: State, q: Priority) {
    s.pending.At(q) > 0 && LeavingIdle(s.pc) && StillRead(q, s.pc)
  }

  ghost predicate YieldedBy(s: State, t: State, q: Priority) {
    && Yielding(t, q)
    && |t.started| + IdleBudget(q, t.pc) <= |s.started| + IdleBudget(q, s.pc)
    && (Asking(Idle, q, s.pc) ==>
          Asking(Idle, q, t.pc) || (t.pc.Splice? && Code(t.pc.stage) >= Code(q)))
  }

  lemma {:induction false} IdlePollYields(s: State, q: Priority)
    requires q == High || q == Norm
    requires Control(s) && Yielding(s, q) && s.pc.Poll?
    ensures YieldedBy(s, WorkerStep(s), q)
  {
    StillStep(s);
  }

  lemma {:induction false} IdleBreakYields(s: State, q: Priority)
    requires q == High || q == Norm
    requires Control(s) && Yielding(s, q) && s.pc.Break?
    ensures YieldedBy(s, WorkerStep(s), q)
  {
    StillStep(s);
  }

  lemma {:induction false} IdleYieldsStep(s: State, a: Action, q: Priority)
    requires q == High || q == Norm
    requires Control(s) && Yielding(s, q) && !(a == Step && s.pc.Splice?)
    ensures YieldedBy(s, Apply(s, a), q)
  {
    if a == Step {
      match s.pc
      case Poll(_, _) => IdlePollYields(s, q);
      case Break(_) => IdleBreakYields(s, q);
      case _ =>
    }
  }

  /** The IDLE stage yields to HIGH and to NORM: with such an event counted pending, in any interleaving up
      to the next splice, the IDLE stage starts at most one more event, and none from a running handler or
      from a read that has not passed the counter; from there the stage entered is that one or a higher. */
  lemma {:induction false} IdleYields(s: State, acts: seq<Action>, q: Priority)
    requires q == High || q == Norm
    requires Inv(s) && InIdleStage(s.pc) && s.pending.At(q) > 0 && BeforeSplice(s, acts)
    ensures var t := Exec(s, acts);
            && t.pending.At(q) > 0 && LeavingIdle(t.pc)
            && |t.started| <= |s.started| + 1
            && (Asking(Idle, q, s.pc) ==>
                  && |t.started| <= |s.started|
                  && (Asking(Idle, q, t.pc) || (t.pc.Splice? && Code(t.pc.stage) >= Code(q))))
  {
    YieldRun(s, acts, q);
  }

  lemma {:induction false} YieldRun(s: State, acts: seq<Action>, q: Priority)
    requires q == High || q == Norm
    requires Inv(s) && InIdleStage(s.pc) && s.pending.At(q) > 0 && BeforeSplice(s, acts)
    ensures YieldedBy(s, Exec(s, acts), q)
  {
    if acts != [] {
      var before := acts[..|acts| - 1];
      YieldRun(s, before, q);
      InvRun(s, before);
      IdleYieldsStep(Exec(s, before), acts[|acts| - 1], q);
    }
  }

  // ---- the stage that is entered

  predicate NothingAbove(s: State, q: Priority) {
    forall r: Priority :: Code(r) > Code(q) ==> s.pending.At(r) == 0
  }

  /** Up to its last action the run asks, and nothing above `q` is pending. */
  predicate AsksFor(s: State, acts: seq<Action>, p: Priority, q: Priority) {
    acts == []
    || (var before := acts[..|acts| - 1];
        && AsksFor(s, before, p, q)
        && Asking(p, q, Exec(s, before).pc) && NothingAbove(Exec(s, before), q))
  }

  ghost predicate Asked(s: State, t: State, p: Priority, q: Priority) {
    && (Asking(p, q, t.pc) || t.pc == Splice(q))
    && t.pending.At(q) > 0 && t.started == s.started && t.ratio == s.ratio && t.high == s.high
  }

  lemma {:induction false} AskPoll(s: State, p: Priority, q: Priority)
    requires Code(p) < Code(q) && (p == Norm && q == High ==> s.high == 0 || s.ratio == 0)
    requires Control(s) && Asking(p, q, s.pc) && NothingAbove(s, q) && s.pending.At(q) > 0 && s.pc.Poll?
    ensures Asked(s, WorkerStep(s), p, q)
  {
    StillStep(s);
    if s.pc.probe != q {
      assert s.pending.At(s.pc.probe) == 0;
    }
  }

  lemma {:induction false} AskStep(s: State, a: Action, p: Priority, q: Priority)
    requires Code(p) < Code(q) && (p == Norm && q == High ==> s.high == 0 || s.ratio == 0)
    requires Control(s) && Asking(p, q, s.pc) && NothingAbove(s, q) && s.pending.At(q) > 0
    ensures Asked(s, Apply(s, a), p, q)
  {
    if a == Step && s.pc.Poll? {
      AskPoll(s, p, q);
    }
  }

  /** After a handler the worker goes to the highest pending stage above its own: with `q` pending and
      nothing above it, in any interleaving, the stage is left for exactly `q`, with no event started in
      between. From NORM to HIGH this takes `high == 0` or `ratio == 0`. */
  lemma {:induction false} LeavesFor(s: State, acts: seq<Action>, p: Priority, q: Priority)
    requires Code(p) < Code(q) && (p == Norm && q == High ==> s.high == 0 || s.ratio == 0)
    requires Inv(s) && Asking(p, q, s.pc) && s.pending.At(q) > 0 && AsksFor(s, acts, p, q)
    ensures var t := Exec(s, acts);
            && (Asking(p, q, t.pc) || t.pc == Splice(q))
            && t.pending.At(q) > 0 && t.started == s.started && t.ratio == s.ratio && t.high == s.high
  {
    if acts != [] {
      var before := acts[..|acts| - 1];
      LeavesFor(s, before, p, q);
      InvRun(s, before);
      AskStep(Exec(s, before), acts[|acts| - 1], p, q);
    }
  }

  /** With nothing above its stage pending the worker goes on with the stage. */
  lemma {:induction false} StaysWith(s: State)
    requires Control(s) && s.pc.Poll? && s.pending.At(s.pc.probe) == 0
    ensures var t := WorkerStep(s);
            t.pc == if Below(s.pc.probe) == s.pc.stage then Loop(s.pc.stage) else Poll(s.pc.stage, Below(s.pc.probe))
  {
  }

  /** After STOP, likewise: from the end of the main loop the worker goes to the highest pending stage. */
  lemma {:induction false} ShutdownLeavesFor(s: State, q: Priority)
    requires Inv(s) && s.pc.Break? && Code(s.pc.probe) >= Code(q)
    requires s.pending.At(q) > 0 && NothingAbove(s, q)
    ensures var t := WorkerStep(s);
            && (t.pc == Splice(q) || (t.pc.Break? && Code(q) <= Code(t.pc.probe) < Code(s.pc.probe)))
            && t == s.(pc := t.pc)
  {
    if s.pc.probe != q {
      assert s.pending.At(s.pc.probe) == 0;
    }
  }

  // ---- the NORM ratio

  /** Only the HIGH splice, the NORM splice and the end of a turn of the NORM loop touch the ratio, and only
      the HIGH splice touches `high`; every other stage and every other thread hands both on. */
  lemma {:induction false} RatioKept(s: State, a: Action)
    requires Control(s)
    ensures var t := Apply(s, a);
            && (!(a == Step && s.pc == Splice(High)) ==> t.high == s.high)
            && (!(a == Step && (s.pc == Splice(High) || s.pc == Splice(Norm) || s.pc.Poll?)) ==> t.ratio == s.ratio)
            && (a == Step && s.pc.Poll? ==> t.ratio == if t.pc == Loop(Norm) then s.ratio - 1 else s.ratio)
  {
  }

  /** The division at the NORM splice truncates toward zero, whatever the sign. */
  lemma {:induction false} RatioTruncates(s: State)
    requires s.pc == Splice(Norm)
    ensures var t := WorkerStep(s);
            && t.pc == Loop(Norm) && t.high == s.high
            && (s.ratio >= 0 ==> 5 * t.ratio <= s.ratio < 5 * t.ratio + 5)
            && (s.ratio < 0 ==> 5 * t.ratio - 5 < s.ratio <= 5 * t.ratio)
  {
  }

  ghost predicate NormLedger(s: State, t: State) {
    && t.high == s.high && 0 <= Started(s, t)
    && Allowance(t) + Started(s, t) == Allowance(s)
    && |t.local| + Started(s, t) == |s.local|
  }

  lemma {:induction false} NormLedgerStep(s: State, t: State, a: Action)
    requires Control(t) && InNormLoop(t.pc) && NormLedger(s, t)
    ensures InNormLoop(Apply(t, a).pc) ==> NormLedger(s, Apply(t, a))
  {
    if a.Step? && t.pc.Loop? {
    } else if a.Step? && t.pc.Poll? {
    }
  }

  /** In the NORM loop each event lowers the ratio by one, whether or not HIGH is pending. */
  lemma {:induction false} NormLedgerRun(s: State, acts: seq<Action>)
    requires Inv(s) && InNormLoop(s.pc) && StaysInNorm(s, acts)
    ensures InNormLoop(Exec(s, acts).pc) ==> NormLedger(s, Exec(s, acts))
  {
    if acts != [] {
      var before := acts[..|acts| - 1];
      NormLedgerRun(s, before);
      InvRun(s, before);
      NormLedgerStep(s, Exec(s, before), acts[|acts| - 1]);
    }
  }

  /** When NORM yields to HIGH, exactly: take a NORM splice, the ratio d it leaves, and a later check of the
      same loop that sees HIGH pending after k events. The worker goes to HIGH if and only if `high` is 0
      or k is d + 1. In particular a stage entered with a ratio between -5 and 5 yields right after
      its first event, and after no later one unless `high` is 0. */
  lemma {:induction false} NormYieldsIff(s: State, acts: seq<Action>)
    requires Inv(s) && s.pc == Splice(Norm) && StaysInNorm(WorkerStep(s), acts)
    requires var t := Exec(WorkerStep(s), acts); t.pc == Poll(Norm, High) && t.pending.high > 0
    ensures var d := WorkerStep(s).ratio;
            var t := Exec(WorkerStep(s), acts);
            && (WorkerStep(t).pc == Splice(High) <==> s.high == 0 || Started(s, t) == d + 1)
            && (-5 < s.ratio < 5 ==> (WorkerStep(t).pc == Splice(High) <==> s.high == 0 || Started(s, t) == 1))
  {
    InvStep(s, Step);
    RatioTruncates(s);
    NormLedgerRun(WorkerStep(s), acts);
  }

  // ---- which stage counts an event

  /** How many handlers have returned in stage `p`. */
  function ReturnedIn(s0: State, acts: seq<Action>, p: Priority): nat {
    if acts == [] then 0
    else
      var before := acts[..|acts| - 1];
      ReturnedIn(s0, before, p) + if acts[|acts| - 1] == Step && Exec(s0, before).pc == Run(p) then 1 else 0
  }

  lemma {:induction false} CountedForStage(s: State, a: Action, p: Priority)
    requires Control(s)
    ensures Apply(s, a).handled.At(p) == s.handled.At(p) + if a == Step && s.pc == Run(p) then 1 else 0
  {
    if a == Step && !s.pc.Run? && !s.pc.Loop? && !s.pc.Splice? {
      StillStep(s);
    }
  }

  /** Each of the five handled counters is the number of handlers that returned in its own stage. */
  lemma {:induction false} HandledByStage(s0: State, acts: seq<Action>, p: Priority)
    requires Initial(s0)
    ensures Exec(s0, acts).handled.At(p) == ReturnedIn(s0, acts, p)
  {
    if acts != [] {
      var before := acts[..|acts| - 1];
      HandledByStage(s0, before, p);
      Always(s0, before);
      CountedForStage(Exec(s0, before), acts[|acts| - 1], p);
    }
  }

  // ---- the NORM stage runs everything

  lemma {:induction false} IdleEmptyStep(s: State, a: Action)
    requires Control(s) && (s.pc == Splice(Idle) ==> s.local == [])
    ensures var t := Apply(s, a); t.pc == Splice(Idle) ==> t.local == []
  {
  }

  /** The NORM stage takes events of every type and is left for IDLE only when the private list is empty:
      at each splice of the IDLE queue it is. */
  lemma {:induction false} IdleStartsEmpty(s0: State, acts: seq<Action>)
    requires Initial(s0)
    ensures Exec(s0, acts).pc == Splice(Idle) ==> Exec(s0, acts).local == []
  {
    if acts != [] {
      var before := acts[..|acts| - 1];
      IdleStartsEmpty(s0, before);
      Always(s0, before);
      IdleEmptyStep(Exec(s0, before), acts[|acts| - 1]);
    }
  }

  // ---- priorities

  /** The five priority numbers, in order; every other number is refused. */
  lemma {:induction false} PriorityNumbers(c: int, p: Priority)
    ensures Decode(c) == Some(p) <==> c == Code(p)
    ensures Decode(c) == None <==> c < 0 || c > 4
    ensures Code(Idle) < Code(Norm) < Code(High) < Code(Emrg) < Code(Crit)
  {
  }
}
