/** Termination, quiescence and the HIGH/NORM ratio. */
module SchedulerProgress {
  import opened Wrappers
  import opened Scheduler
  import opened SchedulerInvariants

  // ---- termination of the goto machine

  function LanesLength(q: Lanes<seq<Item>>): nat {
    |q.crit| + |q.emrg| + |q.high| + |q.norm| + |q.idle|
  }

  /** Events queued or in the private list. */
  function Unstarted(s: State): nat {
    LanesLength(s.queues) + |s.local|
  }

  /** Is there an event the stages from `p` down will meet? */
  predicate WorkAhead(s: State, p: Priority) {
    || s.local != []
    || (Code(p) >= 4 && s.queues.crit != [])
    || (Code(p) >= 3 && s.queues.emrg != [])
    || (Code(p) >= 2 && s.queues.high != [])
    || (Code(p) >= 1 && s.queues.norm != [])
    || s.queues.idle != []
  }

  /** 0 while the straight way to the loop head is sure to start an event, 1 when it may not,
      2 right after an event. */
  function Phase(s: State): nat {
    match s.pc
    case Run(_) => 2
    case Poll(_, _) => 2
    case Splice(p) => if WorkAhead(s, p) then 0 else 1
    case Loop(p) => if s.local != [] || (p != Idle && WorkAhead(s, Below(p))) then 0 else 1
    case _ => 1
  }

  /** Steps left on the straight way: to the loop head, then to the wait or the exit. */
  function Distance(pc: Pc): nat {
    match pc
    case Run(_) => 50
    case Poll(p, q) => 40 + Code(q)
    case Splice(p) => 20 + 2 * Code(p) + 1
    case Loop(p) => 20 + 2 * Code(p)
    case Check => 10
    case Break(q) => 4 + Code(q)
    case Wait => 2
    case Blocked => 1
    case Exit => 0
  }

  /** The worker has nothing to do until another thread acts. */
  predicate AtRest(s: State) {
    s.pc == Exit || (s.pc == Blocked && !s.woken)
  }

  /** The termination measure, compared lexicographically. */
  predicate Smaller(t: State, s: State) {
    || Unstarted(t) < Unstarted(s)
    || (Unstarted(t) == Unstarted(s) &&
         (|| t.cvCount < s.cvCount
          || (t.cvCount == s.cvCount &&
               (|| Phase(t) < Phase(s)
                || (Phase(t) == Phase(s) && Distance(t.pc) < Distance(s.pc))))))
  }

  lemma {:induction false} SpliceProgress(s: State, p: Priority)
    requires s.pc == Splice(p)
    ensures Smaller(WorkerStep(s), s) && Unstarted(WorkerStep(s)) == Unstarted(s)
  {
  }

  lemma {:induction false} LoopProgress(s: State, p: Priority)
    requires s.pc == Loop(p)
    ensures Smaller(WorkerStep(s), s)
  {
  }

  lemma {:induction false} JumpProgress(s: State)
    requires Control(s) && Counted(s) && (s.pc.Poll? || s.pc.Break?)
    ensures Smaller(WorkerStep(s), s)
  {
    StillStep(s);
  }

  /** Every worker step makes the measure smaller, whatever the dispatchers did before. */
  lemma {:induction false} WorkerProgress(s: State)
    requires Inv(s) && !AtRest(s)
    ensures Smaller(WorkerStep(s), s)
  {
    match s.pc
    case Splice(p) => SpliceProgress(s, p);
    case Loop(p) => LoopProgress(s, p);
    case Poll(_, _) => JumpProgress(s);
    case Break(_) => JumpProgress(s);
    case _ =>
  }

  /** Run the worker alone until it rests. */
  ghost function Rest(s: State): State
    requires Inv(s)
    decreases Unstarted(s), s.cvCount, Phase(s), Distance(s.pc)
  {
    if AtRest(s) then s
    else
      InvStep(s, Step);
      WorkerProgress(s);
      Rest(WorkerStep(s))
  }

  lemma {:induction false} WorkerKeeps(s: State)
    ensures WorkerStep(s).accepted == s.accepted
    ensures WorkerStep(s).unsignalled == s.unsignalled
    ensures WorkerStep(s).early == s.early
  {
  }

  lemma {:induction false} RestReached(s: State)
    requires Inv(s)
    ensures var t := Rest(s);
            && AtRest(t) && Inv(t)
            && t.accepted == s.accepted && t.unsignalled == s.unsignalled && t.early == s.early
    decreases Unstarted(s), s.cvCount, Phase(s), Distance(s.pc)
  {
    if !AtRest(s) {
      InvStep(s, Step);
      WorkerProgress(s);
      WorkerKeeps(s);
      RestReached(WorkerStep(s));
    }
  }

  lemma {:induction false} RestCounts(s: State, f: Item -> bool)
    requires Inv(s) && Placed(s, f) == Count(s.accepted, f)
    ensures Placed(Rest(s), f) == Count(s.accepted, f)
    decreases Unstarted(s), s.cvCount, Phase(s), Distance(s.pc)
  {
    if !AtRest(s) {
      InvStep(s, Step);
      WorkerProgress(s);
      ConservedStep(s, Step, f);
      WorkerKeeps(s);
      RestCounts(WorkerStep(s), f);
    }
  }

  lemma {:induction false} UncoveredLane(s: State, p: Priority, xs: seq<Item>)
    requires s.cvCount == 0 && !WillSplice(s.pc, p) && CoveredLane(s, p, xs)
    ensures xs != [] ==> xs[0].ticket in s.unsignalled
  {
  }

  /** The queues that the reads after the main loop have passed are empty. */
  predicate PassedEmpty(s: State, q: Priority) {
    && (Code(q) < 4 ==> s.queues.crit == []) && (Code(q) < 3 ==> s.queues.emrg == [])
    && (Code(q) < 2 ==> s.queues.high == []) && (Code(q) < 1 ==> s.queues.norm == [])
  }

  /** A read still to come finds an event, and leads back into the main loop. */
  predicate BackToLoop(s: State, q: Priority) {
    || s.queues.idle != [] || (Code(q) >= 1 && s.queues.norm != []) || (Code(q) >= 2 && s.queues.high != [])
    || (Code(q) >= 3 && s.queues.emrg != []) || (Code(q) >= 4 && s.queues.crit != [])
  }

  /** The shutdown has not gone past an event that was dispatched after STOP. */
  predicate NothingMissed(s: State) {
    match s.pc
    case Break(q) => PassedEmpty(s, q) || BackToLoop(s, q)
    case Exit => s.queues == Lanes([], [], [], [], [])
    case _ => true
  }

  lemma {:induction false} MissedStep(s: State)
    requires Control(s) && Counted(s) && !AtRest(s)
    ensures NothingMissed(WorkerStep(s)) <==> NothingMissed(s)
  {
  }

  lemma {:induction false} RestMissed(s: State)
    requires Inv(s)
    ensures NothingMissed(Rest(s)) <==> NothingMissed(s)
    decreases Unstarted(s), s.cvCount, Phase(s), Distance(s.pc)
  {
    if !AtRest(s) {
      InvStep(s, Step);
      WorkerProgress(s);
      MissedStep(s);
      RestMissed(WorkerStep(s));
    }
  }

  lemma {:induction false} RestEmpty(s: State)
    requires Inv(s) && AtRest(s) && s.unsignalled == {}
    ensures s.local == [] && s.running == None
    ensures s.queues == Lanes([], [], [], [], []) <==> NothingMissed(s)
  {
    if s.pc == Blocked {
      UncoveredLane(s, Crit, s.queues.crit);
      UncoveredLane(s, Emrg, s.queues.emrg);
      UncoveredLane(s, High, s.queues.high);
      UncoveredLane(s, Norm, s.queues.norm);
      UncoveredLane(s, Idle, s.queues.idle);
    }
  }

  /** With no dispatch after STOP nothing is missed. */
  lemma {:induction false} EarlyNotMissed(s: State)
    requires Inv(s) && s.early == |s.accepted|
    ensures NothingMissed(s)
  {
  }

  /** Quiescence: after any history in which every dispatcher has signalled, and with no new
      dispatch, the worker comes to rest with the private list empty. All five queues are empty, and
      each event it ever accepted has run exactly once, if and only if the shutdown has not gone past
      an event dispatched after STOP; an event accepted before STOP has run in any case. */
  lemma {:induction false} Quiescence(s0: State, acts: seq<Action>, y: Item)
    requires Initial(s0)
    requires Exec(s0, acts).unsignalled == {}
    ensures Inv(Exec(s0, acts)) && AtRest(Rest(Exec(s0, acts)))
    ensures var s := Exec(s0, acts);
            var t := Rest(s);
            && t.local == [] && t.running == None
            && (t.queues == Lanes([], [], [], [], []) <==> NothingMissed(s))
            && (NothingMissed(s) ==> Count(t.finished, Is(y)) == if y in s.accepted then 1 else 0)
            && (s.early == |s.accepted| ==> NothingMissed(s))
            && (y in s.accepted && y.ticket < s.early ==> Count(t.finished, Is(y)) == 1)
  {
    var s := Exec(s0, acts);
    Always(s0, acts);
    ExactlyOnce(s0, acts, y);
    Conservation(s0, acts, Is(y));
    RestReached(s);
    RestCounts(s, Is(y));
    RestMissed(s);
    var t := Rest(s);
    RestEmpty(t);
    if t.queues != Lanes([], [], [], [], []) && y.ticket < t.early {
      LanesLate(t, y);
    }
    if s.early == |s.accepted| {
      EarlyNotMissed(s);
    }
  }

  /** The worker sleeps, or is about to, and no signal is up. */
  predicate Asleep(s: State) {
    (s.pc == Wait || s.pc == Blocked) && s.cvCount == 0
  }

  lemma {:induction false} StopStep(s: State)
    requires Control(s) && s.status != Running && !AtRest(s)
    ensures WorkerStep(s).status != Running && (Asleep(WorkerStep(s)) <==> Asleep(s))
  {
    if s.pc.Run? || s.pc.Loop? || s.pc.Splice? {
    } else {
      StillStep(s);
    }
  }

  lemma {:induction false} StopRest(s: State)
    requires Inv(s) && s.status != Running
    ensures Rest(s).pc == Exit <==> !Asleep(s)
    decreases Unstarted(s), s.cvCount, Phase(s), Distance(s.pc)
  {
    if !AtRest(s) {
      InvStep(s, Step);
      WorkerProgress(s);
      StopStep(s);
      StopRest(WorkerStep(s));
    }
  }

  /** Shutdown: after any history with a STOP, the worker left to itself reaches its teardown if and
      only if it was not asleep without a signal: STOP itself wakes nobody up. */
  lemma {:induction false} ShutdownIff(s0: State, acts: seq<Action>)
    requires Initial(s0) && Exec(s0, acts).status != Running
    ensures Inv(Exec(s0, acts))
    ensures Rest(Exec(s0, acts)).pc == Exit <==> !Asleep(Exec(s0, acts))
  {
    Always(s0, acts);
    StopRest(Exec(s0, acts));
  }

  /** STOP takes effect whatever is queued and wherever a running worker is, and does nothing else: the
      worker, left to itself, then reaches its teardown if and only if it is not asleep. */
  lemma {:induction false} StopWorks(s: State)
    requires Inv(s) && s.status == Running
    ensures var t := Apply(s, Halt);
            && t == s.(status := Stop) && Inv(t)
            && (Rest(t).pc == Exit <==> !Asleep(s))
  {
    InvStep(s, Halt);
    StopRest(Apply(s, Halt));
  }

  /** In any run the private list is empty at every wait. */
  lemma {:induction false} EmptyAtWait(s0: State, acts: seq<Action>)
    requires Initial(s0)
    ensures var t := Exec(s0, acts); t.pc == Wait || t.pc == Blocked ==> t.local == [] && t.running == None
  {
    Always(s0, acts);
  }

  // ---- the HIGH/NORM ratio

  predicate InNormLoop(pc: Pc) {
    pc == Loop(Norm) || pc == Run(Norm) || (pc.Poll? && pc.stage == Norm)
  }

  /** The run stays in the NORM loop up to its last action. */
  predicate StaysInNorm(s: State, acts: seq<Action>) {
    acts == []
    || (var before := acts[..|acts| - 1]; StaysInNorm(s, before) && InNormLoop(Exec(s, before).pc))
  }

  /** Events that will start before the loop yields to HIGH, if nothing else ends it. */
  function Allowance(s: State): int {
    if s.pc == Loop(Norm) then s.ratio + 1 else s.ratio
  }

  /** Events started between two states. */
  function Started(s: State, t: State): int {
    |t.started| - |s.started|
  }

  ghost predicate RatioLedger(s: State, t: State) {
    && t.pending.high > 0 && t.high == s.high
    && 0 <= Started(s, t)
    && Allowance(t) + Started(s, t) == Allowance(s)
    && |t.local| + Started(s, t) == |s.local|
    && (Allowance(s) >= 0 ==> t.ratio >= 0)
  }

  ghost predicate RatioOutcome(s: State, u: State) {
    && (InNormLoop(u.pc) ==> RatioLedger(s, u))
    && 0 <= Started(s, u) <= |s.local|
    && (u.pc == Splice(High) ==> Started(s, u) == Allowance(s))
    && (Allowance(s) >= 0 ==> Started(s, u) <= Allowance(s))
  }

  lemma {:induction false} RatioStep(s: State, t: State, a: Action)
    requires Control(t) && Counted(t) && s.high != 0
    requires InNormLoop(t.pc) && RatioLedger(s, t)
    ensures RatioOutcome(s, Apply(t, a))
  {
    if a.Step? && t.pc.Loop? {
    } else if a.Step? && t.pc.Poll? {
    }
  }

  lemma {:induction false} RatioRun(s: State, acts: seq<Action>)
    requires Inv(s) && InNormLoop(s.pc) && s.pending.high > 0 && s.high != 0
    requires Allowance(s) >= 0 ==> s.ratio >= 0
    requires StaysInNorm(s, acts)
    ensures RatioOutcome(s, Exec(s, acts))
  {
    if acts != [] {
      var before := acts[..|acts| - 1];
      RatioRun(s, before);
      InvRun(s, before);
      RatioStep(s, Exec(s, before), acts[|acts| - 1]);
    }
  }

  /** HIGH/NORM ratio: take a check of the NORM loop that sees HIGH pending, and any interleaving
      that stays in that loop up to its last action. With `high == 0` the worker yields at once. With
      `high != 0` and `ratio == r >= 0`, at most r more events start before the loop is left, and
      exactly r when it is left for HIGH. With `ratio < 0` it is never left for HIGH, and only what
      the private list holds is run. */
  lemma {:induction false} RatioBound(s: State, acts: seq<Action>)
    requires Inv(s) && s.pc == Poll(Norm, High) && s.pending.high > 0
    requires StaysInNorm(s, acts)
    ensures s.high == 0 ==> WorkerStep(s).pc == Splice(High)
    ensures s.high != 0 ==>
      var t := Exec(s, acts);
      && 0 <= Started(s, t) <= |s.local|
      && (s.ratio >= 0 ==> Started(s, t) <= s.ratio)
      && (t.pc == Splice(High) ==> Started(s, t) == s.ratio)
  {
    if s.high != 0 {
      RatioRun(s, acts);
    }
  }

  predicate InHighStage(pc: Pc) {
    pc == Loop(High) || pc == Run(High) || (pc.Poll? && pc.stage == High) || pc == Splice(Norm)
  }

  /** The run stays in the HIGH stage up to its last action. */
  predicate StaysInHigh(s: State, acts: seq<Action>) {
    acts == []
    || (var before := acts[..|acts| - 1]; StaysInHigh(s, before) && InHighStage(Exec(s, before).pc))
  }

  /** A HIGH stage that took a batch of b events and was not preempted hands NORM the ratio b / 5:
      `high` tells whether the batch was empty. */
  lemma {:induction false} RatioGrant(s: State, acts: seq<Action>)
    requires Inv(s) && s.pc == Splice(High) && StaysInHigh(WorkerStep(s), acts)
    ensures var t := Exec(WorkerStep(s), acts);
            var b := |s.queues.high|;
            && (t.high != 0 <==> b != 0)
            && (InHighStage(t.pc) ==> t.ratio == b)
            && (t.pc == Loop(Norm) ==> 5 * t.ratio <= b < 5 * t.ratio + 5)
  {
    if acts != [] {
      RatioGrant(s, acts[..|acts| - 1]);
      GrantStep(Exec(WorkerStep(s), acts[..|acts| - 1]), acts[|acts| - 1]);
    }
  }

  lemma {:induction false} GrantStep(t: State, a: Action)
    requires InHighStage(t.pc) && t.ratio >= 0
    ensures var u := Apply(t, a);
            && u.high == t.high
            && (InHighStage(u.pc) ==> u.ratio == t.ratio)
            && (u.pc == Loop(Norm) ==> 5 * u.ratio <= t.ratio < 5 * u.ratio + 5)
  {
  }
}
