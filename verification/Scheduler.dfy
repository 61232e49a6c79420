/**
 One worker thread of `src/worker.c` and the dispatchers that feed it, as a labelled
 transition system. Every step is one atomic access: a critical section, an unlocked read of
 a pending counter, the start or the end of a handler. Arbitrary interleavings are sequences
 of `Action`s. The stage tests compare `ev_type`, as the program does.
 */
module Scheduler {
  import opened Wrappers

  datatype Priority = Idle | Norm | High | Emrg | Crit

  /** The numeric value of a priority constant. */
  function Code(p: Priority): int {
    match p
    case Idle => 0
    case Norm => 1
    case High => 2
    case Emrg => 3
    case Crit => 4
  }

  /** The `switch` of `__edp_dispatch`: None is the `-ERANGE` default branch. */
  function Decode(c: int): Option<Priority> {
    if c == 4 then Some(Crit)
    else if c == 3 then Some(Emrg)
    else if c == 2 then Some(High)
    else if c == 1 then Some(Norm)
    else if c == 0 then Some(Idle)
    else None
  }

  function Below(p: Priority): Priority
    requires p != Idle
  {
    match p
    case Crit => Emrg
    case Emrg => High
    case High => Norm
    case Norm => Idle
  }

  /** One value per priority: the five queues, the five pending and the five handled counters. */
  datatype Lanes<T> = Lanes(crit: T, emrg: T, high: T, norm: T, idle: T) {
    function At(p: Priority): T {
      match p
      case Crit => crit
      case Emrg => emrg
      case High => high
      case Norm => norm
      case Idle => idle
    }

    function With(p: Priority, v: T): Lanes<T> {
      match p
      case Crit => this.(crit := v)
      case Emrg => this.(emrg := v)
      case High => this.(high := v)
      case Norm => this.(norm := v)
      case Idle => this.(idle := v)
    }
  }

  /** An accepted dispatch. Tickets number the accepted dispatches of a worker, so two dispatches
      of the same event structure are two items. `kind` is `ev_type`, `emit` names `ev_emit`. */
  datatype Item = Item(ticket: nat, prio: Priority, kind: int, emit: nat)

  datatype Status = Running | Stop | Zero

  /** Program points of `worker_routine`. `Poll(p, q)` is the read of the pending counter of `q`
      after a handler of stage `p`; `Break(q)` is the same read after the main loop was left. */
  datatype Pc =
    | Check
    | Wait
    | Blocked
    | Splice(stage: Priority)
    | Loop(stage: Priority)
    | Run(stage: Priority)
    | Poll(stage: Priority, probe: Priority)
    | Break(probe: Priority)
    | Exit

  datatype State = State(
    status: Status,
    cvCount: int,               // cv_count of wk_event
    woken: bool,                // pthread_cond_signal reached the sleeping worker
    pc: Pc,
    queues: Lanes<seq<Item>>,
    pending: Lanes<int>,
    handled: Lanes<int>,
    local: seq<Item>,           // the private list `events`
    running: Option<Item>,
    ratio: int,
    high: int,
    unsignalled: set<nat>,      // tickets whose dispatcher has not reached the signal yet
    accepted: seq<Item>,        // history: dispatches in enqueue order
    started: seq<Item>,         // history: handlers in start order
    finished: seq<Item>,        // history: handlers in completion order
    early: nat)                 // history: how many were accepted before STOP

  datatype Action =
    | Enqueue(kind: int, prio: int, emit: nat)
    | Signal(ticket: nat)
    | Step
    | Spurious
    | Halt

  /** `ratio /= HIGH_NORM_RATIO` (which is 5); the division of C truncates toward zero. */
  function RatioDiv(ratio: int): int {
    if ratio >= 0 then ratio / 5 else -((-ratio) / 5)
  }

  /** A worker that has just set RUNNING: nothing queued, nothing run. */
  predicate Initial(s: State) {
    && s.status == Running && s.cvCount == 0 && !s.woken && s.pc == Check
    && s.queues == Lanes([], [], [], [], []) && s.pending == Lanes(0, 0, 0, 0, 0)
    && s.handled == Lanes(0, 0, 0, 0, 0) && s.local == [] && s.running == None
    && s.ratio == 0 && s.high == 0 && s.unsignalled == {}
    && s.accepted == [] && s.started == [] && s.finished == [] && s.early == 0
  }

  /** The locked region of `__edp_dispatch`. An invalid priority changes nothing. */
  function EnqueueStep(s: State, kind: int, prio: int, emit: nat): State {
    match Decode(prio)
    case None => s
    case Some(p) =>
      var it := Item(|s.accepted|, p, kind, emit);
      s.(queues := s.queues.With(p, s.queues.At(p) + [it]),
         pending := s.pending.With(p, s.pending.At(p) + 1),
         unsignalled := s.unsignalled + {it.ticket},
         accepted := s.accepted + [it],
         early := if s.status == Running then s.early + 1 else s.early)
  }

  /** `__spi_convar_signal` by the dispatcher of ticket `t`. */
  function SignalStep(s: State, t: nat): State {
    if t !in s.unsignalled then s
    else if s.cvCount != 0 then s.(unsignalled := s.unsignalled - {t})
    else s.(unsignalled := s.unsignalled - {t}, cvCount := 1, woken := s.pc == Blocked)
  }

  /** The locked region at the head of a stage; CRIT, EMRG and HIGH batches go to the front. */
  function SpliceStep(s: State, p: Priority): State {
    var batch := s.queues.At(p);
    var count := s.pending.At(p);
    s.(queues := s.queues.With(p, []),
       pending := s.pending.With(p, 0),
       local := if p == Norm || p == Idle then s.local + batch else batch + s.local,
       ratio := if p == High then count
                else if p == Norm then RatioDiv(s.ratio)
                else s.ratio,
       high := if p == High then (if count != 0 then 1 else 0) else s.high,
       pc := Loop(p))
  }

  /** Does the loop of stage `p` run this event? The test reads `ev_type`. */
  predicate Takes(p: Priority, it: Item) {
    p == Norm || p == Idle || it.kind == Code(p)
  }

  function LoopStep(s: State, p: Priority): State {
    if s.local == [] || !Takes(p, s.local[0]) then
      s.(pc := if p == Idle then Check else Splice(Below(p)))
    else
      s.(local := s.local[1..],
         running := Some(s.local[0]),
         started := s.started + [s.local[0]],
         pc := Run(p))
  }

  function FinishStep(s: State, p: Priority): State {
    match s.running
    case None => s
    case Some(it) =>
      s.(running := None,
         finished := s.finished + [it],
         handled := s.handled.With(p, s.handled.At(p) + 1),
         pc := if p == Crit then Loop(Crit) else Poll(p, Crit))
  }

  /** Does the NORM stage leave for a pending HIGH event, given `high` and `ratio`? */
  predicate Yields(s: State, p: Priority, q: Priority) {
    p == Norm && q == High ==> s.high == 0 || s.ratio == 0
  }

  function PollStep(s: State, p: Priority, q: Priority): State {
    if s.pending.At(q) != 0 && Yields(s, p, q) then s.(pc := Splice(q))
    else if q == Idle then s
    else if Below(q) == p then s.(pc := Loop(p), ratio := if p == Norm then s.ratio - 1 else s.ratio)
    else s.(pc := Poll(p, Below(q)))
  }

  function BreakStep(s: State, q: Priority): State {
    if s.pending.At(q) != 0 then s.(pc := Splice(q))
    else if q == Idle then s.(pc := Exit, status := Zero)
    else s.(pc := Break(Below(q)))
  }

  /** The return of `pthread_cond_wait`. */
  function WakeStep(s: State): State {
    s.(cvCount := 0, woken := false, pc := Splice(Crit))
  }

  /** The next step of the worker thread. A sleeping worker that was not notified stays put. */
  function WorkerStep(s: State): State {
    match s.pc
    case Check => s.(pc := if s.status == Stop then Break(Crit) else Wait)
    case Wait => if s.cvCount == 0 then s.(pc := Blocked) else WakeStep(s)
    case Blocked => if s.woken then WakeStep(s) else s
    case Splice(p) => SpliceStep(s, p)
    case Loop(p) => LoopStep(s, p)
    case Run(p) => FinishStep(s, p)
    case Poll(p, q) => PollStep(s, p, q)
    case Break(q) => BreakStep(s, q)
    case Exit => s
  }

  /** Actions that are not enabled leave the state alone. */
  function Apply(s: State, a: Action): State {
    match a
    case Enqueue(kind, prio, emit) => EnqueueStep(s, kind, prio, emit)
    case Signal(t) => SignalStep(s, t)
    case Step => WorkerStep(s)
    case Spurious => if s.pc == Blocked then WakeStep(s) else s
    case Halt => if s.status == Running then s.(status := Stop) else s
  }

  function Exec(s: State, acts: seq<Action>): State {
    if acts == [] then s
    else Apply(Exec(s, acts[..|acts| - 1]), acts[|acts| - 1])
  }

  lemma {:induction false} ExecSnoc(s: State, acts: seq<Action>, a: Action)
    ensures Exec(s, acts + [a]) == Apply(Exec(s, acts), a)
  {
    assert (acts + [a])[..|acts|] == acts;
  }
}
