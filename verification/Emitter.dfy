/**
 `src/emitter.c` on top of the scheduler: any number of emitters, of dispatch calls in progress
 and of workers. `ee_pendings` protects an emitter from `emit_destroy`; every accepted event is
 completed by exactly one callback, which returns it to the event cache (`posix/edpnet.c`).
 */
module EmitterLifetime {
  import opened Wrappers
  import opened Errno
  import opened Scheduler
  import opened SchedulerInvariants

  const TYPE_MAX := 16    // kEMIT_EVENT_TYPE_MAX

  /** How far `emit_event_handler` has come with the event a worker runs. */
  datatype Phase =
    | NoHandler
    | Entered
    | InUser                 // the registered handler is running
    | Failing(code: int)     // type out of range, or no handler: ee_pendings stays as it is
    | Decremented(code: int)
    | CalledBack

  datatype Emitter = Emitter(
    alive: bool,             // not freed
    pendings: int,
    handlers: seq<bool>,     // is a handler other than the default one installed?
    stranded: nat)           // history: increments of ee_pendings nobody will undo

  /** A dispatch call between its increment of ee_pendings and `__edp_dispatch`. */
  datatype Call = Call(emit: nat, kind: int, prio: int)

  datatype Side = Side(sched: State, phase: Phase, called: seq<(nat, int)>)

  datatype Sys = Sys(emitters: seq<Emitter>, calls: seq<Call>, sides: seq<Side>, allocs: int, frees: int)

  datatype Act =
    | Create
    | AddHandler(em: nat, kind: int)
    | RmvWatch(em: nat, kind: int)
    | Begin(em: nat, kind: int, prio: int)
    | Hand(call: nat, w: nat)
    | Other(w: nat, action: Action)      // signals, spurious wake-ups, STOP
    | Work(w: nat)
    | Lookup(w: nat)
    | UserReturns(w: nat, code: int)
    | Callback(w: nat)
    | Destroy(em: nat)

  /** The checks of `emit_dispatch` before the increment. */
  function DispatchCheck(e: Emitter, kind: int): int {
    if kind < 0 || kind >= TYPE_MAX then -ERANGE
    else if kind >= |e.handlers| || !e.handlers[kind] then -ENOENT
    else if !e.alive then -EINVAL
    else 0
  }

  /** `edpnet_sock_dispatch` with `emit_dispatch` up to the increment. A refusal frees the event. */
  function BeginStep(y: Sys, em: nat, kind: int, prio: int): Sys {
    if em >= |y.emitters| || !y.emitters[em].alive then y
    else
      var e := y.emitters[em];
      if DispatchCheck(e, kind) != 0 then y.(allocs := y.allocs + 1, frees := y.frees + 1)
      else y.(emitters := y.emitters[em := e.(pendings := e.pendings + 1)],
              calls := y.calls + [Call(em, kind, prio)],
              allocs := y.allocs + 1)
  }

  /** `__edp_dispatch` on the worker `w` it selects. Out of range: the caller frees the event, and
      ee_pendings keeps the increment. */
  function HandStep(y: Sys, i: nat, w: nat): Sys {
    if i >= |y.calls| || w >= |y.sides| || y.calls[i].emit >= |y.emitters| then y
    else
      var c := y.calls[i];
      var rest := y.calls[..i] + y.calls[i + 1..];
      if Decode(c.prio) == None then
        var e := y.emitters[c.emit];
        y.(calls := rest, frees := y.frees + 1,
           emitters := y.emitters[c.emit := e.(stranded := e.stranded + 1)])
      else
        var d := y.sides[w];
        y.(calls := rest,
           sides := y.sides[w := d.(sched := EnqueueStep(d.sched, c.kind, c.prio, c.emit))])
  }

  /** A worker step. The handler's own steps are below; the worker goes on when it has returned. */
  function WorkSide(d: Side): Side {
    if d.sched.pc.Run? then
      if d.phase == CalledBack then Side(WorkerStep(d.sched), NoHandler, d.called) else d
    else
      var t := WorkerStep(d.sched);
      Side(t, if t.pc.Run? then Entered else d.phase, d.called)
  }

  function LookupSide(d: Side, es: seq<Emitter>): Side {
    if d.phase != Entered || d.sched.running == None then d
    else
      var it := d.sched.running.value;
      if it.kind < 0 || it.kind >= TYPE_MAX then d.(phase := Failing(-ERANGE))
      else if it.emit >= |es| || it.kind >= |es[it.emit].handlers| || !es[it.emit].handlers[it.kind] then
        d.(phase := Failing(-ENOENT))
      else d.(phase := InUser)
  }

  function UserReturnsStep(y: Sys, w: nat, code: int): Sys {
    if w >= |y.sides| || y.sides[w].phase != InUser || y.sides[w].sched.running == None then y
    else
      var d := y.sides[w];
      var em := d.sched.running.value.emit;
      if em >= |y.emitters| then y
      else
        var e := y.emitters[em];
        y.(sides := y.sides[w := d.(phase := Decremented(code))],
           emitters := y.emitters[em := e.(pendings := e.pendings - 1)])
  }

  /** `edp_event_done`; the callback of edpnet frees the event. */
  function CallbackStep(y: Sys, w: nat): Sys {
    if w >= |y.sides| || y.sides[w].sched.running == None then y
    else
      var d := y.sides[w];
      var it := d.sched.running.value;
      match d.phase
      case Failing(code) =>
        if it.emit >= |y.emitters| then y
        else
          var e := y.emitters[it.emit];
          y.(sides := y.sides[w := Side(d.sched, CalledBack, d.called + [(it.ticket, code)])],
             emitters := y.emitters[it.emit := e.(stranded := e.stranded + 1)],
             frees := y.frees + 1)
      case Decremented(code) =>
        y.(sides := y.sides[w := Side(d.sched, CalledBack, d.called + [(it.ticket, code)])],
           frees := y.frees + 1)
      case _ => y
  }

  /** `emit_destroy`, which refuses while ee_pendings is not zero. */
  function DestroyStep(y: Sys, em: nat): Sys {
    if em >= |y.emitters| || !y.emitters[em].alive || y.emitters[em].pendings != 0 then y
    else y.(emitters := y.emitters[em := y.emitters[em].(alive := false)])
  }

  function SetHandler(y: Sys, em: nat, kind: int, on: bool): Sys {
    if em >= |y.emitters| || !y.emitters[em].alive || kind < 0 || kind >= |y.emitters[em].handlers| then y
    else
      var e := y.emitters[em];
      y.(emitters := y.emitters[em := e.(handlers := e.handlers[kind := on])])
  }

  predicate Harmless(a: Action) {
    a.Signal? || a.Spurious? || a.Halt?
  }

  function Do(y: Sys, a: Act): Sys {
    match a
    case Create => y.(emitters := y.emitters + [Emitter(true, 0, seq(TYPE_MAX, _ => false), 0)])
    case AddHandler(em, kind) => SetHandler(y, em, kind, true)
    case RmvWatch(em, kind) => SetHandler(y, em, kind, false)
    case Begin(em, kind, prio) => BeginStep(y, em, kind, prio)
    case Hand(i, w) => HandStep(y, i, w)
    case Other(w, act) =>
      if w >= |y.sides| || !Harmless(act) then y
      else y.(sides := y.sides[w := y.sides[w].(sched := Apply(y.sides[w].sched, act))])
    case Work(w) => if w >= |y.sides| then y else y.(sides := y.sides[w := WorkSide(y.sides[w])])
    case Lookup(w) =>
      if w >= |y.sides| then y else y.(sides := y.sides[w := LookupSide(y.sides[w], y.emitters)])
    case UserReturns(w, code) => UserReturnsStep(y, w, code)
    case Callback(w) => CallbackStep(y, w)
    case Destroy(em) => DestroyStep(y, em)
  }

  function Perform(y: Sys, acts: seq<Act>): Sys {
    if acts == [] then y
    else Do(Perform(y, acts[..|acts| - 1]), acts[|acts| - 1])
  }

  predicate Fresh(y: Sys) {
    && y.emitters == [] && y.calls == [] && y.allocs == 0 && y.frees == 0
    && forall w :: 0 <= w < |y.sides| ==> FreshSide(y.sides[w])
  }

  predicate FreshSide(d: Side) {
    Initial(d.sched) && d.phase == NoHandler && d.called == []
  }

  // ---- what is counted

  predicate BeforeDecrement(ph: Phase) {
    ph == Entered || ph == InUser || ph.Failing?
  }

  predicate BeforeCallback(ph: Phase) {
    BeforeDecrement(ph) || ph.Decremented?
  }

  function OneIf(b: bool): nat {
    if b then 1 else 0
  }

  function OfEmitter(em: nat): Item -> bool {
    (x: Item) => x.emit == em
  }

  function Anything(): Item -> bool {
    (x: Item) => true
  }

  /** Items with `f` that are queued, in the private list, or running while `held`. */
  function Holding(s: State, f: Item -> bool, held: bool): nat {
    CountLanes(s.queues, f) + Count(s.local, f) + OneIf(held && s.running.Some? && f(s.running.value))
  }

  /** Events of `em` in flight on one worker: queued, private, or in the handler before the decrement. */
  function Flight(d: Side, em: nat): nat {
    Holding(d.sched, OfEmitter(em), BeforeDecrement(d.phase))
  }

  /** Events on one worker that the callback has not returned yet. */
  function Unreturned(d: Side): nat {
    Holding(d.sched, Anything(), BeforeCallback(d.phase))
  }

  function FlightAll(ds: seq<Side>, em: nat): nat {
    if ds == [] then 0 else Flight(ds[0], em) + FlightAll(ds[1..], em)
  }

  function UnreturnedAll(ds: seq<Side>): nat {
    if ds == [] then 0 else Unreturned(ds[0]) + UnreturnedAll(ds[1..])
  }

  function CallsOf(cs: seq<Call>, em: nat): nat {
    if cs == [] then 0 else OneIf(cs[0].emit == em) + CallsOf(cs[1..], em)
  }

  function PendingsOf(y: Sys, em: nat): int {
    if em < |y.emitters| then y.emitters[em].pendings else 0
  }

  function StrandedOf(y: Sys, em: nat): nat {
    if em < |y.emitters| then y.emitters[em].stranded else 0
  }

  /** ee_pendings accounts for every call in progress, every event in flight and every increment
      that was stranded. */
  predicate Ledger(y: Sys, em: nat) {
    PendingsOf(y, em) == CallsOf(y.calls, em) + FlightAll(y.sides, em) + StrandedOf(y, em)
  }

  lemma {:induction false} FlightUpdate(ds: seq<Side>, w: nat, d: Side, em: nat)
    requires w < |ds|
    ensures FlightAll(ds[w := d], em) == FlightAll(ds, em) - Flight(ds[w], em) + Flight(d, em)
  {
    if w == 0 {
      assert ds[w := d][1..] == ds[1..];
    } else {
      assert ds[w := d][1..] == ds[1..][w - 1 := d];
      FlightUpdate(ds[1..], w - 1, d, em);
    }
  }

  lemma {:induction false} UnreturnedUpdate(ds: seq<Side>, w: nat, d: Side)
    requires w < |ds|
    ensures UnreturnedAll(ds[w := d]) == UnreturnedAll(ds) - Unreturned(ds[w]) + Unreturned(d)
  {
    if w == 0 {
      assert ds[w := d][1..] == ds[1..];
    } else {
      assert ds[w := d][1..] == ds[1..][w - 1 := d];
      UnreturnedUpdate(ds[1..], w - 1, d);
    }
  }

  lemma {:induction false} CallsConcat(a: seq<Call>, b: seq<Call>, em: nat)
    ensures CallsOf(a + b, em) == CallsOf(a, em) + CallsOf(b, em)
  {
    if a == [] {
      assert a + b == b;
    } else {
      assert (a + b)[1..] == a[1..] + b;
      CallsConcat(a[1..], b, em);
    }
  }

  lemma {:induction false} CallsRemove(cs: seq<Call>, i: nat, em: nat)
    requires i < |cs|
    ensures CallsOf(cs[..i] + cs[i + 1..], em) == CallsOf(cs, em) - OneIf(cs[i].emit == em)
  {
    CallsConcat(cs[..i], cs[i + 1..], em);
    CallsConcat(cs[..i], cs[i..], em);
    assert cs[..i] + cs[i..] == cs;
    assert cs[i..][1..] == cs[i + 1..];
  }

  lemma {:induction false} FlightMember(ds: seq<Side>, w: nat, em: nat)
    requires w < |ds|
    ensures Flight(ds[w], em) <= FlightAll(ds, em)
  {
    if w > 0 {
      FlightMember(ds[1..], w - 1, em);
    }
  }
}
