/** Lifetime, completion and memory balance over every run of the emitter system. */
module EmitterProofs {
  import opened Wrappers
  import opened Scheduler
  import opened SchedulerInvariants
  import opened EmitterLifetime

  // ---- one worker

  function Tickets(xs: seq<Item>): seq<nat> {
    seq(|xs|, i requires 0 <= i < |xs| => xs[i].ticket)
  }

  function CallTickets(cs: seq<(nat, int)>): seq<nat> {
    seq(|cs|, i requires 0 <= i < |cs| => cs[i].0)
  }

  /** The handler phase follows the program point, and the callbacks made so far are those of the
      finished events, in order, plus the running one once its callback was made. */
  ghost predicate SideOk(d: Side) {
    && Control(d.sched) && Counted(d.sched)
    && (d.sched.pc.Run? <==> d.phase != NoHandler)
    && CallTickets(d.called) ==
         Tickets(d.sched.finished) + (if d.phase == CalledBack then Tickets(RunningItems(d.sched)) else [])
  }

  lemma {:induction false} HoldingEnqueue(s: State, kind: int, prio: int, emit: nat, f: Item -> bool, held: bool)
    requires Decode(prio).Some?
    ensures Holding(EnqueueStep(s, kind, prio, emit), f, held) ==
            Holding(s, f, held) + OneIf(f(Item(|s.accepted|, Decode(prio).value, kind, emit)))
  {
    var p := Decode(prio).value;
    var it := Item(|s.accepted|, p, kind, emit);
    CountConcat(s.queues.At(p), [it], f);
    CountLanesWith(s.queues, p, s.queues.At(p) + [it], f);
  }

  lemma {:induction false} HoldingSplice(s: State, p: Priority, f: Item -> bool, held: bool)
    ensures Holding(SpliceStep(s, p), f, held) == Holding(s, f, held)
  {
    SpliceConserves(s, p, f);
  }

  /** A step that starts no handler holds what it held; one that starts one holds the event. */
  lemma {:induction false} HoldingLoop(s: State, p: Priority, f: Item -> bool, held: bool)
    requires s.running == None
    ensures var t := LoopStep(s, p);
            Holding(t, f, t.running.Some? || held) == Holding(s, f, held)
  {
    if s.local != [] && Takes(p, s.local[0]) {
      assert Count(s.local, f) == OneIf(f(s.local[0])) + Count(s.local[1..], f);
    }
  }

  lemma {:induction false} HoldingFinish(s: State, p: Priority, f: Item -> bool)
    ensures Holding(FinishStep(s, p), f, false) == Holding(s, f, false)
  {
  }

  lemma {:induction false} HoldingWork(d: Side, f: Item -> bool)
    requires SideOk(d)
    ensures var e := WorkSide(d);
            && Holding(e.sched, f, BeforeDecrement(e.phase)) == Holding(d.sched, f, BeforeDecrement(d.phase))
            && Holding(e.sched, f, BeforeCallback(e.phase)) == Holding(d.sched, f, BeforeCallback(d.phase))
  {
    match d.sched.pc
    case Splice(p) =>
      HoldingSplice(d.sched, p, f, BeforeDecrement(d.phase));
      HoldingSplice(d.sched, p, f, BeforeCallback(d.phase));
    case Loop(p) =>
      HoldingLoop(d.sched, p, f, false);
    case Run(p) =>
      HoldingFinish(d.sched, p, f);
    case _ =>
      StillStep(d.sched);
  }

  lemma {:induction false} TicketsConcat(a: seq<Item>, b: seq<Item>)
    ensures Tickets(a + b) == Tickets(a) + Tickets(b)
  {
  }

  lemma {:induction false} WorkKeepsSide(d: Side)
    requires SideOk(d)
    ensures SideOk(WorkSide(d))
  {
    ControlStep(d.sched, Step);
    CountedStep(d.sched, Step);
    if d.sched.pc.Run? {
      if d.phase == CalledBack {
        TicketsConcat(d.sched.finished, RunningItems(d.sched));
      }
    } else if d.sched.pc.Splice? || d.sched.pc.Loop? {
    } else {
      StillStep(d.sched);
    }
  }

  lemma {:induction false} OtherKeepsSide(d: Side, a: Action)
    requires SideOk(d) && Harmless(a)
    ensures SideOk(d.(sched := Apply(d.sched, a)))
    ensures var t := Apply(d.sched, a);
            t.queues == d.sched.queues && t.local == d.sched.local && t.running == d.sched.running
  {
    ControlStep(d.sched, a);
    CountedStep(d.sched, a);
  }

  lemma {:induction false} EnqueueKeepsSide(d: Side, kind: int, prio: int, emit: nat)
    requires SideOk(d)
    ensures SideOk(d.(sched := EnqueueStep(d.sched, kind, prio, emit)))
  {
    ControlStep(d.sched, Enqueue(kind, prio, emit));
    CountedStep(d.sched, Enqueue(kind, prio, emit));
  }

  lemma {:induction false} LookupKeepsSide(d: Side, es: seq<Emitter>)
    requires SideOk(d)
    ensures SideOk(LookupSide(d, es))
    ensures LookupSide(d, es).sched == d.sched
    ensures BeforeDecrement(LookupSide(d, es).phase) == BeforeDecrement(d.phase)
    ensures BeforeCallback(LookupSide(d, es).phase) == BeforeCallback(d.phase)
  {
  }

  /** The running event's callback is recorded exactly once, on every branch of the handler. */
  lemma {:induction false} CallbackKeepsSide(d: Side, code: int)
    requires SideOk(d) && d.sched.running.Some? && BeforeCallback(d.phase)
    ensures SideOk(Side(d.sched, CalledBack, d.called + [(d.sched.running.value.ticket, code)]))
  {
    var it := d.sched.running.value;
    assert CallTickets(d.called + [(it.ticket, code)]) == CallTickets(d.called) + [it.ticket];
    assert Tickets(RunningItems(d.sched)) == [it.ticket];
  }

  // ---- the system

  ghost predicate Balanced(y: Sys) {
    y.allocs - y.frees == |y.calls| + UnreturnedAll(y.sides)
  }

  ghost predicate EmitterOk(e: Emitter) {
    (!e.alive ==> e.pendings == 0) && |e.handlers| == TYPE_MAX
  }

  ghost predicate SysInv(y: Sys) {
    && (forall w :: 0 <= w < |y.sides| ==> SideOk(y.sides[w]))
    && (forall i :: 0 <= i < |y.emitters| ==> EmitterOk(y.emitters[i]))
    && (forall em: nat :: Ledger(y, em))
    && Balanced(y)
  }

  lemma {:induction false} SideChange(y: Sys, w: nat, d: Side, em: nat)
    requires w < |y.sides| && Ledger(y, em)
    ensures var z := y.(sides := y.sides[w := d]);
            PendingsOf(z, em) == CallsOf(z.calls, em) + FlightAll(z.sides, em) + StrandedOf(z, em)
                                 + Flight(y.sides[w], em) - Flight(d, em)
  {
    FlightUpdate(y.sides, w, d, em);
  }

  lemma {:induction false} BeginLedger(y: Sys, em: nat, kind: int, prio: int)
    requires SysInv(y)
    ensures SysInv(BeginStep(y, em, kind, prio))
  {
    var z := BeginStep(y, em, kind, prio);
    forall e: nat
      ensures Ledger(z, e)
    {
      assert Ledger(y, e);
      CallsConcat(y.calls, [Call(em, kind, prio)], e);
    }
  }

  /** Out of range: the call ends with its event freed and its increment stranded. */
  lemma {:induction false} RefuseLedger(y: Sys, i: nat, w: nat)
    requires SysInv(y) && i < |y.calls| && w < |y.sides|
    requires y.calls[i].emit < |y.emitters| && Decode(y.calls[i].prio).None?
    ensures SysInv(HandStep(y, i, w))
  {
    var z := HandStep(y, i, w);
    forall e: nat
      ensures Ledger(z, e)
    {
      assert Ledger(y, e);
      CallsRemove(y.calls, i, e);
    }
  }

  lemma {:induction false} AcceptLedger(y: Sys, i: nat, w: nat)
    requires SysInv(y) && i < |y.calls| && w < |y.sides|
    requires y.calls[i].emit < |y.emitters| && Decode(y.calls[i].prio).Some?
    ensures SysInv(HandStep(y, i, w))
  {
    var z := HandStep(y, i, w);
    var c, d := y.calls[i], y.sides[w];
    forall e: nat
      ensures Ledger(z, e)
    {
      assert Ledger(y, e);
      CallsRemove(y.calls, i, e);
      HandFlight(y, w, c, e);
    }
    EnqueueKeepsSide(d, c.kind, c.prio, c.emit);
    HoldingEnqueue(d.sched, c.kind, c.prio, c.emit, Anything(), BeforeCallback(d.phase));
    UnreturnedUpdate(y.sides, w, z.sides[w]);
  }

  lemma {:induction false} HandLedger(y: Sys, i: nat, w: nat)
    requires SysInv(y)
    ensures SysInv(HandStep(y, i, w))
  {
    if i < |y.calls| && w < |y.sides| && y.calls[i].emit < |y.emitters| {
      if Decode(y.calls[i].prio).Some? {
        AcceptLedger(y, i, w);
      } else {
        RefuseLedger(y, i, w);
      }
    }
  }

  lemma {:induction false} HandFlight(y: Sys, w: nat, c: Call, em: nat)
    requires w < |y.sides| && Decode(c.prio).Some?
    ensures var d := y.sides[w];
            var e := d.(sched := EnqueueStep(d.sched, c.kind, c.prio, c.emit));
            FlightAll(y.sides[w := e], em) == FlightAll(y.sides, em) + OneIf(c.emit == em)
  {
    var d := y.sides[w];
    var e := d.(sched := EnqueueStep(d.sched, c.kind, c.prio, c.emit));
    HoldingEnqueue(d.sched, c.kind, c.prio, c.emit, OfEmitter(em), BeforeDecrement(d.phase));
    FlightUpdate(y.sides, w, e, em);
  }

  /** A step inside one worker that holds what it held. */
  lemma {:induction false} QuietSide(y: Sys, w: nat, d: Side)
    requires SysInv(y) && w < |y.sides| && SideOk(d)
    requires forall em: nat :: Flight(d, em) == Flight(y.sides[w], em)
    requires Unreturned(d) == Unreturned(y.sides[w])
    ensures SysInv(y.(sides := y.sides[w := d]))
  {
    var z := y.(sides := y.sides[w := d]);
    forall em: nat
      ensures Ledger(z, em)
    {
      assert Ledger(y, em);
      SideChange(y, w, d, em);
    }
    UnreturnedUpdate(y.sides, w, d);
  }

  lemma {:induction false} WorkLedger(y: Sys, w: nat)
    requires SysInv(y) && w < |y.sides|
    ensures SysInv(Do(y, Work(w)))
  {
    var d := y.sides[w];
    WorkKeepsSide(d);
    forall em: nat
      ensures Flight(WorkSide(d), em) == Flight(d, em)
    {
      HoldingWork(d, OfEmitter(em));
    }
    HoldingWork(d, Anything());
    QuietSide(y, w, WorkSide(d));
  }

  lemma {:induction false} OtherLedger(y: Sys, w: nat, a: Action)
    requires SysInv(y) && w < |y.sides| && Harmless(a)
    ensures SysInv(Do(y, Other(w, a)))
  {
    var d := y.sides[w];
    OtherKeepsSide(d, a);
    QuietSide(y, w, d.(sched := Apply(d.sched, a)));
  }

  lemma {:induction false} LookupLedger(y: Sys, w: nat)
    requires SysInv(y) && w < |y.sides|
    ensures SysInv(Do(y, Lookup(w)))
  {
    var d := y.sides[w];
    LookupKeepsSide(d, y.emitters);
    QuietSide(y, w, LookupSide(d, y.emitters));
  }

  lemma {:induction false} UserReturnsLedger(y: Sys, w: nat, code: int)
    requires SysInv(y)
    ensures SysInv(UserReturnsStep(y, w, code))
  {
    if w < |y.sides| && y.sides[w].phase == InUser && y.sides[w].sched.running.Some? {
      var z := UserReturnsStep(y, w, code);
      var d := y.sides[w];
      var it := d.sched.running.value;
      var e := d.(phase := Decremented(code));
      RunningAlive(y, w);
      forall em: nat
        ensures Ledger(z, em)
      {
        assert Ledger(y, em);
        FlightUpdate(y.sides, w, e, em);
        assert OfEmitter(em)(it) == (it.emit == em);
      }
      UnreturnedUpdate(y.sides, w, e);
      assert SideOk(e);
    }
  }

  /** The callback of the branches that leave ee_pendings as it is: the increment is stranded. */
  lemma {:induction false} FailingLedger(y: Sys, w: nat)
    requires SysInv(y) && w < |y.sides| && y.sides[w].phase.Failing? && y.sides[w].sched.running.Some?
    ensures SysInv(CallbackStep(y, w))
  {
    var d := y.sides[w];
    var it := d.sched.running.value;
    var e := Side(d.sched, CalledBack, d.called + [(it.ticket, d.phase.code)]);
    CallbackKeepsSide(d, d.phase.code);
    RunningAlive(y, w);
    var z := CallbackStep(y, w);
    forall em: nat
      ensures Ledger(z, em)
    {
      assert Ledger(y, em);
      FlightUpdate(y.sides, w, e, em);
      assert OfEmitter(em)(it) == (it.emit == em);
    }
    UnreturnedUpdate(y.sides, w, e);
    assert Anything()(it);
  }

  /** The callback after the decrement. */
  lemma {:induction false} DecrementedLedger(y: Sys, w: nat)
    requires SysInv(y) && w < |y.sides| && y.sides[w].phase.Decremented? && y.sides[w].sched.running.Some?
    ensures SysInv(CallbackStep(y, w))
  {
    var d := y.sides[w];
    var it := d.sched.running.value;
    var e := Side(d.sched, CalledBack, d.called + [(it.ticket, d.phase.code)]);
    CallbackKeepsSide(d, d.phase.code);
    var z := CallbackStep(y, w);
    forall em: nat
      ensures Ledger(z, em)
    {
      assert Ledger(y, em);
      FlightUpdate(y.sides, w, e, em);
    }
    UnreturnedUpdate(y.sides, w, e);
    assert Anything()(it);
  }

  lemma {:induction false} CallbackLedger(y: Sys, w: nat)
    requires SysInv(y)
    ensures SysInv(CallbackStep(y, w))
  {
    if w < |y.sides| && y.sides[w].sched.running.Some? {
      if y.sides[w].phase.Failing? {
        FailingLedger(y, w);
      } else if y.sides[w].phase.Decremented? {
        DecrementedLedger(y, w);
      }
    }
  }

  /** The emitter of an event in the handler before the decrement exists and has not been freed. */
  lemma {:induction false} RunningAlive(y: Sys, w: nat)
    requires SysInv(y) && w < |y.sides|
    requires BeforeDecrement(y.sides[w].phase) && y.sides[w].sched.running.Some?
    ensures var em := y.sides[w].sched.running.value.emit;
            em < |y.emitters| && y.emitters[em].alive && y.emitters[em].pendings > 0
  {
    var em := y.sides[w].sched.running.value.emit;
    assert Ledger(y, em);
    FlightMember(y.sides, w, em);
    assert OfEmitter(em)(y.sides[w].sched.running.value);
  }

  lemma {:induction false} CreateLedger(y: Sys)
    requires SysInv(y)
    ensures SysInv(Do(y, Create))
  {
    var z := Do(y, Create);
    forall em: nat
      ensures Ledger(z, em)
    {
      assert Ledger(y, em);
    }
  }

  /** Changing the handler table or freeing an emitter with ee_pendings == 0 moves no count. */
  lemma {:induction false} TableLedger(y: Sys, i: nat, e: Emitter)
    requires SysInv(y) && i < |y.emitters| && EmitterOk(e)
    requires e.pendings == y.emitters[i].pendings && e.stranded == y.emitters[i].stranded
    ensures SysInv(y.(emitters := y.emitters[i := e]))
  {
    var z := y.(emitters := y.emitters[i := e]);
    forall em: nat
      ensures Ledger(z, em)
    {
      assert Ledger(y, em);
    }
  }

  lemma {:induction false} SetHandlerLedger(y: Sys, em: nat, kind: int, on: bool)
    requires SysInv(y)
    ensures SysInv(SetHandler(y, em, kind, on))
  {
    if em < |y.emitters| && y.emitters[em].alive && 0 <= kind < |y.emitters[em].handlers| {
      var e := y.emitters[em];
      TableLedger(y, em, e.(handlers := e.handlers[kind := on]));
    }
  }

  lemma {:induction false} DestroyLedger(y: Sys, em: nat)
    requires SysInv(y)
    ensures SysInv(DestroyStep(y, em))
  {
    if em < |y.emitters| && y.emitters[em].alive && y.emitters[em].pendings == 0 {
      TableLedger(y, em, y.emitters[em].(alive := false));
    }
  }

  lemma {:induction false} SysStep(y: Sys, a: Act)
    requires SysInv(y)
    ensures SysInv(Do(y, a))
  {
    match a
    case Create => CreateLedger(y);
    case AddHandler(em, kind) => SetHandlerLedger(y, em, kind, true);
    case RmvWatch(em, kind) => SetHandlerLedger(y, em, kind, false);
    case Begin(em, kind, prio) => BeginLedger(y, em, kind, prio);
    case Hand(i, w) => HandLedger(y, i, w);
    case Other(w, act) => if w < |y.sides| && Harmless(act) { OtherLedger(y, w, act); }
    case Work(w) => if w < |y.sides| { WorkLedger(y, w); }
    case Lookup(w) => if w < |y.sides| { LookupLedger(y, w); }
    case UserReturns(w, code) => UserReturnsLedger(y, w, code);
    case Callback(w) => CallbackLedger(y, w);
    case Destroy(em) => DestroyLedger(y, em);
  }

  lemma {:induction false} FreshSides(ds: seq<Side>, em: nat)
    requires forall w :: 0 <= w < |ds| ==> FreshSide(ds[w])
    ensures FlightAll(ds, em) == 0 && UnreturnedAll(ds) == 0
  {
    if ds != [] {
      assert FreshSide(ds[0]);
      FreshSides(ds[1..], em);
    }
  }

  lemma {:induction false} FreshSideOk(d: Side)
    requires FreshSide(d)
    ensures SideOk(d)
  {
  }

  lemma {:induction false} SysStart(y: Sys)
    requires Fresh(y)
    ensures SysInv(y)
  {
    forall em: nat
      ensures Ledger(y, em)
    {
      FreshSides(y.sides, em);
    }
    forall w | 0 <= w < |y.sides|
      ensures SideOk(y.sides[w])
    {
      FreshSideOk(y.sides[w]);
    }
    FreshSides(y.sides, 0);
  }

  lemma {:induction false} SysAlways(y0: Sys, acts: seq<Act>)
    requires Fresh(y0)
    ensures SysInv(Perform(y0, acts))
  {
    if acts == [] {
      SysStart(y0);
    } else {
      SysAlways(y0, acts[..|acts| - 1]);
      SysStep(Perform(y0, acts[..|acts| - 1]), acts[|acts| - 1]);
    }
  }

  // ---- what a dispatch does

  /** A dispatch to a live emitter: for a type in range with a handler it adds one call and one to
      ee_pendings, and for any other it adds neither and gives the event back; whatever else is in flight. */
  lemma {:induction false} BeginIs(y: Sys, em: nat, kind: int, prio: int)
    requires SysInv(y) && em < |y.emitters| && y.emitters[em].alive
    ensures var z := Do(y, Begin(em, kind, prio));
            var e := y.emitters[em];
            var handled := 0 <= kind < TYPE_MAX && e.handlers[kind];
            && |z.emitters| == |y.emitters| && z.sides == y.sides
            && z.calls == y.calls + (if handled then [Call(em, kind, prio)] else [])
            && z.emitters[em].pendings == e.pendings + (if handled then 1 else 0)
            && z.emitters[em].handlers == e.handlers && z.emitters[em].alive
            && (forall i :: 0 <= i < |y.emitters| && i != em ==> z.emitters[i] == y.emitters[i])
            && z.allocs - z.frees == y.allocs - y.frees + (if handled then 1 else 0)
  {
    assert EmitterOk(y.emitters[em]);
  }

  /** And with a valid priority, handed to worker `w`, it is accepted there with its type, priority and
      emitter, at the back of the queue of that priority, and nowhere else; the signal of the dispatcher
      then leaves that worker notified. */
  lemma {:induction false} DispatchArrives(y: Sys, em: nat, kind: int, prio: int, w: nat)
    requires SysInv(y) && em < |y.emitters| && y.emitters[em].alive && w < |y.sides|
    requires 0 <= kind < TYPE_MAX && y.emitters[em].handlers[kind] && 0 <= prio <= 4
    ensures var z := Do(Do(y, Begin(em, kind, prio)), Hand(|y.calls|, w));
            Decode(prio).Some? &&
            var s := y.sides[w].sched;
            var p := Decode(prio).value;
            var it := Item(|s.accepted|, p, kind, em);
            && Code(p) == prio && z.calls == y.calls && |z.sides| == |y.sides|
            && z.sides[w].sched.accepted == s.accepted + [it]
            && z.sides[w].sched.queues == s.queues.With(p, s.queues.At(p) + [it])
            && (forall v :: 0 <= v < |y.sides| && v != w ==> z.sides[v] == y.sides[v])
            && em < |z.emitters| && z.emitters[em].pendings == y.emitters[em].pendings + 1
            && var u := Do(z, Other(w, Signal(|s.accepted|)));
               w < |u.sides| && u.sides[w].sched.cvCount == 1 && |s.accepted| !in u.sides[w].sched.unsignalled
  {
    BeginIs(y, em, kind, prio);
    var b := Do(y, Begin(em, kind, prio));
    assert b.calls[..|y.calls|] + b.calls[|y.calls| + 1..] == y.calls;
    assert SideOk(y.sides[w]);
  }

  // ---- emitter lifetime

  /** In every reachable state ee_pendings is the number of calls in progress, of events in flight
      on all workers, and of stranded increments: so the events in flight are at most ee_pendings. */
  lemma {:induction false} PendingsExact(y0: Sys, acts: seq<Act>, em: nat)
    requires Fresh(y0)
    ensures var y := Perform(y0, acts);
            && PendingsOf(y, em) == CallsOf(y.calls, em) + FlightAll(y.sides, em) + StrandedOf(y, em)
            && FlightAll(y.sides, em) <= PendingsOf(y, em)
  {
    SysAlways(y0, acts);
    assert Ledger(Perform(y0, acts), em);
  }

  /** `emit_destroy` succeeds exactly when no call is in progress, no event is in flight and no
      increment was ever stranded. */
  lemma {:induction false} DestroyIff(y0: Sys, acts: seq<Act>, em: nat)
    requires Fresh(y0)
    requires em < |Perform(y0, acts).emitters| && Perform(y0, acts).emitters[em].alive
    ensures var y := Perform(y0, acts);
            !DestroyStep(y, em).emitters[em].alive <==>
              CallsOf(y.calls, em) == 0 && FlightAll(y.sides, em) == 0 && StrandedOf(y, em) == 0
  {
    PendingsExact(y0, acts, em);
  }

  lemma {:induction false} CountNone(xs: seq<Item>, em: nat, x: Item)
    requires Count(xs, OfEmitter(em)) == 0 && x in xs
    ensures x.emit != em
  {
    if x == xs[0] {
      assert OfEmitter(em)(xs[0]) == (x.emit == em);
    } else {
      CountNone(xs[1..], em, x);
    }
  }

  /** No scheduled event of any worker points to a freed emitter, then or later: not in a queue,
      not in a private list, not in a handler that still uses the emitter. */
  lemma {:induction false} FreedIsUnreferenced(y0: Sys, acts: seq<Act>, em: nat, w: nat, p: Priority, x: Item)
    requires Fresh(y0)
    requires var y := Perform(y0, acts);
             && w < |y.sides| && em < |y.emitters| && !y.emitters[em].alive
             && (|| x in y.sides[w].sched.queues.At(p)
                 || x in y.sides[w].sched.local
                 || (x in RunningItems(y.sides[w].sched) && BeforeDecrement(y.sides[w].phase)))
    ensures x.emit != em
  {
    var y := Perform(y0, acts);
    SysAlways(y0, acts);
    assert Ledger(y, em) && EmitterOk(y.emitters[em]);
    FlightMember(y.sides, w, em);
    var s := y.sides[w].sched;
    if x in s.queues.At(p) {
      CountNone(s.queues.At(p), em, x);
    } else if x in s.local {
      CountNone(s.local, em, x);
    } else {
      assert OfEmitter(em)(x) == (x.emit == em);
    }
  }
}
