/**
 The worker of `src/worker.c` in its own form: an object whose fields the dispatchers and the
 worker thread update in place. Each method is one atomic access, or a loop over them, and is
 proved to perform the corresponding steps of the transition system in `Scheduler`.
 */
module WorkerThread {
  import opened Wrappers
  import opened Errno
  import opened Scheduler
  import opened SchedulerInvariants
  import opened SchedulerProgress
  import opened LinkedList
  import opened EventLists

  lemma StartInv(s: State)
    requires Initial(s)
    ensures Inv(s)
  {
  }

  lemma CodeDecode(p: Priority)
    ensures Decode(Code(p)) == Some(p)
  {
  }

  lemma {:induction false} EnqueueIs(s: State, it: Item)
    requires it.ticket == |s.accepted|
    ensures EnqueueStep(s, it.kind, Code(it.prio), it.emit) ==
            Admitted(s, it).(queues := s.queues.With(it.prio, s.queues.At(it.prio) + [it]))
  {
    CodeDecode(it.prio);
  }

  /** An enqueue but for the list: the counter, the dispatcher's ticket and the history. */
  function Admitted(s: State, it: Item): State {
    s.(pending := s.pending.With(it.prio, s.pending.At(it.prio) + 1),
       unsignalled := s.unsignalled + {it.ticket},
       accepted := s.accepted + [it],
       early := if s.status == Running then s.early + 1 else s.early)
  }

  /** Enqueue and signal in one; a priority out of range changes nothing. */
  function Delivered(s: State, kind: int, prio: int, emit: nat): State {
    if Decode(prio).None? then s
    else SignalStep(EnqueueStep(s, kind, prio, emit), |s.accepted|)
  }

  /** After an uninterrupted dispatch the event is at the back of the queue of its priority, the signal is
      up, and a sleeping worker has been notified. */
  lemma {:induction false} DeliveredIs(s: State, kind: int, prio: int, emit: nat)
    requires Control(s) && 0 <= prio <= 4
    ensures var t := Delivered(s, kind, prio, emit);
            Decode(prio).Some? &&
            var p := Decode(prio).value;
            var it := Item(|s.accepted|, p, kind, emit);
            && Code(p) == prio
            && t.queues.At(p) == s.queues.At(p) + [it] && t.accepted == s.accepted + [it]
            && (forall q: Priority :: q != p ==> t.queues.At(q) == s.queues.At(q))
            && t.cvCount == 1 && (t.pc == Blocked ==> t.woken) && |s.accepted| !in t.unsignalled
            && t.pc == s.pc && t.local == s.local && t.status == s.status
  {
  }

  /** A splice but for the lists. */
  function Reset(s: State, p: Priority): State {
    s.(pending := s.pending.With(p, 0),
       ratio := if p == High then s.pending.high else if p == Norm then RatioDiv(s.ratio) else s.ratio,
       high := if p == High then (if s.pending.high != 0 then 1 else 0) else s.high,
       pc := Loop(p))
  }

  lemma {:induction false} SpliceIs(s: State, p: Priority)
    ensures SpliceStep(s, p) == Reset(s, p).(
              queues := s.queues.With(p, []),
              local := if p == Norm || p == Idle then s.local + s.queues.At(p) else s.queues.At(p) + s.local)
  {
  }

  class Worker {
    var status: Status                  // wk_status
    var cvCount: int                    // wk_event.cv_count
    var woken: bool                     // wk_event.cv_convar has been signalled for the sleeper
    const lists: Lists                  // wk_crit_events ... wk_idle_events, and the private list `events`
    var pending: Lanes<int>             // wk_crit_pending ... wk_idle_pending
    var handled: Lanes<int>             // wk_crit_handled ... wk_idle_handled
    var pc: Pc                          // program point of worker_routine
    var current: Option<Item>           // the event whose handler runs
    var ratio: int
    var high: int
    var count: nat                      // accepted dispatches so far
    var unsignalled: set<nat>           // dispatchers between their unlock and their signal
    ghost var accepted: seq<Item>
    ghost var started: seq<Item>
    ghost var finished: seq<Item>
    ghost var early: nat

    ghost function Abs(): State
      reads this, lists
    {
      State(status, cvCount, woken, pc, lists.queues, pending, handled, lists.local, current, ratio, high,
            unsignalled, accepted, started, finished, early)
    }

    ghost predicate Valid()
      reads this, lists, lists.repr
    {
      lists.Valid() && Inv(Abs()) && count == |accepted|
    }

    constructor ()
      ensures Initial(Abs()) && lists.Valid() && count == 0
      ensures fresh(lists) && fresh(lists.repr)
    {
      lists := new Lists();
      status, cvCount, woken, pc := Running, 0, false, Check;
      pending, handled := Lanes(0, 0, 0, 0, 0), Lanes(0, 0, 0, 0, 0);
      current, ratio, high, count := None, 0, 0, 0;
      unsignalled, accepted, started, finished, early := {}, [], [], [], 0;
    }

    lemma StartsValid()
      requires Initial(Abs()) && lists.Valid() && count == 0
      ensures Valid()
    {
      StartInv(Abs());
    }

    /** The locked region of `__edp_dispatch`. */
    method Append(it: Item, node: Node)
      requires lists.Valid() && it.ticket == count == |accepted| && node !in lists.repr
      modifies this, lists, lists.repr, node
      ensures lists.Valid() && lists.repr == old(lists.repr) + {node}
      ensures Abs() == EnqueueStep(old(Abs()), it.kind, Code(it.prio), it.emit) && count == |accepted|
    {
      EnqueueIs(Abs(), it);
      Admit(it);
      lists.Append(it.prio, it, node);
    }

    /** The counter; the dispatcher holds a ticket until it has signalled. */
    method Admit(it: Item)
      modifies this
      ensures Abs() == Admitted(old(Abs()), it) && count == old(count) + 1
    {
      pending := pending.With(it.prio, pending.At(it.prio) + 1);
      count := count + 1;
      unsignalled := unsignalled + {it.ticket};
      accepted := accepted + [it];
      early := if status == Running then early + 1 else early;
    }

    /** `__edp_dispatch` up to the unlock; `node` is the ev_node of the event, which is in no list. */
    method Accept(kind: int, prio: int, emit: nat, node: Node) returns (ret: int)
      requires Valid() && node !in lists.repr
      modifies this, lists, lists.repr, node
      ensures Valid() && lists.repr == old(lists.repr) + (if ret == 0 then {node} else {})
      ensures Abs() == EnqueueStep(old(Abs()), kind, prio, emit)
      ensures ret == if 0 <= prio <= 4 then 0 else -ERANGE
    {
      InvStep(Abs(), Enqueue(kind, prio, emit));
      match Decode(prio)
      case None =>
        ret := -ERANGE;
      case Some(p) =>
        Append(Item(count, p, kind, emit), node);
        ret := 0;
    }

    /** `__spi_convar_signal` by the dispatcher that holds the ticket. */
    method Signal(ticket: nat)
      requires Valid()
      modifies this
      ensures Valid() && Abs() == SignalStep(old(Abs()), ticket) && count == old(count)
      ensures ticket in old(unsignalled) ==> cvCount == 1 && (pc == Blocked ==> woken)
      ensures ticket !in unsignalled
    {
      InvStep(Abs(), Action.Signal(ticket));
      if ticket in unsignalled {
        unsignalled := unsignalled - {ticket};
        if cvCount == 0 {
          cvCount := 1;
          woken := pc == Blocked;
        }
      }
    }

    /** `__edp_dispatch` of a thread that is not interrupted between unlock and signal. */
    method Dispatch(kind: int, prio: int, emit: nat, node: Node) returns (ret: int)
      requires Valid() && node !in lists.repr
      modifies this, lists, lists.repr, node
      ensures Valid() && lists.repr == old(lists.repr) + (if ret == 0 then {node} else {})
      ensures ret == if Decode(prio).Some? then 0 else -ERANGE
      ensures Abs() == Delivered(old(Abs()), kind, prio, emit)
      ensures ret == 0 ==> cvCount == 1 && (pc == Blocked ==> woken) && old(count) !in unsignalled
      ensures ret != 0 ==> cvCount == old(cvCount)
    {
      var ticket := count;
      ret := Accept(kind, prio, emit, node);
      if ret == 0 {
        Signal(ticket);
      }
    }

    /** `worker_fini` lets the worker stop. */
    method Stop()
      requires Valid()
      modifies this
      ensures Valid() && Abs() == Apply(old(Abs()), Halt)
      ensures status == if old(status) == Running then Status.Stop else old(status)
    {
      InvStep(Abs(), Halt);
      if status == Running {
        status := Status.Stop;
      }
    }

    method Wake()
      requires pc == Wait || pc == Blocked
      modifies this
      ensures Abs() == WakeStep(old(Abs())) && count == old(count)
    {
      cvCount, woken, pc := 0, false, Splice(Crit);
    }

    /** The locked region at the head of a stage. */
    method SpliceQueue(p: Priority)
      requires lists.Valid() && pc == Splice(p)
      modifies this, lists, lists.repr
      ensures lists.Valid() && lists.repr == old(lists.repr)
      ensures Abs() == SpliceStep(old(Abs()), p) && count == old(count)
      ensures p == Norm && old(ratio) >= 0 ==> 5 * ratio <= old(ratio) < 5 * ratio + 5
      ensures p == Norm && old(ratio) < 0 ==> 5 * ratio - 5 < old(ratio) <= 5 * ratio
      ensures p == High ==> ratio == old(pending.high) && (high == 0 <==> ratio == 0)
      ensures p != Norm && p != High ==> ratio == old(ratio) && high == old(high)
    {
      SpliceIs(Abs(), p);
      ResetPending(p);
      lists.TakeOver(p);
    }

    /** Counter, ratio and high of the stage. */
    method ResetPending(p: Priority)
      modifies this`pending, this`ratio, this`high, this`pc
      ensures Abs() == Reset(old(Abs()), p)
    {
      if p == High {
        ratio := pending.high;
        high := if ratio != 0 then 1 else 0;
      } else if p == Norm {
        ratio := RatioDiv(ratio);
      }
      pending := pending.With(p, 0);
      pc := Loop(p);
    }

    /** The head of a stage loop. */
    method NextEvent(p: Priority)
      requires lists.Valid() && pc == Loop(p) && current == None
      modifies this, lists, lists.repr
      ensures lists.Valid() && lists.repr <= old(lists.repr)
      ensures Abs() == LoopStep(old(Abs()), p) && count == old(count)
    {
      var first := lists.First();
      if first.Some? && Takes(p, first.value) {
        TakeEvent(p, first.value);
      } else {
        pc := if p == Idle then Check else Splice(Below(p));
      }
    }

    /** `list_del` of the first event, whose handler is called next. */
    method TakeEvent(p: Priority, it: Item)
      requires lists.Valid() && lists.local != [] && it == lists.local[0]
      modifies this, lists, lists.repr
      ensures lists.Valid() && lists.repr <= old(lists.repr) && count == old(count)
      ensures Abs() == old(Abs()).(local := old(lists.local)[1..], running := Some(it),
                                   started := old(started) + [it], pc := Run(p))
    {
      current := Some(it);
      started := started + [it];
      pc := Run(p);
      lists.Pop();
    }

    method HandlerReturns(p: Priority)
      requires pc == Run(p) && current.Some?
      modifies this
      ensures Abs() == FinishStep(old(Abs()), p) && count == old(count)
      ensures forall q: Priority :: handled.At(q) == old(handled).At(q) + if q == p then 1 else 0
    {
      RecordHandled(p);
      pc := if p == Crit then Loop(Crit) else Poll(p, Crit);
    }

    method RecordHandled(p: Priority)
      requires current.Some?
      modifies this`finished, this`current, this`handled
      ensures finished == old(finished) + [old(current).value] && current == None
      ensures handled == old(handled).With(p, old(handled).At(p) + 1)
    {
      finished := finished + [current.value];
      current := None;
      handled := handled.With(p, handled.At(p) + 1);
    }

    method PollPending(p: Priority, q: Priority)
      requires pc == Poll(p, q) && Code(q) > Code(p)
      modifies this
      ensures Abs() == PollStep(old(Abs()), p, q) && count == old(count)
      ensures pc == Splice(q) <==> pending.At(q) != 0 && (p == Norm && q == High ==> high == 0 || old(ratio) == 0)
    {
      var leave := pending.At(q) != 0;
      if p == Norm && q == High {
        leave := leave && (high == 0 || ratio == 0);
      }
      if leave {
        pc := Splice(q);
      } else if Below(q) == p {
        if p == Norm {
          ratio := ratio - 1;
        }
        pc := Loop(p);
      } else {
        pc := Poll(p, Below(q));
      }
    }

    method PollAfterBreak(q: Priority)
      requires pc == Break(q)
      modifies this
      ensures Abs() == BreakStep(old(Abs()), q) && count == old(count)
    {
      if pending.At(q) != 0 {
        pc := Splice(q);
      } else if q == Idle {
        status := Zero;
        pc := Exit;
      } else {
        pc := Break(Below(q));
      }
    }

    /** The next step of the worker thread. */
    method Advance()
      requires Valid()
      modifies this, lists, lists.repr
      ensures lists.repr <= old(lists.repr)
      ensures Valid() && Abs() == WorkerStep(old(Abs())) && count == old(count)
    {
      InvStep(Abs(), Step);
      match pc
      case Check => pc := if status == Status.Stop then Break(Crit) else Wait;
      case Wait => if cvCount == 0 { pc := Blocked; } else { Wake(); }
      case Blocked => if woken { Wake(); }
      case Splice(p) => SpliceQueue(p);
      case Loop(p) => NextEvent(p);
      case Run(p) => HandlerReturns(p);
      case Poll(p, q) => PollPending(p, q);
      case Break(q) => PollAfterBreak(q);
      case Exit =>
    }

    /** The worker alone, from wherever it is, until only another thread can make it go on. */
    method RunToRest()
      requires Valid()
      modifies this, lists, lists.repr
      ensures lists.repr <= old(lists.repr)
      ensures Valid() && Abs() == Rest(old(Abs())) && AtRest(Abs())
    {
      while !(pc == Exit || (pc == Blocked && !woken))
        invariant lists.repr <= old(lists.repr)
        invariant Valid() && Rest(Abs()) == Rest(old(Abs()))
        decreases Unstarted(Abs()), cvCount, Phase(Abs()), Distance(pc)
      {
        WorkerProgress(Abs());
        Advance();
      }
    }

    /** One action of whichever thread it belongs to. */
    method Act(a: Action)
      requires Valid()
      modifies this, lists, lists.repr
      ensures fresh(lists.repr - old(lists.repr))
      ensures Valid() && Abs() == Apply(old(Abs()), a)
    {
      InvStep(Abs(), a);
      match a
      case Enqueue(kind, prio, emit) =>
        var node := new Node();      // that of the dispatcher's event
        var _ := Accept(kind, prio, emit, node);
      case Signal(t) => Signal(t);
      case Step => Advance();
      case Spurious => if pc == Blocked { Wake(); }
      case Halt => Stop();
    }

    /** Any interleaving of dispatchers, `worker_fini` and the worker. */
    method Interleave(acts: seq<Action>)
      requires Valid()
      modifies this, lists, lists.repr
      ensures fresh(lists.repr - old(lists.repr))
      ensures Valid() && Abs() == Exec(old(Abs()), acts)
    {
      var i := 0;
      while i < |acts|
        invariant 0 <= i <= |acts|
        invariant fresh(lists.repr - old(lists.repr))
        invariant Valid() && Abs() == Exec(old(Abs()), acts[..i])
      {
        ExecSnoc(old(Abs()), acts[..i], acts[i]);
        assert acts[..i + 1] == acts[..i] + [acts[i]];
        Act(acts[i]);
        i := i + 1;
      }
      assert acts[..|acts|] == acts;
    }

    /** One worker step, recorded at the end of a run from `s0`. */
    method Tick(ghost s0: State, ghost before: seq<Action>) returns (ghost trace: seq<Action>)
      requires Valid() && Abs() == Exec(s0, before)
      modifies this, lists, lists.repr
      ensures lists.repr <= old(lists.repr)
      ensures Valid() && Abs() == Exec(s0, trace) && Abs() == WorkerStep(old(Abs()))
      ensures trace == before + [Step]
    {
      trace := before + [Step];
      ExecSnoc(s0, before, Step);
      Advance();
    }

    /** Steps of other threads while a handler runs, recorded likewise. */
    method Elsewhere(others: seq<Action>, ghost s0: State, ghost before: seq<Action>)
      returns (ghost trace: seq<Action>)
      requires Valid() && Abs() == Exec(s0, before) && Foreign(others)
      modifies this, lists, lists.repr
      ensures fresh(lists.repr - old(lists.repr))
      ensures Valid() && Abs() == Exec(s0, trace) && trace == before + others
      ensures pc == old(pc) && lists.local == old(lists.local) && current == old(current)
    {
      trace := before + others;
      ExecConcat(s0, before, others);
      ForeignKeeps(Abs(), others);
      Interleave(others);
    }

    /** The reads of the pending counters after a handler of stage `p`. */
    method PollAll(p: Priority, ghost s0: State, ghost before: seq<Action>)
      returns (ghost trace: seq<Action>)
      requires Valid() && Abs() == Exec(s0, before) && (pc == Loop(p) || pc == Poll(p, Crit))
      modifies this, lists, lists.repr
      ensures lists.repr <= old(lists.repr)
      ensures Valid() && Abs() == Exec(s0, trace)
      ensures lists.local == old(lists.local) && (pc == Loop(p) || pc.Splice?)
    {
      trace := before;
      while pc.Poll?
        invariant lists.repr <= old(lists.repr)
        invariant Valid() && Abs() == Exec(s0, trace)
        invariant lists.local == old(lists.local)
        invariant pc == Loop(p) || pc.Splice? || (pc.Poll? && pc.stage == p)
        decreases Distance(pc)
      {
        PollStays(Abs());
        trace := Tick(s0, trace);
      }
    }

    /** The pop of an event and its handler, while other threads act. */
    method RunHandler(p: Priority, others: seq<Action>, ghost s0: State, ghost before: seq<Action>)
      returns (ghost trace: seq<Action>)
      requires Valid() && Abs() == Exec(s0, before)
      requires pc == Loop(p) && lists.local != [] && Takes(p, lists.local[0]) && Foreign(others)
      modifies this, lists, lists.repr
      ensures fresh(lists.repr - old(lists.repr))
      ensures Valid() && Abs() == Exec(s0, trace)
      ensures lists.local == old(lists.local)[1..] && pc == Run(p)
    {
      trace := Tick(s0, before);
      assert pc == Run(p) && current.Some?;
      trace := Elsewhere(others, s0, trace);
    }

    /** The counter of the stage, and the reads of the pending counters. */
    method AfterHandler(p: Priority, ghost s0: State, ghost before: seq<Action>) returns (ghost trace: seq<Action>)
      requires Valid() && Abs() == Exec(s0, before) && pc == Run(p)
      modifies this, lists, lists.repr
      ensures lists.repr <= old(lists.repr)
      ensures Valid() && Abs() == Exec(s0, trace)
      ensures lists.local == old(lists.local) && (pc == Loop(p) || pc.Splice?)
    {
      trace := Tick(s0, before);
      trace := PollAll(p, s0, trace);
    }

    /** One iteration of a stage loop: pop, handler, and the reads of the pending counters. */
    method RunEvent(p: Priority, others: seq<Action>, ghost s0: State, ghost before: seq<Action>)
      returns (ghost trace: seq<Action>, first: Option<Item>)
      requires Valid() && Abs() == Exec(s0, before)
      requires pc == Loop(p) && lists.local != [] && Takes(p, lists.local[0]) && Foreign(others)
      modifies this, lists, lists.repr
      ensures fresh(lists.repr - old(lists.repr))
      ensures Valid() && Abs() == Exec(s0, trace)
      ensures lists.local == old(lists.local)[1..] && (pc == Loop(p) || pc.Splice?)
      ensures first == if lists.local == [] then None else Some(lists.local[0])
    {
      trace := RunHandler(p, others, s0, before);
      trace := AfterHandler(p, s0, trace);
      first := lists.First();
    }

    /** The loop of a stage. It ends at the head of another stage or of the main loop. */
    method RunLoop(p: Priority, others: seq<seq<Action>>, ghost s0: State, ghost before: seq<Action>)
      returns (ghost trace: seq<Action>)
      requires Valid() && Abs() == Exec(s0, before) && pc == Loop(p)
      requires forall i :: 0 <= i < |others| ==> Foreign(others[i])
      modifies this, lists, lists.repr
      ensures fresh(lists.repr - old(lists.repr))
      ensures Valid() && Abs() == Exec(s0, trace)
      ensures pc.Splice? || pc == Check
    {
      trace := before;
      var i := 0;
      var first := lists.First();
      while pc == Loop(p) && first.Some? && Takes(p, first.value)
        invariant fresh(lists.repr - old(lists.repr))
        invariant Valid() && Abs() == Exec(s0, trace)
        invariant pc == Loop(p) || pc.Splice?
        invariant first == if lists.local == [] then None else Some(lists.local[0])
        decreases |lists.local|
      {
        trace, first := RunEvent(p, if i < |others| then others[i] else [], s0, trace);
        i := i + 1;
      }
      if pc == Loop(p) {
        trace := Tick(s0, trace);
      }
    }

    /** One stage of `worker_routine`: splice, then the loop with its backward jumps. While the i-th
        handler runs, the other threads (or the handler itself) perform `others[i]`. The stage
        ends at the head of another stage or of the main loop, and what it did is a run. */
    method RunStage(p: Priority, others: seq<seq<Action>>) returns (ghost trace: seq<Action>)
      requires Valid() && pc == Splice(p)
      requires forall i :: 0 <= i < |others| ==> Foreign(others[i])
      modifies this, lists, lists.repr
      ensures fresh(lists.repr - old(lists.repr))
      ensures Valid() && Abs() == Exec(old(Abs()), trace)
      ensures pc.Splice? || pc == Check
    {
      ghost var s0 := Abs();
      trace := Tick(s0, []);
      trace := RunLoop(p, others, s0, trace);
    }
  }

  lemma {:induction false} PollStays(s: State)
    requires Control(s) && s.pc.Poll?
    ensures var t := WorkerStep(s);
            && t.local == s.local && Distance(t.pc) < Distance(s.pc)
            && (t.pc == Loop(s.pc.stage) || t.pc.Splice? || (t.pc.Poll? && t.pc.stage == s.pc.stage))
  {
  }

  /** Actions of other threads. */
  predicate Foreign(acts: seq<Action>) {
    forall i :: 0 <= i < |acts| ==> acts[i].Enqueue? || acts[i].Signal? || acts[i].Halt?
  }

  /** Other threads do not touch what the worker thread keeps to itself. */
  lemma {:induction false} ForeignKeeps(s: State, acts: seq<Action>)
    requires Foreign(acts)
    ensures var t := Exec(s, acts);
            t.pc == s.pc && t.local == s.local && t.running == s.running
            && t.ratio == s.ratio && t.high == s.high
  {
    if acts != [] {
      ForeignKeeps(s, acts[..|acts| - 1]);
    }
  }

  lemma {:induction false} ExecConcat(s: State, a: seq<Action>, b: seq<Action>)
    ensures Exec(s, a + b) == Exec(Exec(s, a), b)
  {
    if b == [] {
      assert a + b == a;
    } else {
      var b' := b[..|b| - 1];
      ExecConcat(s, a, b');
      assert a + b == (a + b') + [b[|b| - 1]];
      ExecSnoc(s, a + b', b[|b| - 1]);
    }
  }
}
