/** Each worker of the emitter system is a scheduler run; completion and memory balance follow. */
module EmitterCompletion {
  import opened Wrappers
  import opened Scheduler
  import opened SchedulerInvariants
  import opened EmitterLifetime
  import opened EmitterProofs

  ghost predicate IsRun(s: State) {
    exists s0, acts :: Initial(s0) && s == Exec(s0, acts)
  }

  lemma {:induction false} RunOn(s: State, a: Action)
    requires IsRun(s)
    ensures IsRun(Apply(s, a))
  {
    var s0, acts :| Initial(s0) && s == Exec(s0, acts);
    ExecSnoc(s0, acts, a);
  }

  lemma {:induction false} OneAction(y: Sys, a: Act, w: nat)
    requires w < |y.sides| && IsRun(y.sides[w].sched)
    ensures w < |Do(y, a).sides| && IsRun(Do(y, a).sides[w].sched)
  {
    var s := y.sides[w].sched;
    match a
    case Hand(i, v) =>
      if v == w && i < |y.calls| {
        RunOn(s, Enqueue(y.calls[i].kind, y.calls[i].prio, y.calls[i].emit));
      }
    case Other(v, act) => RunOn(s, act);
    case Work(v) => RunOn(s, Step);
    case _ =>
  }

  /** Composition: whatever emitters, handlers and callbacks do, each worker goes through a run of
      the scheduler, so every property proved of those runs holds of it. */
  lemma {:induction false} WorkersAreRuns(y0: Sys, acts: seq<Act>, w: nat)
    requires Fresh(y0) && w < |y0.sides|
    ensures w < |Perform(y0, acts).sides| && IsRun(Perform(y0, acts).sides[w].sched)
  {
    if acts == [] {
      assert FreshSide(y0.sides[w]);
      assert Exec(y0.sides[w].sched, []) == y0.sides[w].sched;
    } else {
      WorkersAreRuns(y0, acts[..|acts| - 1], w);
      OneAction(Perform(y0, acts[..|acts| - 1]), acts[|acts| - 1], w);
    }
  }

  // ---- completion

  function HasTicket(t: nat): Item -> bool {
    (x: Item) => x.ticket == t
  }

  /** How many callbacks were made for the dispatch with ticket `t`. */
  function Completions(cs: seq<(nat, int)>, t: nat): nat {
    if cs == [] then 0 else OneIf(cs[0].0 == t) + Completions(cs[1..], t)
  }

  lemma {:induction false} CompletionsAre(cs: seq<(nat, int)>, xs: seq<Item>, t: nat)
    requires CallTickets(cs) == Tickets(xs)
    ensures Completions(cs, t) == Count(xs, HasTicket(t))
  {
    if cs != [] {
      assert |CallTickets(cs)| == |Tickets(xs)|;
      assert CallTickets(cs)[0] == Tickets(xs)[0];
      assert CallTickets(cs[1..]) == CallTickets(cs)[1..];
      assert Tickets(xs[1..]) == Tickets(xs)[1..];
      CompletionsAre(cs[1..], xs[1..], t);
    } else {
      assert |Tickets(xs)| == 0;
    }
  }

  lemma {:induction false} CountSame(xs: seq<Item>, f: Item -> bool, g: Item -> bool)
    requires forall i :: 0 <= i < |xs| ==> f(xs[i]) == g(xs[i])
    ensures Count(xs, f) == Count(xs, g)
  {
    if xs != [] {
      CountSame(xs[1..], f, g);
    }
  }

  lemma {:induction false} CountSome(xs: seq<Item>, y: Item)
    requires y in xs
    ensures Count(xs, Is(y)) >= 1
  {
    if xs[0] != y {
      CountSome(xs[1..], y);
    }
  }

  /** The events whose callback was made. */
  function Completed(d: Side): seq<Item> {
    d.sched.finished + (if d.phase == CalledBack then RunningItems(d.sched) else [])
  }

  lemma {:induction false} CompletedInPlace(d: Side, x: Item)
    requires IsRun(d.sched) && x in d.sched.accepted
    ensures Count(Completed(d), HasTicket(x.ticket)) == OneIf(x in Completed(d))
  {
    var s := d.sched;
    var s0, acts :| Initial(s0) && s == Exec(s0, acts);
    Always(s0, acts);
    ExactlyOnce(s0, acts, x);
    var tail := if d.phase == CalledBack then RunningItems(s) else [];
    forall i | 0 <= i < |Completed(d)|
      ensures HasTicket(x.ticket)(Completed(d)[i]) == Is(x)(Completed(d)[i])
    {
      StartedIsAccepted(s, s0, acts, Completed(d)[i]);
    }
    CountSame(Completed(d), HasTicket(x.ticket), Is(x));
    CountConcat(s.finished, tail, Is(x));
    assert Count(tail, Is(x)) <= Count(RunningItems(s), Is(x));
    if x in Completed(d) {
      CountSome(Completed(d), x);
    } else {
      CountAbsent(Completed(d), x);
    }
  }

  lemma {:induction false} CountAbsent(xs: seq<Item>, y: Item)
    requires y !in xs
    ensures Count(xs, Is(y)) == 0
  {
    if xs != [] {
      CountAbsent(xs[1..], y);
    }
  }

  lemma {:induction false} StartedIsAccepted(s: State, s0: State, acts: seq<Action>, y: Item)
    requires Initial(s0) && s == Exec(s0, acts) && y in s.finished + RunningItems(s)
    ensures y.ticket < |s.accepted| && s.accepted[y.ticket] == y
  {
    ExactlyOnce(s0, acts, y);
    if y in s.finished {
      CountSome(s.finished, y);
    } else {
      CountSome(RunningItems(s), y);
    }
    Always(s0, acts);
  }

  /** Completion: a dispatch a worker accepted has one callback once its handler has come to it,
      on each of the three branches of the handler, and none before; never a second one. */
  lemma {:induction false} CompletedOnce(y0: Sys, acts: seq<Act>, w: nat, x: Item)
    requires Fresh(y0) && w < |y0.sides|
    requires w < |Perform(y0, acts).sides| && x in Perform(y0, acts).sides[w].sched.accepted
    ensures var d := Perform(y0, acts).sides[w];
            Completions(d.called, x.ticket) == OneIf(x in Completed(d))
  {
    var d := Perform(y0, acts).sides[w];
    SysAlways(y0, acts);
    WorkersAreRuns(y0, acts, w);
    assert SideOk(d);
    TicketsConcat(d.sched.finished, if d.phase == CalledBack then RunningItems(d.sched) else []);
    CompletionsAre(d.called, Completed(d), x.ticket);
    CompletedInPlace(d, x);
  }

  /** Every callback ever made is for a dispatch the worker accepted; a refused one, which reaches no
      worker, has none. */
  lemma {:induction false} OnlyAcceptedCompleted(y0: Sys, acts: seq<Act>, w: nat, i: nat)
    requires Fresh(y0) && w < |y0.sides|
    requires w < |Perform(y0, acts).sides| && i < |Perform(y0, acts).sides[w].called|
    ensures var d := Perform(y0, acts).sides[w];
            var t := d.called[i].0;
            && t < |d.sched.accepted|
            && d.sched.accepted[t] in Completed(d)
            && Completions(d.called, t) == 1
  {
    var d := Perform(y0, acts).sides[w];
    SysAlways(y0, acts);
    WorkersAreRuns(y0, acts, w);
    assert SideOk(d);
    TicketsConcat(d.sched.finished, if d.phase == CalledBack then RunningItems(d.sched) else []);
    assert CallTickets(d.called) == Tickets(Completed(d));
    assert |CallTickets(d.called)| == |Completed(d)| && CallTickets(d.called)[i] == d.called[i].0;
    var x := Completed(d)[i];
    var s0, run :| Initial(s0) && d.sched == Exec(s0, run);
    StartedIsAccepted(d.sched, s0, run, x);
    CompletedOnce(y0, acts, w, x);
  }

  // ---- memory

  predicate Quiet(d: Side) {
    d.sched.queues == Lanes([], [], [], [], []) && d.sched.local == [] && d.sched.running == None
  }

  lemma {:induction false} QuietSides(ds: seq<Side>)
    requires forall w :: 0 <= w < |ds| ==> Quiet(ds[w])
    ensures UnreturnedAll(ds) == 0
  {
    if ds != [] {
      assert Quiet(ds[0]);
      QuietSides(ds[1..]);
    }
  }

  /** Memory balance: allocations minus frees of the event cache are the calls in progress and the
      events whose callback is still to come; when nothing is scheduled, all events are free. */
  lemma {:induction false} MemoryBalance(y0: Sys, acts: seq<Act>)
    requires Fresh(y0)
    ensures var y := Perform(y0, acts);
            && y.allocs - y.frees == |y.calls| + UnreturnedAll(y.sides)
            && (y.calls == [] && (forall w :: 0 <= w < |y.sides| ==> Quiet(y.sides[w])) ==> y.allocs == y.frees)
  {
    SysAlways(y0, acts);
    var y := Perform(y0, acts);
    if forall w :: 0 <= w < |y.sides| ==> Quiet(y.sides[w]) {
      QuietSides(y.sides);
    }
  }
}
