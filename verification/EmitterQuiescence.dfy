/**
 Quiescence of the whole system: from any reachable state with no call in progress and every dispatcher
 signalled, the workers and the handlers come to rest, every accepted dispatch has exactly one callback,
 and every event is back in the cache (`src/worker.c`, `src/emitter.c`, `posix/edpnet.c`).
 */
module EmitterQuiescence {
  import opened Scheduler
  import opened SchedulerInvariants
  import opened SchedulerProgress
  import opened EmitterLifetime
  import opened EmitterProofs
  import opened EmitterCompletion

  // ---- a system at rest is complete

  /** No call is in progress, every worker rests, every dispatcher has signalled, and no worker has gone
      to its exit past an event. */
  predicate Settled(y: Sys) {
    && y.calls == []
    && forall w :: 0 <= w < |y.sides| ==> SettledSide(y.sides[w])
  }

  predicate SettledSide(d: Side) {
    AtRest(d.sched) && d.sched.unsignalled == {} && NothingMissed(d.sched)
  }

  lemma {:induction false} ReachableInv(y0: Sys, acts: seq<Act>, w: nat)
    requires Fresh(y0) && w < |y0.sides|
    ensures var y := Perform(y0, acts);
            w < |y.sides| && SideOk(y.sides[w]) && Inv(y.sides[w].sched)
  {
    SysAlways(y0, acts);
    WorkersAreRuns(y0, acts, w);
    var s := Perform(y0, acts).sides[w].sched;
    var s0, run :| Initial(s0) && s == Exec(s0, run);
    Always(s0, run);
  }

  lemma {:induction false} SidesStay(y0: Sys, acts: seq<Act>)
    ensures |Perform(y0, acts).sides| == |y0.sides|
  {
    if acts != [] {
      SidesStay(y0, acts[..|acts| - 1]);
    }
  }

  lemma {:induction false} SettledQuiet(y0: Sys, acts: seq<Act>, w: nat)
    requires Fresh(y0) && w < |y0.sides| && Settled(Perform(y0, acts))
    ensures w < |Perform(y0, acts).sides| && Quiet(Perform(y0, acts).sides[w])
  {
    ReachableInv(y0, acts, w);
    assert SettledSide(Perform(y0, acts).sides[w]);
    RestEmpty(Perform(y0, acts).sides[w].sched);
  }

  lemma {:induction false} SettledFinished(y0: Sys, acts: seq<Act>, w: nat, x: Item)
    requires Fresh(y0) && w < |y0.sides| && Settled(Perform(y0, acts))
    requires w < |Perform(y0, acts).sides| && x in Perform(y0, acts).sides[w].sched.accepted
    ensures x in Perform(y0, acts).sides[w].sched.finished
  {
    SettledQuiet(y0, acts, w);
    WorkersAreRuns(y0, acts, w);
    var s := Perform(y0, acts).sides[w].sched;
    var s0, run :| Initial(s0) && s == Exec(s0, run);
    ExactlyOnce(s0, run, x);
    if x !in s.finished {
      CountAbsent(s.finished, x);
    }
  }

  /** In a settled system every accepted dispatch has exactly one callback and every event is freed. */
  lemma {:induction false} SettledComplete(y0: Sys, acts: seq<Act>, w: nat, x: Item)
    requires Fresh(y0) && w < |y0.sides| && Settled(Perform(y0, acts))
    ensures var y := Perform(y0, acts);
            && y.allocs == y.frees
            && w < |y.sides|
            && (x in y.sides[w].sched.accepted ==> Completions(y.sides[w].called, x.ticket) == 1)
  {
    var y := Perform(y0, acts);
    SidesStay(y0, acts);
    forall v | 0 <= v < |y.sides|
      ensures Quiet(y.sides[v])
    {
      SettledQuiet(y0, acts, v);
    }
    MemoryBalance(y0, acts);
    if x in y.sides[w].sched.accepted {
      SettledFinished(y0, acts, w, x);
      CompletedOnce(y0, acts, w, x);
    }
  }

  // ---- and the system settles

  /** What a worker does next: a step of the handler it runs, or its own. */
  function Drive(d: Side, w: nat, code: int): Act {
    match d.phase
    case Entered => Lookup(w)
    case InUser => UserReturns(w, code)
    case Failing(_) => Callback(w)
    case Decremented(_) => Callback(w)
    case _ => Work(w)
  }

  /** Steps left in the handler. */
  function HandlerLeft(ph: Phase): nat {
    match ph
    case Entered => 3
    case InUser => 2
    case Failing(_) => 1
    case Decremented(_) => 1
    case _ => 0
  }

  predicate SmallerSide(e: Side, d: Side) {
    Smaller(e.sched, d.sched) || (e.sched == d.sched && HandlerLeft(e.phase) < HandlerLeft(d.phase))
  }

  /** The two differ at most in what worker `w` has done with the events it had. */
  predicate OnlyWorks(z: Sys, y: Sys, w: nat) {
    && z.calls == y.calls && |z.sides| == |y.sides|
    && (forall v :: 0 <= v < |y.sides| && v != w ==> z.sides[v] == y.sides[v])
    && (w < |y.sides| ==>
          && z.sides[w].sched.accepted == y.sides[w].sched.accepted
          && z.sides[w].sched.unsignalled == y.sides[w].sched.unsignalled
          && (NothingMissed(z.sides[w].sched) <==> NothingMissed(y.sides[w].sched)))
  }

  lemma {:induction false} HandlerProgress(y: Sys, w: nat, code: int)
    requires SysInv(y) && w < |y.sides| && y.sides[w].phase != NoHandler && y.sides[w].phase != CalledBack
    ensures var z := Do(y, Drive(y.sides[w], w, code));
            OnlyWorks(z, y, w) && SmallerSide(z.sides[w], y.sides[w])
  {
    assert SideOk(y.sides[w]);
    if BeforeDecrement(y.sides[w].phase) {
      RunningAlive(y, w);
    }
  }

  lemma {:induction false} WorkProgress(y: Sys, w: nat)
    requires w < |y.sides| && SideOk(y.sides[w]) && Inv(y.sides[w].sched) && !AtRest(y.sides[w].sched)
    requires y.sides[w].phase == NoHandler || y.sides[w].phase == CalledBack
    ensures var z := Do(y, Work(w));
            OnlyWorks(z, y, w) && Smaller(z.sides[w].sched, y.sides[w].sched)
  {
    var d := y.sides[w];
    assert WorkSide(d).sched == WorkerStep(d.sched);
    WorkerProgress(d.sched);
    WorkerKeeps(d.sched);
    MissedStep(d.sched);
  }

  /** Each such step is a real one: it makes the measure of its worker smaller and leaves the other
      workers alone. */
  lemma {:induction false} DriveProgress(y: Sys, w: nat, code: int)
    requires SysInv(y) && w < |y.sides| && Inv(y.sides[w].sched) && !AtRest(y.sides[w].sched)
    ensures var z := Do(y, Drive(y.sides[w], w, code));
            OnlyWorks(z, y, w) && SmallerSide(z.sides[w], y.sides[w])
  {
    var d := y.sides[w];
    assert SideOk(d);
    if d.phase == NoHandler || d.phase == CalledBack {
      WorkProgress(y, w);
    } else {
      HandlerProgress(y, w, code);
    }
  }

  predicate Driven(acts: seq<Act>) {
    forall i :: 0 <= i < |acts| ==> acts[i].Work? || acts[i].Lookup? || acts[i].UserReturns? || acts[i].Callback?
  }

  lemma {:induction false} PerformSnoc(y: Sys, acts: seq<Act>, a: Act)
    ensures Perform(y, acts + [a]) == Do(Perform(y, acts), a)
  {
    assert (acts + [a])[..|acts|] == acts;
  }

  lemma {:induction false} WorksOn(x: Sys, y: Sys, z: Sys, w: nat)
    requires OnlyWorks(y, x, w) && OnlyWorks(z, y, w)
    ensures OnlyWorks(z, x, w)
  {
  }

  lemma {:induction false} Joined(y0: Sys, acts: seq<Act>, a: seq<Act>, b: seq<Act>)
    requires Driven(a) && Driven(b)
    ensures Driven(a + b) && Perform(y0, acts + (a + b)) == Perform(y0, acts + a + b)
  {
    assert acts + (a + b) == acts + a + b;
  }

  /** One worker is driven to its rest, whatever its handlers return. */
  lemma {:induction false} SettleOne(y0: Sys, acts: seq<Act>, y: Sys, w: nat, code: int)
    returns (more: seq<Act>, z: Sys)
    requires Fresh(y0) && y == Perform(y0, acts) && w < |y0.sides| && w < |y.sides|
    ensures Driven(more) && z == Perform(y0, acts + more)
    ensures OnlyWorks(z, y, w) && AtRest(z.sides[w].sched)
    decreases Unstarted(y.sides[w].sched), y.sides[w].sched.cvCount, SchedulerProgress.Phase(y.sides[w].sched),
              Distance(y.sides[w].sched.pc), HandlerLeft(y.sides[w].phase)
  {
    ReachableInv(y0, acts, w);
    if AtRest(y.sides[w].sched) {
      more, z := [], y;
      assert acts + more == acts;
    } else {
      var a, u := DriveOnce(y0, acts, y, w, code);
      var rest;
      rest, z := SettleOne(y0, acts + [a], u, w, code);
      WorksOn(y, u, z, w);
      more := [a] + rest;
      Joined(y0, acts, [a], rest);
    }
  }

  lemma {:induction false} DriveOnce(y0: Sys, acts: seq<Act>, y: Sys, w: nat, code: int) returns (a: Act, u: Sys)
    requires Fresh(y0) && y == Perform(y0, acts) && w < |y0.sides| && w < |y.sides|
    requires !AtRest(y.sides[w].sched)
    ensures u == Perform(y0, acts + [a]) && Driven([a])
    ensures OnlyWorks(u, y, w) && SmallerSide(u.sides[w], y.sides[w])
  {
    ReachableInv(y0, acts, w);
    SysAlways(y0, acts);
    a := Drive(y.sides[w], w, code);
    DriveProgress(y, w, code);
    PerformSnoc(y0, acts, a);
    u := Do(y, a);
  }

  predicate SameEvents(e: Side, d: Side) {
    && e.sched.accepted == d.sched.accepted && e.sched.unsignalled == d.sched.unsignalled
    && (NothingMissed(e.sched) <==> NothingMissed(d.sched))
  }

  /** No new event anywhere, and the first `n` workers rest. */
  predicate Resting(z: Sys, y: Sys, n: nat) {
    && z.calls == y.calls && |z.sides| == |y.sides|
    && (forall w :: 0 <= w < |y.sides| ==> SameEvents(z.sides[w], y.sides[w]))
    && (forall w :: 0 <= w < n && w < |z.sides| ==> AtRest(z.sides[w].sched))
  }

  lemma {:induction false} RestingMore(x: Sys, y: Sys, z: Sys, n: nat)
    requires Resting(y, x, n) && n < |y.sides|
    requires OnlyWorks(z, y, n) && AtRest(z.sides[n].sched)
    ensures Resting(z, x, n + 1)
  {
    forall w | 0 <= w < |x.sides|
      ensures SameEvents(z.sides[w], x.sides[w])
    {
      assert SameEvents(y.sides[w], x.sides[w]);
    }
  }

  /** The first `n` workers, one after the other. */
  lemma {:induction false} SettleAll(y0: Sys, acts: seq<Act>, y: Sys, n: nat, code: int)
    returns (more: seq<Act>, z: Sys)
    requires Fresh(y0) && y == Perform(y0, acts) && n <= |y0.sides| == |y.sides|
    ensures Driven(more) && z == Perform(y0, acts + more) && Resting(z, y, n)
  {
    if n == 0 {
      more, z := [], y;
      assert acts + more == acts;
    } else {
      var front, u := SettleAll(y0, acts, y, n - 1, code);
      var back;
      back, z := SettleOne(y0, acts + front, u, n - 1, code);
      RestingMore(y, u, z, n - 1);
      more := front + back;
      Joined(y0, acts, front, back);
    }
  }

  /** Quiescence: let a run reach a state with no call in progress and every dispatcher signalled. With no
      new dispatch, the workers alone, running the handlers they have, come to rest. The system is
      settled then, so that each dispatch ever accepted has exactly one callback and allocations
      equal frees, if and only if no shutdown had gone past an event dispatched after STOP. */
  lemma {:induction false} SystemQuiescence(y0: Sys, acts: seq<Act>, code: int) returns (more: seq<Act>)
    requires Fresh(y0) && Perform(y0, acts).calls == []
    requires forall w :: 0 <= w < |Perform(y0, acts).sides| ==> Perform(y0, acts).sides[w].sched.unsignalled == {}
    ensures var y, z := Perform(y0, acts), Perform(y0, acts + more);
            && Driven(more) && |z.sides| == |y.sides|
            && (forall w :: 0 <= w < |z.sides| ==> AtRest(z.sides[w].sched))
            && (Settled(z) <==> forall w :: 0 <= w < |y.sides| ==> NothingMissed(y.sides[w].sched))
            && (Settled(z) ==>
                  && z.allocs == z.frees
                  && forall w, x :: 0 <= w < |y.sides| && x in y.sides[w].sched.accepted ==>
                       Completions(z.sides[w].called, x.ticket) == 1)
  {
    var y := Perform(y0, acts);
    SidesStay(y0, acts);
    var z;
    more, z := SettleAll(y0, acts, y, |y0.sides|, code);
    SettledWhen(y, z);
    if Settled(z) {
      AllComplete(y0, acts + more, y, z);
    }
  }

  lemma {:induction false} SettledWhen(y: Sys, z: Sys)
    requires Resting(z, y, |y.sides|) && y.calls == []
    requires forall w :: 0 <= w < |y.sides| ==> y.sides[w].sched.unsignalled == {}
    ensures Settled(z) <==> forall w :: 0 <= w < |y.sides| ==> NothingMissed(y.sides[w].sched)
  {
    forall w | 0 <= w < |y.sides|
      ensures SettledSide(z.sides[w]) <==> NothingMissed(y.sides[w].sched)
    {
      assert SameEvents(z.sides[w], y.sides[w]);
    }
  }

  lemma {:induction false} AllComplete(y0: Sys, acts: seq<Act>, y: Sys, z: Sys)
    requires Fresh(y0) && z == Perform(y0, acts) && Settled(z)
    requires |z.sides| == |y.sides| == |y0.sides|
    requires forall w :: 0 <= w < |y.sides| ==> SameEvents(z.sides[w], y.sides[w])
    ensures z.allocs == z.frees
    ensures forall w, x :: 0 <= w < |y.sides| && x in y.sides[w].sched.accepted ==>
              Completions(z.sides[w].called, x.ticket) == 1
  {
    forall w, x | 0 <= w < |y.sides| && x in y.sides[w].sched.accepted
      ensures Completions(z.sides[w].called, x.ticket) == 1
    {
      SettledComplete(y0, acts, w, x);
    }
    if |y.sides| == 0 {
      MemoryBalance(y0, acts);
    } else {
      SettledComplete(y0, acts, 0, Item(0, Crit, 0, 0));
    }
  }
}
