/**
 Increments of ee_pendings that nobody undoes (`src/emitter.c`): which steps leave one behind, and how a
 caller avoids them. An emitter with a stranded increment can never be destroyed.
 */
module EmitterStranded {
  import opened Wrappers
  import opened Scheduler
  import opened SchedulerInvariants
  import opened EmitterLifetime
  import opened EmitterProofs

  // ---- the steps that strand an increment

  /** The emitter a step strands an increment of: the one of a call that is refused for its priority,
      or of a callback that is made without a handler. */
  function Strands(y: Sys, a: Act): Option<nat> {
    match a
    case Hand(i, w) =>
      if i < |y.calls| && w < |y.sides| && y.calls[i].emit < |y.emitters| && Decode(y.calls[i].prio).None?
      then Some(y.calls[i].emit) else None
    case Callback(w) =>
      if w < |y.sides| && y.sides[w].phase.Failing? && y.sides[w].sched.running.Some?
         && y.sides[w].sched.running.value.emit < |y.emitters|
      then Some(y.sides[w].sched.running.value.emit) else None
    case _ => None
  }

  /** Each step adds one stranded increment to the emitter it strands and changes no other: the number
      never falls. */
  lemma {:induction false} StrandedStep(y: Sys, a: Act, em: nat)
    ensures StrandedOf(Do(y, a), em) == StrandedOf(y, em) + OneIf(Strands(y, a) == Some(em))
  {
    match a
    case Hand(i, w) =>
    case Callback(w) =>
    case _ =>
  }

  /** How often a run strands an increment of the emitter. */
  function Strandings(y0: Sys, acts: seq<Act>, em: nat): nat {
    if acts == [] then 0
    else
      var before := acts[..|acts| - 1];
      Strandings(y0, before, em) + OneIf(Strands(Perform(y0, before), acts[|acts| - 1]) == Some(em))
  }

  lemma {:induction false} StrandedExact(y0: Sys, acts: seq<Act>, em: nat)
    requires Fresh(y0)
    ensures StrandedOf(Perform(y0, acts), em) == Strandings(y0, acts, em)
  {
    if acts != [] {
      var before := acts[..|acts| - 1];
      StrandedExact(y0, before, em);
      StrandedStep(Perform(y0, before), acts[|acts| - 1], em);
    }
  }

  /** The exact condition: ee_pendings equals the calls in progress plus the events in flight if and only
      if no step of the run was such a refusal or such a callback; and it is never less. */
  lemma {:induction false} PendingsEqualIff(y0: Sys, acts: seq<Act>, em: nat)
    requires Fresh(y0)
    ensures var y := Perform(y0, acts);
            && PendingsOf(y, em) == CallsOf(y.calls, em) + FlightAll(y.sides, em) + Strandings(y0, acts, em)
            && (PendingsOf(y, em) == CallsOf(y.calls, em) + FlightAll(y.sides, em)
                <==> Strandings(y0, acts, em) == 0)
  {
    PendingsExact(y0, acts, em);
    StrandedExact(y0, acts, em);
  }

  // ---- how to avoid them

  predicate Handled(es: seq<Emitter>, em: nat, kind: int) {
    em < |es| && 0 <= kind < TYPE_MAX && |es[em].handlers| == TYPE_MAX && es[em].handlers[kind]
  }

  /** The events of `em` in `xs` have a handler. */
  predicate ItemsHandled(es: seq<Emitter>, em: nat, xs: seq<Item>) {
    forall i :: 0 <= i < |xs| && xs[i].emit == em ==> Handled(es, em, xs[i].kind)
  }

  predicate RunningHandled(es: seq<Emitter>, em: nat, d: Side) {
    d.sched.running.Some? && d.sched.running.value.emit == em ==>
      (d.phase == Entered ==> Handled(es, em, d.sched.running.value.kind)) && !d.phase.Failing?
  }

  predicate SideHandled(es: seq<Emitter>, em: nat, d: Side) {
    && ItemsHandled(es, em, d.sched.queues.crit) && ItemsHandled(es, em, d.sched.queues.emrg)
    && ItemsHandled(es, em, d.sched.queues.high) && ItemsHandled(es, em, d.sched.queues.norm)
    && ItemsHandled(es, em, d.sched.queues.idle) && ItemsHandled(es, em, d.sched.local)
    && RunningHandled(es, em, d)
  }

  predicate CallsHandled(es: seq<Emitter>, em: nat, cs: seq<Call>) {
    forall i :: 0 <= i < |cs| && cs[i].emit == em ==> Handled(es, em, cs[i].kind) && Decode(cs[i].prio).Some?
  }

  ghost predicate AllHandled(y: Sys, em: nat) {
    && CallsHandled(y.emitters, em, y.calls)
    && forall w :: 0 <= w < |y.sides| ==> SideHandled(y.emitters, em, y.sides[w])
  }

  predicate NoneOf(xs: seq<Item>, em: nat, kind: int) {
    forall i :: 0 <= i < |xs| ==> !(xs[i].emit == em && xs[i].kind == kind)
  }

  predicate SideUnused(d: Side, em: nat, kind: int) {
    && NoneOf(d.sched.queues.crit, em, kind) && NoneOf(d.sched.queues.emrg, em, kind)
    && NoneOf(d.sched.queues.high, em, kind) && NoneOf(d.sched.queues.norm, em, kind)
    && NoneOf(d.sched.queues.idle, em, kind) && NoneOf(d.sched.local, em, kind)
    && (d.phase == Entered ==> NoneOf(RunningItems(d.sched), em, kind))
  }

  /** No event of this emitter and type is in flight towards its handler: none in a call, queued,
      in a private list, or at the lookup. */
  predicate Unused(y: Sys, em: nat, kind: int) {
    && (forall i :: 0 <= i < |y.calls| ==> !(y.calls[i].emit == em && y.calls[i].kind == kind))
    && (forall w :: 0 <= w < |y.sides| ==> SideUnused(y.sides[w], em, kind))
  }

  /** What is asked of the users of one emitter: a handler is not removed in flight, and priorities
      are valid. */
  predicate Tame(y: Sys, a: Act, em: nat) {
    && (a.RmvWatch? && a.em == em ==> Unused(y, em, a.kind))
    && (a.Begin? && a.em == em ==> Decode(a.prio).Some?)
  }

  predicate TameRun(y0: Sys, acts: seq<Act>, em: nat) {
    acts == []
    || (var before := acts[..|acts| - 1];
        TameRun(y0, before, em) && Tame(Perform(y0, before), acts[|acts| - 1], em))
  }

  /** Every handler of `em` stays, except perhaps that of `kind`. */
  ghost predicate Keeps(es: seq<Emitter>, fs: seq<Emitter>, em: nat, kind: int) {
    forall k: int :: k != kind && Handled(es, em, k) ==> Handled(fs, em, k)
  }

  lemma {:induction false} SideKept(es: seq<Emitter>, fs: seq<Emitter>, em: nat, kind: int, d: Side)
    requires SideHandled(es, em, d) && Keeps(es, fs, em, kind) && SideUnused(d, em, kind)
    ensures SideHandled(fs, em, d)
  {
    assert d.phase == Entered && d.sched.running.Some? ==> RunningItems(d.sched)[0] == d.sched.running.value;
  }

  lemma {:induction false} RemovalKeeps(y: Sys, em: nat, kind: int)
    requires AllHandled(y, em) && Unused(y, em, kind)
    ensures AllHandled(Do(y, RmvWatch(em, kind)), em)
  {
    var z := Do(y, RmvWatch(em, kind));
    assert Keeps(y.emitters, z.emitters, em, kind);
    forall w | 0 <= w < |z.sides|
      ensures SideHandled(z.emitters, em, z.sides[w])
    {
      SideKept(y.emitters, z.emitters, em, kind, y.sides[w]);
    }
  }

  /** Every handler of `em` stays. */
  ghost predicate Grows(es: seq<Emitter>, fs: seq<Emitter>, em: nat) {
    forall k: int :: Handled(es, em, k) ==> Handled(fs, em, k)
  }

  lemma {:induction false} SideGrows(es: seq<Emitter>, fs: seq<Emitter>, em: nat, d: Side)
    requires SideHandled(es, em, d) && Grows(es, fs, em)
    ensures SideHandled(fs, em, d)
  {
  }

  lemma {:induction false} ActGrows(y: Sys, a: Act, em: nat)
    requires a.RmvWatch? ==> a.em != em
    ensures Grows(y.emitters, Do(y, a).emitters, em)
  {
  }

  lemma {:induction false} WorkHandled(es: seq<Emitter>, em: nat, d: Side)
    requires SideHandled(es, em, d) && SideOk(d)
    ensures SideHandled(es, em, WorkSide(d))
  {
    var s := d.sched;
    match s.pc
    case Splice(p) =>
      assert ItemsHandled(es, em, s.queues.At(p));
    case Loop(_) =>
    case Run(_) =>
    case _ =>
      StillStep(s);
  }

  lemma {:induction false} EnqueueHandled(es: seq<Emitter>, em: nat, d: Side, c: Call)
    requires SideHandled(es, em, d) && (c.emit == em ==> Handled(es, em, c.kind))
    ensures SideHandled(es, em, d.(sched := EnqueueStep(d.sched, c.kind, c.prio, c.emit)))
  {
  }

  lemma {:induction false} HandHandled(y: Sys, i: nat, v: nat, w: nat, em: nat)
    requires AllHandled(y, em) && w < |y.sides|
    ensures w < |HandStep(y, i, v).sides| && SideHandled(y.emitters, em, HandStep(y, i, v).sides[w])
  {
    if v == w && i < |y.calls| {
      EnqueueHandled(y.emitters, em, y.sides[w], y.calls[i]);
    }
  }

  lemma {:induction false} OtherHandled(y: Sys, v: nat, act: Action, w: nat, em: nat)
    requires AllHandled(y, em) && SysInv(y) && w < |y.sides|
    ensures var z := Do(y, Other(v, act)); w < |z.sides| && SideHandled(y.emitters, em, z.sides[w])
  {
    if v == w && Harmless(act) {
      OtherKeepsSide(y.sides[w], act);
    }
  }

  lemma {:induction false} LookupHandled(es: seq<Emitter>, em: nat, d: Side)
    requires SideHandled(es, em, d)
    ensures SideHandled(es, em, LookupSide(d, es))
  {
  }

  lemma {:induction false} CallbackHandled(y: Sys, v: nat, w: nat, em: nat)
    requires AllHandled(y, em) && w < |y.sides|
    ensures var z := CallbackStep(y, v); w < |z.sides| && SideHandled(y.emitters, em, z.sides[w])
  {
  }

  lemma {:induction false} UserReturnsHandled(y: Sys, v: nat, code: int, w: nat, em: nat)
    requires AllHandled(y, em) && w < |y.sides|
    ensures var z := UserReturnsStep(y, v, code); w < |z.sides| && SideHandled(y.emitters, em, z.sides[w])
  {
  }

  /** What a worker holds after the step has a handler already before it. */
  lemma {:induction false} SideAfter(y: Sys, a: Act, w: nat, em: nat)
    requires AllHandled(y, em) && SysInv(y) && w < |y.sides|
    ensures var z := Do(y, a); w < |z.sides| && SideHandled(y.emitters, em, z.sides[w])
  {
    var d := y.sides[w];
    match a
    case Work(v) => WorkHandled(y.emitters, em, d);
    case Hand(i, v) => HandHandled(y, i, v, w, em);
    case Other(v, act) => OtherHandled(y, v, act, w, em);
    case Lookup(v) => LookupHandled(y.emitters, em, d);
    case UserReturns(v, code) => UserReturnsHandled(y, v, code, w, em);
    case Callback(v) => CallbackHandled(y, v, w, em);
    case _ =>
  }

  lemma {:induction false} CallsAfter(y: Sys, a: Act, em: nat)
    requires SysInv(y) && CallsHandled(y.emitters, em, y.calls) && Tame(y, a, em)
    ensures CallsHandled(y.emitters, em, Do(y, a).calls)
  {
    var z := Do(y, a);
    if a.Hand? && z.calls != y.calls {
      assert forall i :: 0 <= i < |z.calls| ==> z.calls[i] in y.calls;
    }
  }

  lemma {:induction false} TameStep(y: Sys, a: Act, em: nat)
    requires SysInv(y) && AllHandled(y, em) && Tame(y, a, em)
    ensures AllHandled(Do(y, a), em) && Strands(y, a) != Some(em)
  {
    if a.RmvWatch? && a.em == em {
      RemovalKeeps(y, em, a.kind);
    } else {
      var z := Do(y, a);
      ActGrows(y, a, em);
      CallsAfter(y, a, em);
      forall w | 0 <= w < |z.sides|
        ensures SideHandled(z.emitters, em, z.sides[w])
      {
        SideAfter(y, a, w, em);
        SideGrows(y.emitters, z.emitters, em, z.sides[w]);
      }
    }
  }

  /** Users who remove no handler in flight and dispatch with valid priorities strand nothing. */
  lemma {:induction false} NothingStranded(y0: Sys, acts: seq<Act>, em: nat)
    requires Fresh(y0) && TameRun(y0, acts, em)
    ensures AllHandled(Perform(y0, acts), em) && Strandings(y0, acts, em) == 0
  {
    if acts == [] {
      forall w | 0 <= w < |y0.sides|
        ensures SideHandled(y0.emitters, em, y0.sides[w])
      {
        assert FreshSide(y0.sides[w]);
      }
    } else {
      var before := acts[..|acts| - 1];
      NothingStranded(y0, before, em);
      SysAlways(y0, before);
      TameStep(Perform(y0, before), acts[|acts| - 1], em);
    }
  }

  /** Equality: while the users of the emitter remove no handler in flight and dispatch with valid
      priorities, ee_pendings is exactly the calls in progress plus the events in flight, whatever
      the users of other emitters do. */
  lemma {:induction false} PendingsEqual(y0: Sys, acts: seq<Act>, em: nat)
    requires Fresh(y0) && TameRun(y0, acts, em)
    ensures var y := Perform(y0, acts);
            PendingsOf(y, em) == CallsOf(y.calls, em) + FlightAll(y.sides, em)
  {
    NothingStranded(y0, acts, em);
    PendingsEqualIff(y0, acts, em);
  }

  /** `emit_destroy` after a tame run succeeds if and only if nothing of the emitter is in progress or
      in flight; after any run, if and only if besides the run has stranded nothing. */
  lemma {:induction false} DestroyableIff(y0: Sys, acts: seq<Act>, em: nat)
    requires Fresh(y0)
    requires em < |Perform(y0, acts).emitters| && Perform(y0, acts).emitters[em].alive
    ensures var y := Perform(y0, acts);
            var done := CallsOf(y.calls, em) == 0 && FlightAll(y.sides, em) == 0;
            && (!DestroyStep(y, em).emitters[em].alive <==> done && Strandings(y0, acts, em) == 0)
            && (TameRun(y0, acts, em) ==> (!DestroyStep(y, em).emitters[em].alive <==> done))
  {
    PendingsEqualIff(y0, acts, em);
    if TameRun(y0, acts, em) {
      NothingStranded(y0, acts, em);
    }
  }
}
