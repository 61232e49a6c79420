/**
 Is every record of the fd registry freed at most once? An add rolls back and frees its record, a delete
 frees the record it took out (`posix/eio-epoll.c`). When a delete takes a record whose add is still at
 `epoll_ctl`, both may.
 */
module FdFrees {
  import opened Wrappers
  import opened FdRaces

  predicate OnceEach(ids: seq<nat>) {
    forall i, j :: 0 <= i < j < |ids| ==> ids[i] != ids[j]
  }

  /** The operation is going to free its record. */
  predicate WillFree(op: Op) {
    op.Failed? || op.Removed? || op.Released? || op.CountedOut?
  }

  /** The record is freed, or an operation is going to free it. */
  predicate Decided(s: State, id: nat) {
    id in s.freed || exists t :: 0 <= t < |s.threads| && WillFree(s.threads[t]) && s.threads[t].r.id == id
  }

  /** The record a step decides to free: an insert that was refused, an add or a delete that learns the
      answer of `epoll_ctl`. */
  function Decides(s: State, a: Act): Option<nat> {
    if a.t >= |s.threads| then None
    else
      var op := s.threads[a.t];
      match a
      case AddInsert(_) => if op.Allocated? && op.r.fd in s.fds then Some(op.r.id) else None
      case AddCtl(_, ok) => if op.Inserted? && (!ok || Pair(op.r) in s.watched) then Some(op.r.id) else None
      case DelCtl(_, ok, seen) =>
        if op.Taken? && ok && PairRead(s, op.r, seen) in s.watched then Some(op.r.id) else None
      case _ => None
  }

  /** The step decides to free a record that is decided already. */
  predicate Clash(s: State, a: Act) {
    Decides(s, a).Some? && Decided(s, Decides(s, a).value)
  }

  // ---- counting the frees of a record, done and to come

  function OneIf(b: bool): nat {
    if b then 1 else 0
  }

  function PendingFrees(ops: seq<Op>, id: nat): nat {
    if ops == [] then 0 else OneIf(WillFree(ops[0]) && ops[0].r.id == id) + PendingFrees(ops[1..], id)
  }

  function TimesIn(ids: seq<nat>, id: nat): nat {
    if ids == [] then 0 else TimesIn(ids[..|ids| - 1], id) + OneIf(ids[|ids| - 1] == id)
  }

  function Frees(s: State, id: nat): nat {
    PendingFrees(s.threads, id) + TimesIn(s.freed, id)
  }

  lemma {:induction false} PendingUpdate(ops: seq<Op>, t: nat, op: Op, id: nat)
    requires t < |ops|
    ensures PendingFrees(ops[t := op], id) == PendingFrees(ops, id)
              - OneIf(WillFree(ops[t]) && ops[t].r.id == id) + OneIf(WillFree(op) && op.r.id == id)
  {
    if t == 0 {
      assert ops[t := op][1..] == ops[1..];
    } else {
      assert ops[t := op][1..] == ops[1..][t - 1 := op];
      PendingUpdate(ops[1..], t - 1, op, id);
    }
  }

  lemma {:induction false} PendingSome(ops: seq<Op>, t: nat, id: nat)
    requires t < |ops| && WillFree(ops[t]) && ops[t].r.id == id
    ensures PendingFrees(ops, id) > 0
  {
    PendingUpdate(ops, t, NoOp, id);
  }

  lemma {:induction false} PendingNone(ops: seq<Op>, id: nat)
    requires forall t :: 0 <= t < |ops| ==> !(WillFree(ops[t]) && ops[t].r.id == id)
    ensures PendingFrees(ops, id) == 0
  {
    if ops != [] {
      PendingNone(ops[1..], id);
    }
  }

  lemma {:induction false} TimesSome(ids: seq<nat>, id: nat)
    ensures TimesIn(ids, id) > 0 <==> id in ids
  {
    if ids != [] {
      TimesSome(ids[..|ids| - 1], id);
      assert ids == ids[..|ids| - 1] + [ids[|ids| - 1]];
    }
  }

  ghost predicate AtMostOnce(ids: seq<nat>) {
    forall id: nat :: TimesIn(ids, id) <= 1
  }

  lemma {:induction false} OnceEachSnoc(ids: seq<nat>)
    requires ids != []
    ensures OnceEach(ids) <==> OnceEach(ids[..|ids| - 1]) && ids[|ids| - 1] !in ids[..|ids| - 1]
  {
    var front, last := ids[..|ids| - 1], ids[|ids| - 1];
    assert forall i :: 0 <= i < |front| ==> front[i] == ids[i];
    if last in front {
      var i :| 0 <= i < |front| && front[i] == last;
      assert ids[i] == ids[|ids| - 1];
    }
  }

  lemma {:induction false} AtMostOnceSnoc(ids: seq<nat>)
    requires ids != []
    ensures AtMostOnce(ids) <==> AtMostOnce(ids[..|ids| - 1]) && ids[|ids| - 1] !in ids[..|ids| - 1]
  {
    var front, last := ids[..|ids| - 1], ids[|ids| - 1];
    TimesSome(front, last);
    assert TimesIn(ids, last) == TimesIn(front, last) + 1;
    if AtMostOnce(ids) {
      forall id: nat
        ensures TimesIn(front, id) <= 1
      {
        assert TimesIn(ids, id) <= 1;
      }
    }
    if AtMostOnce(front) && last !in front {
      forall id: nat
        ensures TimesIn(ids, id) <= 1
      {
        assert TimesIn(front, id) <= 1;
      }
    }
  }

  lemma {:induction false} TimesOnce(ids: seq<nat>)
    ensures OnceEach(ids) <==> AtMostOnce(ids)
  {
    if ids != [] {
      TimesOnce(ids[..|ids| - 1]);
      OnceEachSnoc(ids);
      AtMostOnceSnoc(ids);
    }
  }

  lemma {:induction false} DecidedIff(s: State, id: nat)
    ensures Decided(s, id) <==> Frees(s, id) > 0
  {
    TimesSome(s.freed, id);
    if t :| 0 <= t < |s.threads| && WillFree(s.threads[t]) && s.threads[t].r.id == id {
      PendingSome(s.threads, t, id);
    } else {
      PendingNone(s.threads, id);
    }
  }

  lemma {:induction false} TimesSnoc(ids: seq<nat>, last: nat, id: nat)
    ensures TimesIn(ids + [last], id) == TimesIn(ids, id) + OneIf(last == id)
  {
    assert (ids + [last])[..|ids|] == ids;
  }

  /** The step frees the record its thread holds. */
  predicate FreesNow(s: State, a: Act) {
    a.t < |s.threads| && ((a.AddFree? && s.threads[a.t].Removed?) || (a.DelFree? && s.threads[a.t].CountedOut?))
  }

  /** What a step writes to its own thread and to the history. */
  lemma {:induction false} StepWrites(s: State, a: Act)
    requires a.t < |s.threads|
    ensures var u := Apply(s, a);
            && |u.threads| == |s.threads| && u.threads == s.threads[a.t := u.threads[a.t]]
            && u.freed == s.freed + if FreesNow(s, a) then [s.threads[a.t].r.id] else []
  {
  }

  lemma {:induction false} WillFreeStep(s: State, a: Act)
    requires a.t < |s.threads|
    ensures var was, now := s.threads[a.t], Apply(s, a).threads[a.t];
            && (Decides(s, a).Some? ==> !WillFree(was) && WillFree(now) && now.r.id == Decides(s, a).value)
            && (FreesNow(s, a) ==> WillFree(was) && !WillFree(now) && Decides(s, a) == None)
            && (Decides(s, a) == None && !FreesNow(s, a) ==>
                  WillFree(was) == WillFree(now) && (WillFree(was) ==> was.r.id == now.r.id))
  {
  }

  /** A step adds one free to the record it decides, and to no other; none is ever taken back. */
  lemma {:induction false} FreesStep(s: State, a: Act, id: nat)
    ensures Frees(Apply(s, a), id) == Frees(s, id) + OneIf(Decides(s, a) == Some(id))
  {
    if a.t < |s.threads| {
      StepWrites(s, a);
      WillFreeStep(s, a);
      PendingUpdate(s.threads, a.t, Apply(s, a).threads[a.t], id);
      if FreesNow(s, a) {
        TimesSnoc(s.freed, s.threads[a.t].r.id, id);
      }
    }
  }

  ghost predicate SingleFrees(s: State) {
    forall id: nat :: Frees(s, id) <= 1
  }

  // ---- use after free

  /** The step reads a record that is freed: `ioe_worker`, for `epoll_ctl` or for the count. */
  predicate UsesFreed(s: State, a: Act) {
    && a.t < |s.threads|
    && ((a.DelCtl? && s.threads[a.t].Taken?) || (a.DelCount? && s.threads[a.t].Released?))
    && s.threads[a.t].r.id in s.freed
  }

  predicate FreesAgain(s: State, a: Act) {
    FreesNow(s, a) && s.threads[a.t].r.id in s.freed
  }

  /** A delete comes to its `epoll_ctl` when its record is freed. */
  predicate LateAnswer(s: State, a: Act) {
    a.DelCtl? && a.t < |s.threads| && s.threads[a.t].Taken? && s.threads[a.t].r.id in s.freed
  }

  lemma {:induction false} FreedAndPending(s: State, t: nat)
    requires t < |s.threads| && WillFree(s.threads[t]) && s.threads[t].r.id in s.freed
    ensures !SingleFrees(s)
  {
    PendingSome(s.threads, t, s.threads[t].r.id);
    TimesSome(s.freed, s.threads[t].r.id);
    assert Frees(s, s.threads[t].r.id) > 1;
  }

  lemma {:induction false} SingleUses(s: State, a: Act)
    requires SingleFrees(s)
    ensures UsesFreed(s, a) <==> LateAnswer(s, a)
    ensures !FreesAgain(s, a)
  {
    if a.t < |s.threads| && WillFree(s.threads[a.t]) && s.threads[a.t].r.id in s.freed {
      FreedAndPending(s, a.t);
    }
  }

  /** The exact condition on a step: with at most one free per record, done and to come, it stays so, and
      the step uses no freed record, if and only if it is neither a clash nor a late answer. */
  lemma {:induction false} SingleStepIff(s: State, a: Act)
    requires SingleFrees(s)
    ensures SingleFrees(Apply(s, a)) <==> !Clash(s, a)
    ensures SingleFrees(Apply(s, a)) && !UsesFreed(s, a) && !FreesAgain(s, a) <==> !Clash(s, a) && !LateAnswer(s, a)
  {
    var u := Apply(s, a);
    SingleUses(s, a);
    if Clash(s, a) {
      var id := Decides(s, a).value;
      DecidedIff(s, id);
      FreesStep(s, a, id);
      assert Frees(u, id) > 1;
    } else {
      forall id: nat
        ensures Frees(u, id) <= 1
      {
        FreesStep(s, a, id);
        DecidedIff(s, id);
      }
    }
  }

  predicate NoClash(s: State, acts: seq<Act>) {
    acts == []
    || (var before := acts[..|acts| - 1];
        NoClash(s, before) && !Clash(Exec(s, before), acts[|acts| - 1]))
  }

  lemma {:induction false} SingleRunIff(s0: State, acts: seq<Act>)
    requires Initial(s0)
    ensures SingleFrees(Exec(s0, acts)) <==> NoClash(s0, acts)
  {
    if acts == [] {
      forall id: nat
        ensures Frees(s0, id) == 0
      {
        PendingNone(s0.threads, id);
      }
    } else {
      var before := acts[..|acts| - 1];
      var a := acts[|acts| - 1];
      SingleRunIff(s0, before);
      if NoClash(s0, before) {
        SingleStepIff(Exec(s0, before), a);
      } else {
        var id: nat :| Frees(Exec(s0, before), id) > 1;
        FreesStep(Exec(s0, before), a, id);
        assert Frees(Exec(s0, acts), id) > 1;
      }
    }
  }

  lemma {:induction false} OnceEachRun(s0: State, acts: seq<Act>)
    requires Initial(s0)
    ensures NoClash(s0, acts) ==> OnceEach(Exec(s0, acts).freed)
    ensures AllIdle(Exec(s0, acts).threads) ==> (OnceEach(Exec(s0, acts).freed) <==> NoClash(s0, acts))
  {
    var s := Exec(s0, acts);
    SingleRunIff(s0, acts);
    TimesOnce(s.freed);
    if NoClash(s0, acts) {
      forall id: nat
        ensures TimesIn(s.freed, id) <= 1
      {
        assert Frees(s, id) <= 1;
      }
    }
    if AllIdle(s.threads) && AtMostOnce(s.freed) {
      forall id: nat
        ensures Frees(s, id) <= 1
      {
        PendingNone(s.threads, id);
        assert TimesIn(s.freed, id) <= 1;
      }
    }
  }

  /** No step of the run reads a freed record or frees one again. What the model says of a run after such
      a step is not what the program does. */
  predicate MemorySafe(s: State, acts: seq<Act>) {
    acts == []
    || (var before := acts[..|acts| - 1];
        var u := Exec(s, before);
        var a := acts[|acts| - 1];
        MemorySafe(s, before) && !UsesFreed(u, a) && !FreesAgain(u, a))
  }

  predicate NoLateAnswer(s: State, acts: seq<Act>) {
    acts == []
    || (var before := acts[..|acts| - 1];
        NoLateAnswer(s, before) && !LateAnswer(Exec(s, before), acts[|acts| - 1]))
  }

  lemma {:induction false} OnceEachStep(s: State, a: Act)
    requires OnceEach(s.freed) && !FreesAgain(s, a)
    ensures OnceEach(Apply(s, a).freed)
  {
    if a.t < |s.threads| {
      StepWrites(s, a);
    }
  }

  lemma {:induction false} SafeFrees(s0: State, acts: seq<Act>)
    requires Initial(s0) && MemorySafe(s0, acts)
    ensures OnceEach(Exec(s0, acts).freed) && NoLateAnswer(s0, acts)
  {
    if acts != [] {
      var before := acts[..|acts| - 1];
      SafeFrees(s0, before);
      OnceEachStep(Exec(s0, before), acts[|acts| - 1]);
    }
  }

  lemma {:induction false} SafeRun(s0: State, acts: seq<Act>)
    requires Initial(s0) && NoClash(s0, acts) && NoLateAnswer(s0, acts)
    ensures MemorySafe(s0, acts)
  {
    if acts != [] {
      var before := acts[..|acts| - 1];
      SafeRun(s0, before);
      SingleRunIff(s0, before);
      SingleUses(Exec(s0, before), acts[|acts| - 1]);
    }
  }

  /** Over every run, counting the frees of adds and of deletes: without a clash and a late answer no
      record is freed twice or used after its free; and at operation boundaries none was if and only
      if there was neither. */
  lemma {:induction false} FreedOnceIff(s0: State, acts: seq<Act>)
    requires Initial(s0)
    ensures NoClash(s0, acts) && NoLateAnswer(s0, acts) ==> MemorySafe(s0, acts) && OnceEach(Exec(s0, acts).freed)
    ensures AllIdle(Exec(s0, acts).threads) ==>
              (MemorySafe(s0, acts) <==> NoClash(s0, acts) && NoLateAnswer(s0, acts))
  {
    OnceEachRun(s0, acts);
    if NoClash(s0, acts) && NoLateAnswer(s0, acts) {
      SafeRun(s0, acts);
    }
    if MemorySafe(s0, acts) {
      SafeFrees(s0, acts);
    }
  }

  // ---- what a clash is

  predicate Adding(op: Op) {
    !op.NoOp? && !Deleting(op)
  }

  /** Adds in progress have records of their own. */
  ghost predicate AddsDistinct(s: State) {
    forall t, u :: 0 <= t < u < |s.threads| && Adding(s.threads[t]) && Adding(s.threads[u]) ==>
      s.threads[t].r.id != s.threads[u].r.id
  }

  /** A record that is not inserted yet is not freed. */
  ghost predicate NewNotFreed(s: State) {
    && (forall i :: 0 <= i < |s.freed| ==> s.freed[i] < s.allocs)
    && (forall t :: 0 <= t < |s.threads| && s.threads[t].Allocated? ==> s.threads[t].r.id !in s.freed)
  }

  ghost predicate AddsOwn(s: State) {
    AddsDistinct(s) && NewNotFreed(s)
  }

  lemma {:induction false} AddsDistinctStep(s: State, a: Act)
    requires ThreadsOk(s) && AddsDistinct(s)
    ensures AddsDistinct(Apply(s, a))
  {
  }

  lemma {:induction false} NewNotFreedStep(s: State, a: Act)
    requires ThreadsOk(s) && ThreadsDistinct(s) && AddsOwn(s)
    ensures NewNotFreed(Apply(s, a))
  {
    if a.t < |s.threads| {
      StepWrites(s, a);
    }
  }

  lemma {:induction false} AddsOwnStep(s: State, a: Act)
    requires Exclusive(s) && AddsOwn(s)
    ensures AddsOwn(Apply(s, a))
  {
    AddsDistinctStep(s, a);
    NewNotFreedStep(s, a);
  }

  lemma {:induction false} AddsOwnRun(s0: State, acts: seq<Act>)
    requires Initial(s0)
    ensures AddsOwn(Exec(s0, acts))
  {
    if acts != [] {
      AddsOwnRun(s0, acts[..|acts| - 1]);
      ExclusiveRun(s0, acts[..|acts| - 1]);
      AddsOwnStep(Exec(s0, acts[..|acts| - 1]), acts[|acts| - 1]);
    }
  }

  /** Another thread's add of this record is being rolled back. */
  predicate RollingBack(s: State, id: nat) {
    exists t :: 0 <= t < |s.threads| && (s.threads[t].Failed? || s.threads[t].Removed?) && s.threads[t].r.id == id
  }

  predicate BeingDeleted(s: State, id: nat) {
    exists t :: 0 <= t < |s.threads| && (s.threads[t].Released? || s.threads[t].CountedOut?) && s.threads[t].r.id == id
  }

  /** In every reachable state a clash is exactly one of two: a delete whose record's add is rolled back,
      or has been, and whose `epoll_ctl` succeeds, on the watch of another registration of the fd; or
      an add whose `epoll_ctl` fails after a delete of its record has succeeded that way. */
  lemma {:induction false} ClashIs(s0: State, acts: seq<Act>, a: Act)
    requires Initial(s0)
    ensures var s := Exec(s0, acts);
            Clash(s, a) <==>
              && a.t < |s.threads|
              && var op := s.threads[a.t];
                 || (a.DelCtl? && op.Taken? && a.ok && PairRead(s, op.r, a.seen) in s.watched
                     && (op.r.id in s.freed || RollingBack(s, op.r.id)))
                 || (a.AddCtl? && op.Inserted? && (!a.ok || Pair(op.r) in s.watched)
                     && (op.r.id in s.freed || BeingDeleted(s, op.r.id)))
  {
    var s := Exec(s0, acts);
    ExclusiveRun(s0, acts);
    AddsOwnRun(s0, acts);
    if a.t < |s.threads| && !s.threads[a.t].NoOp? {
      DecidedBy(s, a.t);
    }
  }

  /** Who else can have decided on the record an operation holds. */
  lemma {:induction false} DecidedBy(s: State, t: nat)
    requires Exclusive(s) && AddsOwn(s) && t < |s.threads| && !s.threads[t].NoOp?
    ensures var op := s.threads[t];
            && (op.Allocated? ==> !Decided(s, op.r.id))
            && (op.Taken? ==> (Decided(s, op.r.id) <==> op.r.id in s.freed || RollingBack(s, op.r.id)))
            && (op.Inserted? ==> (Decided(s, op.r.id) <==> op.r.id in s.freed || BeingDeleted(s, op.r.id)))
  {
    var op := s.threads[t];
    forall u | 0 <= u < |s.threads| && u != t && WillFree(s.threads[u]) && s.threads[u].r.id == op.r.id
      ensures !op.Allocated? && (op.Taken? ==> !Deleting(s.threads[u])) && (op.Inserted? ==> !Adding(s.threads[u]))
    {
    }
  }
}
