/**
 Concurrent `eio_addfd` and `eio_delfd` (`posix/eio-epoll.c`): any number of threads, interleaved at each
 critical section, `epoll_ctl` call, counter update and free, with arbitrary `epoll_ctl` results.
 */
module FdRaces {
  import opened FdRegistry

  /** Where a thread is in its operation, with the record it holds. */
  datatype Op =
    | NoOp
    | Allocated(r: Record)     // add: before hset_add
    | Inserted(r: Record)      // add: before epoll_ctl
    | Failed(r: Record)        // add: before hset_del
    | Removed(r: Record)       // add: before mcache_free, also after a refused insert
    | Watching(r: Record)      // add: before the count
    | Taken(r: Record)         // delete: before epoll_ctl
    | Released(r: Record)      // delete: before the count
    | CountedOut(r: Record)    // delete: before mcache_free

  datatype State = State(
    fds: map<nat, Record>,
    counts: seq<int>,
    allocs: nat,
    frees: int,
    threads: seq<Op>,
    watched: set<(nat, nat)>,  // (worker, fd) pairs the epolls watch
    deleted: seq<nat>,         // history: records freed by deletes
    freed: seq<nat>)           // history: all records freed

  datatype Act =
    | AddStart(t: nat, fd: nat, worker: nat)
    | AddInsert(t: nat)
    | AddCtl(t: nat, ok: bool)
    | RollBack(t: nat)
    | AddFree(t: nat)
    | AddCount(t: nat)
    | DelTake(t: nat, fd: nat)
    | DelCtl(t: nat, ok: bool, seen: nat)
    | DelCount(t: nat, seen: nat)
    | DelFree(t: nat)

  function Go(s: State, t: nat, op: Op): State
    requires t < |s.threads|
  {
    s.(threads := s.threads[t := op])
  }

  function Count(s: State, w: nat, d: int): State {
    if w < |s.counts| then s.(counts := s.counts[w := s.counts[w] + d]) else s
  }

  function Pair(r: Record): (nat, nat) {
    (r.worker, r.fd)
  }

  /** What a delete reads in `ioe_worker`: once the record has been freed, any worker. */
  function WorkerRead(s: State, r: Record, seen: nat): nat {
    if r.id in s.freed && seen < |s.counts| then seen else r.worker
  }

  /** What the `epoll_ctl` of a delete is asked to stop watching. */
  function PairRead(s: State, r: Record, seen: nat): (nat, nat) {
    (WorkerRead(s, r, seen), r.fd)
  }

  /** `epoll_ctl` fails when `ok` is false, and also to add a pair that is watched or to delete one
      that is not. */
  function Apply(s: State, a: Act): State {
    if a.t >= |s.threads| then s
    else
      var op := s.threads[a.t];
      match a
      case AddStart(t, fd, w) =>
        if op != NoOp || w >= |s.counts| then s
        else Go(s, t, Allocated(Record(s.allocs, fd, w))).(allocs := s.allocs + 1)
      case AddInsert(t) =>
        if !op.Allocated? then s
        else if op.r.fd in s.fds then Go(s, t, Removed(op.r))
        else Go(s, t, Inserted(op.r)).(fds := s.fds[op.r.fd := op.r])
      case AddCtl(t, ok) =>
        if !op.Inserted? then s
        else if !ok || Pair(op.r) in s.watched then Go(s, t, Failed(op.r))
        else Go(s, t, Watching(op.r)).(watched := s.watched + {Pair(op.r)})
      case RollBack(t) =>
        if !op.Failed? then s else Go(s, t, Removed(op.r)).(fds := s.fds - {op.r.fd})
      case AddFree(t) =>
        if !op.Removed? then s else Go(s, t, NoOp).(frees := s.frees + 1, freed := s.freed + [op.r.id])
      case AddCount(t) =>
        if !op.Watching? then s else Count(Go(s, t, NoOp), op.r.worker, 1)
      case DelTake(t, fd) =>
        if op != NoOp || fd !in s.fds then s else Go(s, t, Taken(s.fds[fd])).(fds := s.fds - {fd})
      case DelCtl(t, ok, seen) =>
        if !op.Taken? then s
        else if !ok || PairRead(s, op.r, seen) !in s.watched then Go(s, t, NoOp)
        else Go(s, t, Released(op.r)).(watched := s.watched - {PairRead(s, op.r, seen)})
      case DelCount(t, seen) =>
        if !op.Released? then s
        else Count(Go(s, t, CountedOut(op.r)), WorkerRead(s, op.r, seen), -1)
      case DelFree(t) =>
        if !op.CountedOut? then s
        else Go(s, t, NoOp).(frees := s.frees + 1, deleted := s.deleted + [op.r.id],
                            freed := s.freed + [op.r.id])
  }

  function Exec(s: State, acts: seq<Act>): State {
    if acts == [] then s
    else Apply(Exec(s, acts[..|acts| - 1]), acts[|acts| - 1])
  }

  lemma {:induction false} ExecConcat(s: State, a: seq<Act>, b: seq<Act>)
    ensures Exec(s, a + b) == Exec(Exec(s, a), b)
  {
    if b == [] {
      assert a + b == a;
    } else {
      var less := b[..|b| - 1];
      ExecConcat(s, a, less);
      assert (a + b)[..|a + b| - 1] == a + less;
    }
  }

  lemma {:induction false} Extend(s0: State, acts: seq<Act>, t: State, a: Act) returns (longer: seq<Act>)
    requires Exec(s0, acts) == t
    ensures longer == acts + [a] && Exec(s0, longer) == Apply(t, a)
  {
    longer := acts + [a];
    assert longer[..|acts|] == acts;
  }

  /** No operation is in progress. */
  predicate AllIdle(ops: seq<Op>) {
    forall t :: 0 <= t < |ops| ==> ops[t] == NoOp
  }

  predicate Initial(s: State) {
    && s.fds == map[] && s.watched == {} && s.allocs == 0 && s.frees == 0 && s.deleted == [] && s.freed == []
    && (forall w :: 0 <= w < |s.counts| ==> s.counts[w] == 0)
    && AllIdle(s.threads)
  }

  // ---- accounting

  /** 1 while the operation holds a record that no fd count stands for. */
  function Owed(op: Op): int {
    if op.NoOp? || op.Taken? || op.Released? then 0 else 1
  }

  function OwedAll(ops: seq<Op>): int {
    if ops == [] then 0 else Owed(ops[0]) + OwedAll(ops[1..])
  }

  lemma {:induction false} OwedUpdate(ops: seq<Op>, t: nat, op: Op)
    requires t < |ops|
    ensures OwedAll(ops[t := op]) == OwedAll(ops) - Owed(ops[t]) + Owed(op)
  {
    if t == 0 {
      assert ops[t := op][1..] == ops[1..];
    } else {
      assert ops[t := op][1..] == ops[1..][t - 1 := op];
      OwedUpdate(ops[1..], t - 1, op);
    }
  }

  ghost predicate WorkersExist(s: State) {
    && (forall fd :: fd in s.fds ==> s.fds[fd].worker < |s.counts|)
    && (forall t :: 0 <= t < |s.threads| && !s.threads[t].NoOp? ==> s.threads[t].r.worker < |s.counts|)
  }

  ghost predicate Accounts(s: State) {
    s.allocs - s.frees == Sum(s.counts) + OwedAll(s.threads) && WorkersExist(s)
  }

  lemma {:induction false} WorkersStep(s: State, a: Act)
    requires WorkersExist(s)
    ensures WorkersExist(Apply(s, a))
  {
  }

  /** The steps that change an fd count. */
  lemma {:induction false} CountStep(s: State, t: nat, op: Op, w: nat, d: int)
    requires t < |s.threads| && w < |s.counts|
    requires d == Owed(s.threads[t]) - Owed(op)
    ensures var u := Count(Go(s, t, op), w, d);
            Sum(u.counts) + OwedAll(u.threads) == Sum(s.counts) + OwedAll(s.threads)
  {
    OwedUpdate(s.threads, t, op);
    SumUpdate(s.counts, w, s.counts[w] + d);
  }

  lemma {:induction false} AccountsAddCount(s: State, t: nat)
    requires Accounts(s)
    ensures var u := Apply(s, AddCount(t)); u.allocs - u.frees == Sum(u.counts) + OwedAll(u.threads)
  {
    if t < |s.threads| && s.threads[t].Watching? {
      CountStep(s, t, NoOp, s.threads[t].r.worker, 1);
    }
  }

  lemma {:induction false} AccountsDelCount(s: State, t: nat, seen: nat)
    requires Accounts(s)
    ensures var u := Apply(s, DelCount(t, seen)); u.allocs - u.frees == Sum(u.counts) + OwedAll(u.threads)
  {
    if t < |s.threads| && s.threads[t].Released? {
      var r := s.threads[t].r;
      CountStep(s, t, CountedOut(r), WorkerRead(s, r, seen), -1);
    }
  }

  /** The other steps change no count. */
  lemma {:induction false} AccountsOther(s: State, a: Act)
    requires Accounts(s) && !a.AddCount? && !a.DelCount?
    ensures var u := Apply(s, a); u.allocs - u.frees == Sum(u.counts) + OwedAll(u.threads)
  {
    if a.t < |s.threads| {
      OwedUpdate(s.threads, a.t, Apply(s, a).threads[a.t]);
      assert s.threads[a.t := Apply(s, a).threads[a.t]] == Apply(s, a).threads;
    }
  }

  lemma {:induction false} AccountsStep(s: State, a: Act)
    requires Accounts(s)
    ensures Accounts(Apply(s, a))
  {
    WorkersStep(s, a);
    match a
    case AddCount(t) => AccountsAddCount(s, t);
    case DelCount(t, seen) => AccountsDelCount(s, t, seen);
    case _ => AccountsOther(s, a);
  }

  lemma {:induction false} NothingOwed(ops: seq<Op>)
    requires AllIdle(ops)
    ensures OwedAll(ops) == 0
  {
    if ops != [] {
      NothingOwed(ops[1..]);
    }
  }

  lemma {:induction false} NothingCounted(xs: seq<int>)
    requires forall w :: 0 <= w < |xs| ==> xs[w] == 0
    ensures Sum(xs) == 0
  {
    if xs != [] {
      NothingCounted(xs[1..]);
    }
  }

  lemma {:induction false} AccountsRun(s0: State, acts: seq<Act>)
    requires Initial(s0)
    ensures Accounts(Exec(s0, acts))
  {
    if acts == [] {
      NothingOwed(s0.threads);
      NothingCounted(s0.counts);
    } else {
      AccountsRun(s0, acts[..|acts| - 1]);
      AccountsStep(Exec(s0, acts[..|acts| - 1]), acts[|acts| - 1]);
    }
  }

  /** In every interleaving, with arbitrary epoll failures, the sum of the fd counts is allocations
      minus frees of the event cache whenever no operation is in progress. */
  lemma {:induction false} CountsMatchCache(s0: State, acts: seq<Act>)
    requires Initial(s0)
    requires AllIdle(Exec(s0, acts).threads)
    ensures var s := Exec(s0, acts); Sum(s.counts) == s.allocs - s.frees
  {
    AccountsRun(s0, acts);
    NothingOwed(Exec(s0, acts).threads);
  }

  // ---- racing deletes

  predicate Deleting(op: Op) {
    op.Taken? || op.Released? || op.CountedOut?
  }

  /** The thread may be the only one to know the record: before its insert, or in a delete. */
  predicate Sole(op: Op) {
    Deleting(op) || op.Allocated?
  }

  ghost predicate TableOk(s: State) {
    forall fd :: fd in s.fds ==> s.fds[fd].fd == fd && s.fds[fd].id < s.allocs && s.fds[fd].id !in s.deleted
  }

  ghost predicate TableDistinct(s: State) {
    forall f, g :: f in s.fds && g in s.fds && f != g ==> s.fds[f].id != s.fds[g].id
  }

  ghost predicate ThreadsOk(s: State) {
    && (forall t :: 0 <= t < |s.threads| && !s.threads[t].NoOp? ==> s.threads[t].r.id < s.allocs)
    && (forall t :: 0 <= t < |s.threads| && Sole(s.threads[t]) ==> s.threads[t].r.id !in s.deleted)
  }

  ghost predicate ThreadsOffTable(s: State) {
    forall t, fd :: 0 <= t < |s.threads| && Sole(s.threads[t]) && fd in s.fds ==> s.fds[fd].id != s.threads[t].r.id
  }

  ghost predicate ThreadsDistinct(s: State) {
    forall t, u :: 0 <= t < u < |s.threads| && Sole(s.threads[t]) && Sole(s.threads[u]) ==>
      s.threads[t].r.id != s.threads[u].r.id
  }

  ghost predicate DeletedOk(s: State) {
    && (forall i :: 0 <= i < |s.deleted| ==> s.deleted[i] < s.allocs)
    && (forall i, j :: 0 <= i < j < |s.deleted| ==> s.deleted[i] != s.deleted[j])
  }

  /** A record is in the table, with one delete, freed by a delete, or not yet inserted: one of these. */
  ghost predicate Exclusive(s: State) {
    TableOk(s) && TableDistinct(s) && ThreadsOk(s) && ThreadsOffTable(s) && ThreadsDistinct(s) && DeletedOk(s)
  }

  lemma {:induction false} TableInsert(s: State, t: nat)
    requires TableOk(s) && ThreadsOk(s) && ThreadsOffTable(s) && TableDistinct(s)
    ensures TableOk(Apply(s, AddInsert(t))) && TableDistinct(Apply(s, AddInsert(t)))
  {
  }

  lemma {:induction false} TableDelFree(s: State, t: nat)
    requires TableOk(s) && ThreadsOffTable(s)
    ensures TableOk(Apply(s, DelFree(t)))
  {
  }

  lemma {:induction false} TableStep(s: State, a: Act)
    requires TableOk(s) && ThreadsOk(s) && ThreadsOffTable(s) && TableDistinct(s)
    ensures TableOk(Apply(s, a)) && TableDistinct(Apply(s, a))
  {
    match a
    case AddInsert(t) => TableInsert(s, t);
    case DelFree(t) => TableDelFree(s, t);
    case _ =>
  }

  lemma {:induction false} ThreadsStep(s: State, a: Act)
    requires TableOk(s) && ThreadsOk(s) && ThreadsDistinct(s) && DeletedOk(s)
    ensures ThreadsOk(Apply(s, a))
  {
  }

  lemma {:induction false} OffTableInsert(s: State, t: nat)
    requires ThreadsOffTable(s) && ThreadsDistinct(s)
    ensures ThreadsOffTable(Apply(s, AddInsert(t)))
  {
  }

  lemma {:induction false} OffTableTake(s: State, t: nat, fd: nat)
    requires TableDistinct(s) && ThreadsOffTable(s)
    ensures ThreadsOffTable(Apply(s, DelTake(t, fd)))
  {
  }

  lemma {:induction false} OffTableStart(s: State, t: nat, fd: nat, w: nat)
    requires TableOk(s) && ThreadsOffTable(s)
    ensures ThreadsOffTable(Apply(s, AddStart(t, fd, w)))
  {
  }

  lemma {:induction false} OffTableStep(s: State, a: Act)
    requires TableOk(s) && TableDistinct(s) && ThreadsOk(s) && ThreadsOffTable(s) && ThreadsDistinct(s)
    ensures ThreadsOffTable(Apply(s, a))
  {
    match a
    case AddInsert(t) => OffTableInsert(s, t);
    case DelTake(t, fd) => OffTableTake(s, t, fd);
    case AddStart(t, fd, w) => OffTableStart(s, t, fd, w);
    case _ =>
  }

  lemma {:induction false} DistinctStep(s: State, a: Act)
    requires TableOk(s) && ThreadsOk(s) && ThreadsOffTable(s) && ThreadsDistinct(s)
    ensures ThreadsDistinct(Apply(s, a))
  {
  }

  lemma {:induction false} DeletedStep(s: State, a: Act)
    requires ThreadsOk(s) && DeletedOk(s)
    ensures DeletedOk(Apply(s, a))
  {
  }

  lemma {:induction false} ExclusiveStep(s: State, a: Act)
    requires Exclusive(s)
    ensures Exclusive(Apply(s, a))
  {
    TableStep(s, a);
    ThreadsStep(s, a);
    OffTableStep(s, a);
    DistinctStep(s, a);
    DeletedStep(s, a);
  }

  lemma {:induction false} ExclusiveRun(s0: State, acts: seq<Act>)
    requires Initial(s0)
    ensures Exclusive(Exec(s0, acts))
  {
    if acts != [] {
      ExclusiveRun(s0, acts[..|acts| - 1]);
      ExclusiveStep(Exec(s0, acts[..|acts| - 1]), acts[|acts| - 1]);
    }
  }

  /** Racing deletes of one fd take its record at most once and free it at most once. */
  lemma {:induction false} DeletedOnce(s0: State, acts: seq<Act>, i: nat, j: nat, t: nat, u: nat)
    requires Initial(s0)
    ensures var s := Exec(s0, acts);
            && (i < j < |s.deleted| ==> s.deleted[i] != s.deleted[j])
            && (t < u < |s.threads| && Deleting(s.threads[t]) && Deleting(s.threads[u]) ==>
                  s.threads[t].r != s.threads[u].r)
  {
    ExclusiveRun(s0, acts);
  }
}
