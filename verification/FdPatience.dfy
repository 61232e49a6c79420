/**
 What the users of the fd registry can do: delete an fd only after the add that registered it has returned.
 Then, whatever `epoll_ctl` answers and however else adds and deletes interleave (`posix/eio-epoll.c`),
 every registered fd is watched and no record is freed twice.
 */
module FdPatience {
  import opened FdRegistry
  import opened FdRaces
  import opened FdWatch
  import opened FdFrees

  /** A delete takes a record whose add has not returned from `epoll_ctl`. */
  predicate EarlyTake(s: State, a: Act) {
    && a.DelTake? && a.t < |s.threads| && s.threads[a.t] == NoOp
    && a.fd in s.fds && BeingAdded(s, s.fds[a.fd])
  }

  predicate Patient(s: State, acts: seq<Act>) {
    acts == []
    || (var before := acts[..|acts| - 1];
        Patient(s, before) && !EarlyTake(Exec(s, before), acts[|acts| - 1]))
  }

  // ---- what a patient run keeps

  /** The record of an add at `epoll_ctl`, or about to be rolled back, is in the table. */
  ghost predicate AddsInTable(s: State) {
    forall t :: 0 <= t < |s.threads| && (s.threads[t].Inserted? || s.threads[t].Failed?) ==>
      s.threads[t].r.fd in s.fds && s.fds[s.threads[t].r.fd] == s.threads[t].r
  }

  /** No record in the table is freed or about to be. */
  ghost predicate TableUnfreed(s: State) {
    && (forall fd :: fd in s.fds ==> s.fds[fd].id !in s.freed)
    && (forall t, fd :: 0 <= t < |s.threads| && s.threads[t].Removed? && fd in s.fds ==>
          s.fds[fd].id != s.threads[t].r.id)
  }

  /** Nor is a record that a delete holds before its `epoll_ctl`. */
  ghost predicate TakenUnfreed(s: State) {
    forall t :: 0 <= t < |s.threads| && s.threads[t].Taken? ==>
      && s.threads[t].r.id !in s.freed
      && (forall u :: 0 <= u < |s.threads| && WillFree(s.threads[u]) ==> s.threads[u].r.id != s.threads[t].r.id)
  }

  /** Such a record is still watched, no two are watched by the same pair, and no registered fd whose
      add is over shares its pair. */
  ghost predicate TakenWatched(s: State) {
    && (forall t :: 0 <= t < |s.threads| && s.threads[t].Taken? ==> Pair(s.threads[t].r) in s.watched)
    && (forall t, u :: 0 <= t < u < |s.threads| && s.threads[t].Taken? && s.threads[u].Taken? ==>
          Pair(s.threads[t].r) != Pair(s.threads[u].r))
  }

  ghost predicate TakenApart(s: State) {
    forall t, fd :: 0 <= t < |s.threads| && s.threads[t].Taken? && fd in s.fds && !BeingAdded(s, s.fds[fd]) ==>
      Pair(s.fds[fd]) != Pair(s.threads[t].r)
  }

  ghost predicate Calm(s: State) {
    && AddsInTable(s) && TableUnfreed(s) && TakenUnfreed(s) && TakenWatched(s) && TakenApart(s) && AllWatched(s)
  }

  lemma {:induction false} InTableStep(s: State, a: Act)
    requires AddsDistinct(s) && AddsInTable(s) && !EarlyTake(s, a)
    ensures AddsInTable(Apply(s, a))
  {
    var u := Apply(s, a);
    forall t | 0 <= t < |u.threads| && (u.threads[t].Inserted? || u.threads[t].Failed?)
      ensures u.threads[t].r.fd in u.fds && u.fds[u.threads[t].r.fd] == u.threads[t].r
    {
      if t != a.t {
        assert s.threads[t] == u.threads[t];
        assert BeingAdded(s, s.threads[t].r);
      }
    }
  }

  lemma {:induction false} TableUnfreedStep(s: State, a: Act)
    requires Exclusive(s) && AddsOwn(s) && AddsInTable(s) && TableUnfreed(s)
    ensures TableUnfreed(Apply(s, a))
  {
    if a.t < |s.threads| {
      StepWrites(s, a);
    }
  }

  /** A record that can be taken patiently is decided by nobody. */
  lemma {:induction false} TableUndecided(s: State, fd: nat)
    requires Exclusive(s) && AddsInTable(s) && TableUnfreed(s)
    requires fd in s.fds && !BeingAdded(s, s.fds[fd])
    ensures s.fds[fd].id !in s.freed
    ensures forall u :: 0 <= u < |s.threads| && WillFree(s.threads[u]) ==> s.threads[u].r.id != s.fds[fd].id
  {
    forall u | 0 <= u < |s.threads| && WillFree(s.threads[u])
      ensures s.threads[u].r.id != s.fds[fd].id
    {
      if s.threads[u].Failed? {
        assert s.fds[s.threads[u].r.fd] == s.threads[u].r;
      }
    }
  }

  lemma {:induction false} TakenUnfreedStep(s: State, a: Act)
    requires Exclusive(s) && AddsOwn(s) && AddsInTable(s) && TableUnfreed(s) && TakenUnfreed(s)
    requires !EarlyTake(s, a)
    ensures TakenUnfreed(Apply(s, a))
  {
    if a.t < |s.threads| {
      StepWrites(s, a);
      if a.DelTake? && a.fd in s.fds && s.threads[a.t] == NoOp {
        TableUndecided(s, a.fd);
      }
    }
  }

  lemma {:induction false} TakenWatchedStep(s: State, a: Act)
    requires TableOk(s) && TakenUnfreed(s) && TakenWatched(s) && TakenApart(s) && AllWatched(s) && !EarlyTake(s, a)
    ensures TakenWatched(Apply(s, a))
  {
    if a.DelTake? && a.t < |s.threads| && a.fd in s.fds {
      assert !Unwatched(s, a.fd);
    }
  }

  lemma {:induction false} NotStale(s: State, a: Act)
    requires TakenUnfreed(s) && TakenApart(s)
    ensures !StaleDelete(s, a)
  {
  }

  /** A step ends the add of a record that stays in the table only by watching it. */
  lemma {:induction false} AddEnds(s: State, a: Act, fd: nat)
    requires Exclusive(s) && TakenWatched(s)
    requires fd in s.fds && BeingAdded(s, s.fds[fd])
    requires fd in Apply(s, a).fds && Apply(s, a).fds[fd] == s.fds[fd] && !BeingAdded(Apply(s, a), s.fds[fd])
    ensures a.AddCtl? && Pair(s.fds[fd]) !in s.watched
  {
    var r := s.fds[fd];
    var t :| 0 <= t < |s.threads| && (s.threads[t] == Inserted(r) || s.threads[t] == Failed(r));
    var u := Apply(s, a);
    assert u.threads[t] != Inserted(r) && u.threads[t] != Failed(r);
    assert a.t == t;
  }

  lemma {:induction false} ApartStep(s: State, a: Act)
    requires Exclusive(s) && TakenWatched(s) && TakenApart(s) && !EarlyTake(s, a)
    ensures TakenApart(Apply(s, a))
  {
    var u := Apply(s, a);
    forall t, fd | 0 <= t < |u.threads| && u.threads[t].Taken? && fd in u.fds && !BeingAdded(u, u.fds[fd])
      ensures Pair(u.fds[fd]) != Pair(u.threads[t].r)
    {
      if fd in s.fds && u.fds[fd] == s.fds[fd] {
        StaysApart(s, a, t, fd);
      } else {
        NewRecordInProgress(s, a, fd);
      }
    }
  }

  lemma {:induction false} StaysApart(s: State, a: Act, t: nat, fd: nat)
    requires Exclusive(s) && TakenWatched(s) && TakenApart(s) && !EarlyTake(s, a)
    requires t < |Apply(s, a).threads| && Apply(s, a).threads[t].Taken?
    requires fd in s.fds && fd in Apply(s, a).fds && Apply(s, a).fds[fd] == s.fds[fd]
    requires !BeingAdded(Apply(s, a), s.fds[fd])
    ensures Pair(s.fds[fd]) != Pair(Apply(s, a).threads[t].r)
  {
    if BeingAdded(s, s.fds[fd]) {
      AddEnds(s, a, fd);
      assert s.threads[t].Taken?;
    }
  }

  lemma {:induction false} CalmStep(s: State, a: Act)
    requires Exclusive(s) && AddsOwn(s) && Calm(s) && !EarlyTake(s, a)
    ensures Calm(Apply(s, a))
  {
    InTableStep(s, a);
    TableUnfreedStep(s, a);
    TakenUnfreedStep(s, a);
    TakenWatchedStep(s, a);
    ApartStep(s, a);
    NotStale(s, a);
    WatchStepIff(s, a);
  }

  lemma {:induction false} NoClashHere(s: State, a: Act)
    requires Exclusive(s) && AddsOwn(s) && Calm(s)
    ensures !Clash(s, a)
  {
    if Decides(s, a).Some? {
      var op := s.threads[a.t];
      forall u | 0 <= u < |s.threads| && WillFree(s.threads[u])
        ensures s.threads[u].r.id != op.r.id
      {
      }
    }
  }

  lemma {:induction false} CalmRun(s0: State, acts: seq<Act>)
    requires Initial(s0) && Patient(s0, acts)
    ensures Calm(Exec(s0, acts)) && NoClash(s0, acts) && NoLateAnswer(s0, acts) && NoStaleDelete(s0, acts)
  {
    if acts != [] {
      var before := acts[..|acts| - 1];
      var s, a := Exec(s0, before), acts[|acts| - 1];
      CalmRun(s0, before);
      ExclusiveRun(s0, before);
      AddsOwnRun(s0, before);
      CalmStep(s, a);
      NoClashHere(s, a);
      NotStale(s, a);
    }
  }

  /** Users who delete an fd only after its add has returned get both, in every interleaving and
      whatever `epoll_ctl` answers: no record is freed twice, by adds and deletes together, or used after
      its free; and at operation boundaries each registered fd is watched by its worker. */
  lemma {:induction false} PatientRun(s0: State, acts: seq<Act>)
    requires Initial(s0) && Patient(s0, acts)
    ensures var s := Exec(s0, acts);
            && MemorySafe(s0, acts) && OnceEach(s.freed)
            && (AllIdle(s.threads) ==> forall fd :: fd in s.fds ==> Pair(s.fds[fd]) in s.watched)
  {
    var s := Exec(s0, acts);
    CalmRun(s0, acts);
    FreedOnceIff(s0, acts);
    if AllIdle(s.threads) {
      forall fd | fd in s.fds
        ensures Pair(s.fds[fd]) in s.watched
      {
        WatchedAtBoundary(s0, acts, fd);
      }
    }
  }

  // ---- and nothing less will do

  /** The add of `r` fails and is rolled back; nobody else moves. */
  lemma {:induction false} RollsBack(s: State, u: nat, r: Record) returns (more: seq<Act>)
    requires u < |s.threads| && (s.threads[u] == Inserted(r) || s.threads[u] == Failed(r))
    ensures var z := Exec(s, more);
            && |z.threads| == |s.threads| && r.id in z.freed
            && forall t :: 0 <= t < |s.threads| && t != u ==> z.threads[t] == s.threads[t]
  {
    more := [];
    if s.threads[u] == Inserted(r) {
      more := Extend(s, more, s, AddCtl(u, false));
    }
    var x := Exec(s, more);
    assert x.threads[u] == Failed(r);
    more := Extend(s, more, x, RollBack(u));
    more := Extend(s, more, Apply(x, RollBack(u)), AddFree(u));
  }

  /** Each single delete that takes a record too early can go wrong: from any state there is a way to
      go on, with an add that `epoll_ctl` refuses, after which the delete reads the freed record. */
  lemma {:induction false} EarlyTakeHarms(s0: State, acts: seq<Act>, a: Act)
    requires EarlyTake(Exec(s0, acts), a)
    ensures exists more :: UsesFreed(Exec(s0, acts + [a] + more), DelCtl(a.t, true, 0))
  {
    var s := Exec(s0, acts);
    var r := s.fds[a.fd];
    var u :| 0 <= u < |s.threads| && (s.threads[u] == Inserted(r) || s.threads[u] == Failed(r));
    var first := Extend(s0, acts, s, a);
    var more := RollsBack(Apply(s, a), u, r);
    ExecConcat(s0, first, more);
  }
}
