/**
 Is every registered fd watched? With concurrent `eio_addfd` and `eio_delfd` (`posix/eio-epoll.c`) a
 delete that comes late can take away the watch of a newer registration of the same fd.
 */
module FdWatch {
  import opened FdRegistry
  import opened FdRaces
  import opened FdFrees

  /** The add of this record is between its insert and its `epoll_ctl`, or about to be rolled back. */
  predicate BeingAdded(s: State, r: Record) {
    exists t :: 0 <= t < |s.threads| && (s.threads[t] == Inserted(r) || s.threads[t] == Failed(r))
  }

  /** The fd is in the table, its add is over, and its worker's epoll does not watch it. */
  predicate Unwatched(s: State, fd: nat) {
    fd in s.fds && !BeingAdded(s, s.fds[fd]) && Pair(s.fds[fd]) !in s.watched
  }

  predicate AllWatched(s: State) {
    forall fd :: fd in s.fds ==> !Unwatched(s, fd)
  }

  /** A delete that holds an older record of an fd which is registered again, and watched, on the worker
      it reads in that record. */
  predicate StaleDelete(s: State, a: Act) {
    && a.DelCtl? && a.ok && a.t < |s.threads| && s.threads[a.t].Taken?
    && var r := s.threads[a.t].r;
       && r.fd in s.fds && !BeingAdded(s, s.fds[r.fd])
       && Pair(s.fds[r.fd]) == PairRead(s, r, a.seen) && PairRead(s, r, a.seen) in s.watched
  }

  lemma {:induction false} StaysInProgress(s: State, a: Act, r: Record)
    requires Exclusive(s) && BeingAdded(s, r)
    requires r.fd in Apply(s, a).fds && Apply(s, a).fds[r.fd] == r
    ensures BeingAdded(Apply(s, a), r) || Pair(r) in Apply(s, a).watched
  {
    var t :| 0 <= t < |s.threads| && (s.threads[t] == Inserted(r) || s.threads[t] == Failed(r));
    if a.t != t {
      assert Apply(s, a).threads[t] == s.threads[t];
    } else if a == RollBack(t) && s.threads[t] == Failed(r) {
    } else if a == AddCtl(t, true) && s.threads[t] == Inserted(r) && Pair(r) !in s.watched {
    } else {
      var op := Apply(s, a).threads[t];
      assert op == Inserted(r) || op == Failed(r);
    }
  }

  lemma {:induction false} SameRecordStays(s: State, a: Act, fd: nat)
    requires Exclusive(s) && AllWatched(s) && !StaleDelete(s, a)
    requires fd in s.fds && fd in Apply(s, a).fds && Apply(s, a).fds[fd] == s.fds[fd]
    ensures !Unwatched(Apply(s, a), fd)
  {
    var r := s.fds[fd];
    if BeingAdded(s, r) {
      StaysInProgress(s, a, r);
    } else {
      assert !Unwatched(s, fd);
      WatchStays(s, a, r);
    }
  }

  lemma {:induction false} WatchStays(s: State, a: Act, r: Record)
    requires r.fd in s.fds && s.fds[r.fd] == r && !BeingAdded(s, r)
    requires Pair(r) in s.watched && !StaleDelete(s, a)
    ensures Pair(r) in Apply(s, a).watched
  {
  }

  lemma {:induction false} NewRecordInProgress(s: State, a: Act, fd: nat)
    requires TableOk(s)
    requires fd in Apply(s, a).fds && (fd !in s.fds || Apply(s, a).fds[fd] != s.fds[fd])
    ensures BeingAdded(Apply(s, a), Apply(s, a).fds[fd])
  {
    assert a.AddInsert? && a.t < |s.threads|;
    var u := Apply(s, a);
    assert u.threads[a.t] == Inserted(u.fds[fd]);
  }

  lemma {:induction false} StaleUnwatches(s: State, a: Act)
    requires StaleDelete(s, a)
    ensures Unwatched(Apply(s, a), s.threads[a.t].r.fd)
  {
    var r := s.fds[s.threads[a.t].r.fd];
    var u := Apply(s, a);
    forall t | 0 <= t < |u.threads|
      ensures u.threads[t] != Inserted(r) && u.threads[t] != Failed(r)
    {
      assert t != a.t ==> u.threads[t] == s.threads[t];
    }
  }

  /** A step keeps every registered fd watched if and only if it is not a stale delete. */
  lemma {:induction false} WatchStepIff(s: State, a: Act)
    requires Exclusive(s) && AllWatched(s)
    ensures AllWatched(Apply(s, a)) <==> !StaleDelete(s, a)
  {
    if StaleDelete(s, a) {
      StaleUnwatches(s, a);
    } else {
      var u := Apply(s, a);
      forall fd | fd in u.fds
        ensures !Unwatched(u, fd)
      {
        if fd in s.fds && u.fds[fd] == s.fds[fd] {
          SameRecordStays(s, a, fd);
        } else {
          NewRecordInProgress(s, a, fd);
        }
      }
    }
  }

  predicate NoStaleDelete(s: State, acts: seq<Act>) {
    acts == []
    || (var before := acts[..|acts| - 1];
        NoStaleDelete(s, before) && !StaleDelete(Exec(s, before), acts[|acts| - 1]))
  }

  predicate AlwaysWatched(s: State, acts: seq<Act>) {
    AllWatched(Exec(s, acts)) && (acts == [] || AlwaysWatched(s, acts[..|acts| - 1]))
  }

  /** Over every run: at each moment every fd in the table whose add is over is watched by its worker, if
      and only if no step is a stale delete. */
  lemma {:induction false} AlwaysWatchedIff(s0: State, acts: seq<Act>)
    requires Initial(s0)
    ensures AlwaysWatched(s0, acts) <==> NoStaleDelete(s0, acts)
  {
    if acts != [] {
      var before := acts[..|acts| - 1];
      AlwaysWatchedIff(s0, before);
      ExclusiveRun(s0, before);
      if AlwaysWatched(s0, before) {
        WatchStepIff(Exec(s0, before), acts[|acts| - 1]);
      }
    }
  }

  /** At operation boundaries, in a run that uses no freed record, that is every fd in the table. */
  lemma {:induction false} WatchedAtBoundary(s0: State, acts: seq<Act>, fd: nat)
    requires Initial(s0) && NoStaleDelete(s0, acts) && MemorySafe(s0, acts)
    requires AllIdle(Exec(s0, acts).threads) && fd in Exec(s0, acts).fds
    ensures Pair(Exec(s0, acts).fds[fd]) in Exec(s0, acts).watched
  {
    AlwaysWatchedIff(s0, acts);
    assert !Unwatched(Exec(s0, acts), fd);
  }
}
