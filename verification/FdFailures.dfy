/**
 What goes wrong in the fd registry when a delete takes a record whose add is still at `epoll_ctl`
 (`posix/eio-epoll.c`): the delete reads the record after the add has freed it, and frees it again; its fd,
 added again on whichever worker, ends up watched by nobody.
 */
module FdFailures {
  import opened FdRegistry
  import opened FdRaces
  import opened FdWatch
  import opened FdFrees

  /** A registry with two workers and two threads. */
  function Pool(fds: map<nat, Record>, counts: seq<int>, allocs: nat, freed: seq<nat>, first: Op, second: Op,
                watched: set<(nat, nat)>): State
  {
    State(fds, counts, allocs, |freed|, [first, second], watched, [], freed)
  }

  /** Two steps from `s`, with the states they lead to. */
  lemma {:induction false} Twice(s0: State, acts: seq<Act>, s: State, a: Act, t: State, b: Act, u: State)
    returns (longer: seq<Act>)
    requires Exec(s0, acts) == s && Apply(s, a) == t && Apply(t, b) == u
    ensures Exec(s0, longer) == u
  {
    longer := Extend(s0, acts, s, a);
    longer := Extend(s0, longer, t, b);
  }

  /** The first thread's add fails in epoll after the second thread has taken its record. */
  lemma {:induction false} FailedAdd(r: Record) returns (acts: seq<Act>)
    requires r == Record(0, 7, 0)
    ensures Exec(Pool(map[], [0, 0], 0, [], NoOp, NoOp, {}), acts)
            == Pool(map[], [0, 0], 1, [0], NoOp, Taken(r), {})
  {
    var s0 := Pool(map[], [0, 0], 0, [], NoOp, NoOp, {});
    var s1 := Pool(map[], [0, 0], 1, [], Allocated(r), NoOp, {});
    var s2 := Pool(map[7 := r], [0, 0], 1, [], Inserted(r), NoOp, {});
    acts := Twice(s0, [], s0, AddStart(0, 7, 0), s1, AddInsert(0), s2);
    acts := TakenInBetween(s0, acts, r);
    acts := RolledBack(s0, acts, r);
  }

  lemma {:induction false} TakenInBetween(s0: State, acts: seq<Act>, r: Record) returns (longer: seq<Act>)
    requires r == Record(0, 7, 0)
    requires Exec(s0, acts) == Pool(map[7 := r], [0, 0], 1, [], Inserted(r), NoOp, {})
    ensures Exec(s0, longer) == Pool(map[], [0, 0], 1, [], Failed(r), Taken(r), {})
  {
    var s := Pool(map[7 := r], [0, 0], 1, [], Inserted(r), NoOp, {});
    var t := Pool(map[7 := r], [0, 0], 1, [], Failed(r), NoOp, {});
    assert map[7 := r] - {7} == map[];
    longer := Twice(s0, acts, s, AddCtl(0, false), t, DelTake(1, 7), Pool(map[], [0, 0], 1, [], Failed(r), Taken(r), {}));
  }

  lemma {:induction false} RolledBack(s0: State, acts: seq<Act>, r: Record) returns (longer: seq<Act>)
    requires r == Record(0, 7, 0)
    requires Exec(s0, acts) == Pool(map[], [0, 0], 1, [], Failed(r), Taken(r), {})
    ensures Exec(s0, longer) == Pool(map[], [0, 0], 1, [0], NoOp, Taken(r), {})
  {
    var s := Pool(map[], [0, 0], 1, [], Failed(r), Taken(r), {});
    var t := Pool(map[], [0, 0], 1, [], Removed(r), Taken(r), {});
    assert s.fds - {7} == map[];
    longer := Twice(s0, acts, s, RollBack(0), t, AddFree(0), Pool(map[], [0, 0], 1, [0], NoOp, Taken(r), {}));
  }

  /** The fd is added again, successfully and on worker `w`, before that delete reaches `epoll_ctl`. */
  lemma {:induction false} AddedAgain(s0: State, acts: seq<Act>, r: Record, n: Record) returns (longer: seq<Act>)
    requires n.id == 1 && n.fd == 7 && n.worker < 2
    requires Exec(s0, acts) == Pool(map[], [0, 0], 1, [0], NoOp, Taken(r), {})
    ensures Exec(s0, longer) == Pool(map[7 := n], [0, 0], 2, [0], Inserted(n), Taken(r), {})
  {
    var s := Pool(map[], [0, 0], 1, [0], NoOp, Taken(r), {});
    var t := Pool(map[], [0, 0], 2, [0], Allocated(n), Taken(r), {});
    longer := Twice(s0, acts, s, AddStart(0, 7, n.worker), t, AddInsert(0),
                    Pool(map[7 := n], [0, 0], 2, [0], Inserted(n), Taken(r), {}));
  }

  lemma {:induction false} AnswerOk(r: Record, n: Record)
    requires n.fd == 7
    ensures Apply(Pool(map[7 := n], [0, 0], 2, [0], Inserted(n), Taken(r), {}), AddCtl(0, true))
            == Pool(map[7 := n], [0, 0], 2, [0], Watching(n), Taken(r), {(n.worker, 7)})
  {
    assert {} + {Pair(n)} == {(n.worker, 7)};
  }

  lemma {:induction false} CountIn(r: Record, n: Record)
    requires n.worker < 2
    ensures Apply(Pool(map[7 := n], [0, 0], 2, [0], Watching(n), Taken(r), {(n.worker, 7)}), AddCount(0))
            == Pool(map[7 := n], [0, 0][n.worker := 1], 2, [0], NoOp, Taken(r), {(n.worker, 7)})
  {
  }

  lemma {:induction false} WatchedAgain(s0: State, acts: seq<Act>, r: Record, n: Record) returns (longer: seq<Act>)
    requires n.fd == 7 && n.worker < 2
    requires Exec(s0, acts) == Pool(map[7 := n], [0, 0], 2, [0], Inserted(n), Taken(r), {})
    ensures Exec(s0, longer) == Pool(map[7 := n], [0, 0][n.worker := 1], 2, [0], NoOp, Taken(r), {(n.worker, 7)})
  {
    AnswerOk(r, n);
    CountIn(r, n);
    longer := Twice(s0, acts, Exec(s0, acts), AddCtl(0, true),
                    Pool(map[7 := n], [0, 0], 2, [0], Watching(n), Taken(r), {(n.worker, 7)}), AddCount(0),
                    Pool(map[7 := n], [0, 0][n.worker := 1], 2, [0], NoOp, Taken(r), {(n.worker, 7)}));
  }

  // ---- the delete goes on with the freed record

  lemma {:induction false} AnswerLate(r: Record, n: Record)
    requires r == Record(0, 7, 0) && n.worker < 2
    ensures var s := Pool(map[7 := n], [0, 0][n.worker := 1], 2, [0], NoOp, Taken(r), {(n.worker, 7)});
            && UsesFreed(s, DelCtl(1, true, n.worker))
            && Apply(s, DelCtl(1, true, n.worker))
               == Pool(map[7 := n], [0, 0][n.worker := 1], 2, [0], NoOp, Released(r), {})
  {
    assert {(n.worker, 7)} - {(n.worker, 7)} == {};
  }

  lemma {:induction false} CountOut(r: Record, n: Record)
    requires r == Record(0, 7, 0) && n.worker < 2
    ensures Apply(Pool(map[7 := n], [0, 0][n.worker := 1], 2, [0], NoOp, Released(r), {}), DelCount(1, n.worker))
            == Pool(map[7 := n], [0, 0], 2, [0], NoOp, CountedOut(r), {})
  {
    assert [0, 0][n.worker := 1][n.worker := 0] == [0, 0];
  }

  lemma {:induction false} SecondFree(r: Record, n: Record)
    requires r == Record(0, 7, 0)
    ensures Apply(Pool(map[7 := n], [0, 0], 2, [0], NoOp, CountedOut(r), {}), DelFree(1))
            == Pool(map[7 := n], [0, 0], 2, [0, 0], NoOp, NoOp, {}).(deleted := [0])
  {
    assert [0] + [0] == [0, 0] && [] + [0] == [0];
  }

  /** The run up to the delete's `epoll_ctl`: no record is freed twice in it, but the delete holds one
      that is freed. */
  lemma {:induction false} EarlyDelete(s0: State, w: nat) returns (acts: seq<Act>)
    requires s0 == Pool(map[], [0, 0], 0, [], NoOp, NoOp, {}) && w < 2
    ensures Initial(s0)
    ensures Exec(s0, acts)
            == Pool(map[7 := Record(1, 7, w)], [0, 0][w := 1], 2, [0], NoOp, Taken(Record(0, 7, 0)), {(w, 7)})
  {
    var r, n := Record(0, 7, 0), Record(1, 7, w);
    acts := FailedAdd(r);
    acts := AddedAgain(s0, acts, r, n);
    acts := WatchedAgain(s0, acts, r, n);
  }

  /** The next step reads the freed record. Its memory holds the record of the second add by then, so
      `epoll_ctl` is asked for that record's worker, be it the worker of the first add or another; the
      registered fd is watched no more. */
  lemma {:induction false} FreedRecordUsed(s0: State, w: nat)
    requires s0 == Pool(map[], [0, 0], 0, [], NoOp, NoOp, {}) && w < 2
    ensures exists acts :: (var s := Exec(s0, acts);
                            && NoClash(s0, acts) && UsesFreed(s, DelCtl(1, true, w))
                            && !Unwatched(s, 7) && Unwatched(Apply(s, DelCtl(1, true, w)), 7))
  {
    var r, n := Record(0, 7, 0), Record(1, 7, w);
    var acts := EarlyDelete(s0, w);
    AnswerLate(r, n);
    var s := Exec(s0, acts);
    forall id: nat
      ensures Frees(s, id) <= 1
    {
      PendingNone(s.threads, id);
      assert TimesIn([0], id) == TimesIn([], id) + OneIf(id == 0);
    }
    SingleRunIff(s0, acts);
    assert !Unwatched(s, 7) && Unwatched(Apply(s, DelCtl(1, true, w)), 7);
  }

  /** The whole run, to an operation boundary: record 0 is freed by the add and by the delete; fd 7 is
      registered, counted out, and watched by nobody. */
  lemma {:induction false} RunOut(s0: State, w: nat) returns (acts: seq<Act>)
    requires s0 == Pool(map[], [0, 0], 0, [], NoOp, NoOp, {}) && w < 2
    ensures Initial(s0)
    ensures Exec(s0, acts) == Pool(map[7 := Record(1, 7, w)], [0, 0], 2, [0, 0], NoOp, NoOp, {}).(deleted := [0])
  {
    var r, n := Record(0, 7, 0), Record(1, 7, w);
    acts := EarlyDelete(s0, w);
    AnswerLate(r, n);
    CountOut(r, n);
    SecondFree(r, n);
    acts := Extend(s0, acts, Exec(s0, acts), DelCtl(1, true, w));
    acts := Extend(s0, acts, Exec(s0, acts), DelCount(1, w));
    acts := Extend(s0, acts, Exec(s0, acts), DelFree(1));
  }

  lemma {:induction false} RegisteredButUnwatched(s0: State, w: nat)
    requires s0 == Pool(map[], [0, 0], 0, [], NoOp, NoOp, {}) && w < 2
    ensures Initial(s0)
    ensures exists acts :: AllIdle(Exec(s0, acts).threads) && Unwatched(Exec(s0, acts), 7)
  {
    var acts := RunOut(s0, w);
    assert Unwatched(Exec(s0, acts), 7);
  }

  lemma {:induction false} FreedTwice(s0: State)
    requires s0 == Pool(map[], [0, 0], 0, [], NoOp, NoOp, {})
    ensures Initial(s0)
    ensures exists acts :: AllIdle(Exec(s0, acts).threads) && !OnceEach(Exec(s0, acts).freed)
  {
    var acts := RunOut(s0, 0);
    var freed := Exec(s0, acts).freed;
    assert freed[0] == freed[1];
  }
}
