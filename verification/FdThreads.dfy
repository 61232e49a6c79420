/**
 `eio_addfd` and `eio_delfd` of `posix/eio-epoll.c` in their own form, with other threads at work between
 any two of their steps. The registry is one shared object; each critical section, `epoll_ctl` call,
 counter update and free is a method that performs the step of `FdRaces`.
 */
module FdThreads {
  import opened Errno
  import opened FdRegistry
  import opened FdRaces

  /** The actions are those of other threads. */
  predicate Foreign(acts: seq<Act>, t: nat) {
    forall i :: 0 <= i < |acts| ==> acts[i].t != t
  }

  predicate AllForeign(others: seq<seq<Act>>, t: nat) {
    forall i :: 0 <= i < |others| ==> Foreign(others[i], t)
  }

  /** What others do before step `i`. */
  function Meanwhile(others: seq<seq<Act>>, i: nat): seq<Act> {
    if i < |others| then others[i] else []
  }

  /** The actions of thread `t` in a run. */
  function Own(acts: seq<Act>, t: nat): seq<Act> {
    if acts == [] then []
    else Own(acts[..|acts| - 1], t) + if acts[|acts| - 1].t == t then [acts[|acts| - 1]] else []
  }

  lemma {:induction false} OwnForeign(a: seq<Act>, b: seq<Act>, t: nat)
    requires Foreign(b, t)
    ensures Own(a + b, t) == Own(a, t)
  {
    if b == [] {
      assert a + b == a;
    } else {
      var less := b[..|b| - 1];
      OwnForeign(a, less, t);
      assert (a + b)[..|a + b| - 1] == a + less;
    }
  }

  lemma {:induction false} OwnSnoc(a: seq<Act>, x: Act)
    ensures Own(a + [x], x.t) == Own(a, x.t) + [x]
  {
    assert (a + [x])[..|a|] == a;
  }

  lemma {:induction false} OtherKeeps(s: State, a: Act, t: nat)
    requires a.t != t
    ensures var u := Apply(s, a);
            |u.threads| == |s.threads| && |u.counts| == |s.counts|
            && (t < |s.threads| ==> u.threads[t] == s.threads[t])
  {
  }

  /** Other threads do not touch what an operation keeps in its local variables. */
  lemma {:induction false} ForeignKeeps(s: State, acts: seq<Act>, t: nat)
    requires Foreign(acts, t)
    ensures var u := Exec(s, acts);
            |u.threads| == |s.threads| && |u.counts| == |s.counts|
            && (t < |s.threads| ==> u.threads[t] == s.threads[t])
  {
    if acts != [] {
      ForeignKeeps(s, acts[..|acts| - 1], t);
      OtherKeeps(Exec(s, acts[..|acts| - 1]), acts[|acts| - 1], t);
    }
  }

  class Shared {
    var fds: map<nat, Record>              // iod_fds
    var counts: seq<int>                   // iwk_fds of each worker
    var allocs: nat                        // mc_allocs and mc_frees of iod_evcache
    var frees: int
    var ops: seq<Op>                       // the local variables of the threads
    var watched: set<(nat, nat)>           // what the epolls watch
    ghost var deleted: seq<nat>
    var freed: seq<nat>                    // records whose memory is free, or reused

    ghost function Abs(): State
      reads this
    {
      State(fds, counts, allocs, frees, ops, watched, deleted, freed)
    }

    // ---- the steps

    /** `mcache_alloc`, when it succeeds. */
    method Alloc(t: nat, fd: nat, w: nat)
      requires t < |ops| && ops[t] == NoOp && w < |counts|
      modifies this`ops, this`allocs
      ensures Abs() == Apply(old(Abs()), AddStart(t, fd, w))
    {
      ops := ops[t := Allocated(Record(allocs, fd, w))];
      allocs := allocs + 1;
    }

    /** `hset_add` under `iod_lock`. */
    method Insert(t: nat)
      requires t < |ops| && ops[t].Allocated?
      modifies this`ops, this`fds
      ensures Abs() == Apply(old(Abs()), AddInsert(t))
      ensures var r := old(ops)[t].r;
              if r.fd in old(fds) then fds == old(fds) && ops == old(ops)[t := Removed(r)]
              else fds == old(fds)[r.fd := r] && ops == old(ops)[t := Inserted(r)]
    {
      var r := ops[t].r;
      if r.fd in fds {
        ops := ops[t := Removed(r)];
      } else {
        fds := fds[r.fd := r];
        ops := ops[t := Inserted(r)];
      }
    }

    /** `epoll_ctl` with EPOLL_CTL_ADD. */
    method CtlAdd(t: nat, ok: bool)
      requires t < |ops| && ops[t].Inserted?
      modifies this`ops, this`watched
      ensures Abs() == Apply(old(Abs()), AddCtl(t, ok))
      ensures var r := old(ops)[t].r;
              if ok && Pair(r) !in old(watched) then
                watched == old(watched) + {Pair(r)} && ops == old(ops)[t := Watching(r)]
              else watched == old(watched) && ops == old(ops)[t := Failed(r)]
    {
      var r := ops[t].r;
      if !ok || Pair(r) in watched {
        ops := ops[t := Failed(r)];
      } else {
        watched := watched + {Pair(r)};
        ops := ops[t := Watching(r)];
      }
    }

    /** `hset_del` of the rollback. */
    method Remove(t: nat)
      requires t < |ops| && ops[t].Failed?
      modifies this`ops, this`fds
      ensures Abs() == Apply(old(Abs()), RollBack(t))
      ensures fds == old(fds) - {old(ops)[t].r.fd} && ops == old(ops)[t := Removed(old(ops)[t].r)]
    {
      var r := ops[t].r;
      fds := fds - {r.fd};
      ops := ops[t := Removed(r)];
    }

    /** `mcache_free` of the rollback, or after a refused insert. */
    method FreeAdded(t: nat)
      requires t < |ops| && ops[t].Removed?
      modifies this`ops, this`frees, this`freed
      ensures Abs() == Apply(old(Abs()), AddFree(t))
      ensures frees == old(frees) + 1 && ops == old(ops)[t := NoOp]
    {
      freed := freed + [ops[t].r.id];
      ops := ops[t := NoOp];
      frees := frees + 1;
    }

    /** The increment of iwk_fds. */
    method CountUp(t: nat)
      requires t < |ops| && ops[t].Watching?
      modifies this`ops, this`counts
      ensures Abs() == Apply(old(Abs()), AddCount(t)) && ops == old(ops)[t := NoOp]
      ensures var w := old(ops)[t].r.worker; w < |counts| ==> counts == old(counts)[w := old(counts)[w] + 1]
    {
      var w := ops[t].r.worker;
      if w < |counts| {
        counts := counts[w := counts[w] + 1];
      }
      ops := ops[t := NoOp];
    }

    /** `hset_get` and `hset_del` under `iod_lock`. */
    method Take(t: nat, fd: nat) returns (there: bool)
      requires t < |ops| && ops[t] == NoOp
      modifies this`ops, this`fds
      ensures Abs() == Apply(old(Abs()), DelTake(t, fd))
      ensures there == (fd in old(fds)) && fds == old(fds) - {fd}
      ensures ops == if there then old(ops)[t := Taken(old(fds)[fd])] else old(ops)
    {
      there := fd in fds;
      if there {
        ops := ops[t := Taken(fds[fd])];
        fds := fds - {fd};
      } else {
        assert fds - {fd} == fds;
      }
    }

    /** What a delete reads in `ioe_worker`. */
    method ReadWorker(r: Record, seen: nat) returns (w: nat)
      ensures w == WorkerRead(Abs(), r, seen)
    {
      w := if r.id in freed && seen < |counts| then seen else r.worker;
    }

    /** `epoll_ctl` with EPOLL_CTL_DEL. */
    method CtlDel(t: nat, ok: bool, seen: nat)
      requires t < |ops| && ops[t].Taken?
      modifies this`ops, this`watched
      ensures Abs() == Apply(old(Abs()), DelCtl(t, ok, seen))
      ensures var r := old(ops)[t].r;
              var p := PairRead(old(Abs()), r, seen);
              if ok && p in old(watched) then watched == old(watched) - {p} && ops == old(ops)[t := Released(r)]
              else watched == old(watched) && ops == old(ops)[t := NoOp]
    {
      var r := ops[t].r;
      var w := ReadWorker(r, seen);
      if !ok || (w, r.fd) !in watched {
        ops := ops[t := NoOp];
      } else {
        watched := watched - {(w, r.fd)};
        ops := ops[t := Released(r)];
      }
    }

    /** The decrement of iwk_fds. */
    method CountDown(t: nat, seen: nat)
      requires t < |ops| && ops[t].Released?
      modifies this`ops, this`counts
      ensures Abs() == Apply(old(Abs()), DelCount(t, seen)) && ops == old(ops)[t := CountedOut(old(ops)[t].r)]
      ensures var w := WorkerRead(old(Abs()), old(ops)[t].r, seen);
              w < |counts| ==> counts == old(counts)[w := old(counts)[w] - 1]
    {
      var w := ReadWorker(ops[t].r, seen);
      if w < |counts| {
        counts := counts[w := counts[w] - 1];
      }
      ops := ops[t := CountedOut(ops[t].r)];
    }

    /** `mcache_free` of the delete. */
    method FreeDeleted(t: nat)
      requires t < |ops| && ops[t].CountedOut?
      modifies this`ops, this`frees, this`deleted, this`freed
      ensures Abs() == Apply(old(Abs()), DelFree(t))
      ensures frees == old(frees) + 1 && ops == old(ops)[t := NoOp]
    {
      deleted := deleted + [ops[t].r.id];
      freed := freed + [ops[t].r.id];
      ops := ops[t := NoOp];
      frees := frees + 1;
    }

    // ---- other threads

    method Step(a: Act)
      modifies this
      ensures Abs() == Apply(old(Abs()), a)
    {
      if a.t < |ops| {
        var op := ops[a.t];
        match a
        case AddStart(t, fd, w) => if op == NoOp && w < |counts| { Alloc(t, fd, w); }
        case AddInsert(t) => if op.Allocated? { Insert(t); }
        case AddCtl(t, ok) => if op.Inserted? { CtlAdd(t, ok); }
        case RollBack(t) => if op.Failed? { Remove(t); }
        case AddFree(t) => if op.Removed? { FreeAdded(t); }
        case AddCount(t) => if op.Watching? { CountUp(t); }
        case DelTake(t, fd) => if op == NoOp { var _ := Take(t, fd); }
        case DelCtl(t, ok, seen) => if op.Taken? { CtlDel(t, ok, seen); }
        case DelCount(t, seen) => if op.Released? { CountDown(t, seen); }
        case DelFree(t) => if op.CountedOut? { FreeDeleted(t); }
      }
    }

    method Interleave(acts: seq<Act>)
      modifies this
      ensures Abs() == Exec(old(Abs()), acts)
    {
      var k := 0;
      while k < |acts|
        invariant 0 <= k <= |acts| && Abs() == Exec(old(Abs()), acts[..k])
      {
        assert acts[..k + 1][..k] == acts[..k];
        Step(acts[k]);
        k := k + 1;
      }
      assert acts[..|acts|] == acts;
    }

    /** Other threads act in the middle of an operation of `t`. */
    method Elsewhere(acts: seq<Act>, t: nat, ghost s0: State, ghost before: seq<Act>) returns (ghost trace: seq<Act>)
      requires Foreign(acts, t) && t < |ops| && Abs() == Exec(s0, before)
      modifies this
      ensures Abs() == Exec(s0, trace) && Own(trace, t) == Own(before, t)
      ensures |ops| == |old(ops)| && ops[t] == old(ops)[t] && |counts| == |old(counts)|
    {
      ForeignKeeps(Abs(), acts, t);
      ExecConcat(s0, before, acts);
      OwnForeign(before, acts, t);
      trace := before + acts;
      Interleave(acts);
    }

    /** A step of the operation's own, recorded at the end of the run. */
    ghost method Log(s0: State, before: seq<Act>, a: Act) returns (trace: seq<Act>)
      requires Abs() == Apply(Exec(s0, before), a)
      ensures Abs() == Exec(s0, trace) && Own(trace, a.t) == Own(before, a.t) + [a]
    {
      trace := before + [a];
      assert trace[..|before|] == before;
      OwnSnoc(before, a);
    }

    // ---- the operations

    /** The steps of an add, by what it returns. */
    static function AddSteps(t: nat, fd: nat, w: nat, memory: bool, ok: bool, ret: int): seq<Act> {
      if !memory then []
      else if ret == -EEXIST then [AddStart(t, fd, w), AddInsert(t), AddFree(t)]
      else if ret == 0 then [AddStart(t, fd, w), AddInsert(t), AddCtl(t, ok), AddCount(t)]
      else [AddStart(t, fd, w), AddInsert(t), AddCtl(t, ok), RollBack(t), AddFree(t)]
    }

    /** `eio_addfd` by thread `t`, while the others act between its steps: what all do together is a run,
        in which the steps of `t` are exactly those of its result. */
    method AddFd(t: nat, fd: nat, w: nat, memory: bool, ok: bool, others: seq<seq<Act>>)
      returns (ret: int, ghost trace: seq<Act>)
      requires t < |ops| && ops[t] == NoOp && w < |counts| && AllForeign(others, t)
      modifies this
      ensures Abs() == Exec(old(Abs()), trace) && t < |ops| && ops[t] == NoOp
      ensures Own(trace, t) == AddSteps(t, fd, w, memory, ok, ret)
      ensures ret == -ENOMEM || ret == -EEXIST || ret == -1 || ret == 0
      ensures (ret == -ENOMEM <==> !memory) && (ret == 0 ==> ok)
    {
      ghost var s0 := Abs();
      if !memory {
        return -ENOMEM, [];
      }
      trace := Begin(t, fd, w, others, s0);
      trace := Elsewhere(Meanwhile(others, 1), t, s0, trace);
      if ops[t].Removed? {
        trace := Refuse(t, s0, trace);
        return -EEXIST, trace;
      }
      ret, trace := Finish(t, ok, others, s0, trace);
    }

    /** Up to the insert. */
    method Begin(t: nat, fd: nat, w: nat, others: seq<seq<Act>>, ghost s0: State) returns (ghost trace: seq<Act>)
      requires t < |ops| && ops[t] == NoOp && w < |counts| && AllForeign(others, t) && s0 == Abs()
      modifies this
      ensures Abs() == Exec(s0, trace) && t < |ops| && (ops[t].Removed? || ops[t].Inserted?)
      ensures Own(trace, t) == [AddStart(t, fd, w), AddInsert(t)]
    {
      Alloc(t, fd, w);
      trace := Log(s0, [], AddStart(t, fd, w));
      trace := Elsewhere(Meanwhile(others, 0), t, s0, trace);
      Insert(t);
      trace := Log(s0, trace, AddInsert(t));
    }

    /** The fd was there. */
    method Refuse(t: nat, ghost s0: State, ghost before: seq<Act>) returns (ghost trace: seq<Act>)
      requires t < |ops| && ops[t].Removed? && Abs() == Exec(s0, before)
      modifies this
      ensures Abs() == Exec(s0, trace) && t < |ops| && ops[t] == NoOp
      ensures Own(trace, t) == Own(before, t) + [AddFree(t)]
    {
      FreeAdded(t);
      trace := Log(s0, before, AddFree(t));
    }

    /** From `epoll_ctl` on. */
    method Finish(t: nat, ok: bool, others: seq<seq<Act>>, ghost s0: State, ghost before: seq<Act>)
      returns (ret: int, ghost trace: seq<Act>)
      requires t < |ops| && ops[t].Inserted? && AllForeign(others, t) && Abs() == Exec(s0, before)
      modifies this
      ensures Abs() == Exec(s0, trace) && t < |ops| && ops[t] == NoOp
      ensures ret == 0 || ret == -1
      ensures Own(trace, t) ==
              Own(before, t) + [AddCtl(t, ok)] + if ret == 0 then [AddCount(t)] else [RollBack(t), AddFree(t)]
      ensures ret == 0 ==> ok
    {
      CtlAdd(t, ok);
      trace := Log(s0, before, AddCtl(t, ok));
      trace := Elsewhere(Meanwhile(others, 2), t, s0, trace);
      if ops[t].Failed? {
        trace := Undo(t, others, s0, trace);
        ret := -1;
      } else {
        CountUp(t);
        trace := Log(s0, trace, AddCount(t));
        ret := 0;
      }
    }

    /** The rollback. */
    method Undo(t: nat, others: seq<seq<Act>>, ghost s0: State, ghost before: seq<Act>) returns (ghost trace: seq<Act>)
      requires t < |ops| && ops[t].Failed? && AllForeign(others, t) && Abs() == Exec(s0, before)
      modifies this
      ensures Abs() == Exec(s0, trace) && t < |ops| && ops[t] == NoOp
      ensures Own(trace, t) == Own(before, t) + [RollBack(t), AddFree(t)]
    {
      Remove(t);
      trace := Log(s0, before, RollBack(t));
      trace := Elsewhere(Meanwhile(others, 3), t, s0, trace);
      FreeAdded(t);
      trace := Log(s0, trace, AddFree(t));
    }

    /** `eio_delfd` by thread `t`, likewise; -ENOENT when the fd is not in the table, and when `epoll_ctl`
        fails. `seen` is what the record reads as, should others have freed it meanwhile. */
    method DelFd(t: nat, fd: nat, ok: bool, seen: nat, others: seq<seq<Act>>) returns (ret: int, ghost trace: seq<Act>)
      requires t < |ops| && ops[t] == NoOp && AllForeign(others, t)
      modifies this
      ensures Abs() == Exec(old(Abs()), trace) && t < |ops| && ops[t] == NoOp
      ensures ret == 0 || ret == -ENOENT
      ensures Own(trace, t) ==
              if ret == 0 then [DelTake(t, fd), DelCtl(t, ok, seen), DelCount(t, seen), DelFree(t)]
              else if fd in old(fds) then [DelTake(t, fd), DelCtl(t, ok, seen)]
              else [DelTake(t, fd)]
      ensures ret == 0 ==> ok && fd in old(fds)
    {
      ghost var s0 := Abs();
      var there := Take(t, fd);
      trace := Log(s0, [], DelTake(t, fd));
      if !there {
        return -ENOENT, trace;
      }
      trace := Elsewhere(Meanwhile(others, 0), t, s0, trace);
      ret, trace := Release(t, ok, seen, others, s0, trace);
    }

    /** From `epoll_ctl` on. */
    method Release(t: nat, ok: bool, seen: nat, others: seq<seq<Act>>, ghost s0: State, ghost before: seq<Act>)
      returns (ret: int, ghost trace: seq<Act>)
      requires t < |ops| && ops[t].Taken? && AllForeign(others, t) && Abs() == Exec(s0, before)
      modifies this
      ensures Abs() == Exec(s0, trace) && t < |ops| && ops[t] == NoOp
      ensures ret == 0 || ret == -ENOENT
      ensures Own(trace, t) ==
              Own(before, t) + [DelCtl(t, ok, seen)] + if ret == 0 then [DelCount(t, seen), DelFree(t)] else []
      ensures ret == 0 ==> ok
    {
      CtlDel(t, ok, seen);
      trace := Log(s0, before, DelCtl(t, ok, seen));
      if ops[t] == NoOp {
        return -ENOENT, trace;
      }
      trace := Elsewhere(Meanwhile(others, 1), t, s0, trace);
      trace := GiveBack(t, seen, others, s0, trace);
      ret := 0;
    }

    /** The count and the free. */
    method GiveBack(t: nat, seen: nat, others: seq<seq<Act>>, ghost s0: State, ghost before: seq<Act>)
      returns (ghost trace: seq<Act>)
      requires t < |ops| && ops[t].Released? && AllForeign(others, t) && Abs() == Exec(s0, before)
      modifies this
      ensures Abs() == Exec(s0, trace) && t < |ops| && ops[t] == NoOp
      ensures Own(trace, t) == Own(before, t) + [DelCount(t, seen), DelFree(t)]
    {
      CountDown(t, seen);
      trace := Log(s0, before, DelCount(t, seen));
      trace := Elsewhere(Meanwhile(others, 2), t, s0, trace);
      FreeDeleted(t);
      trace := Log(s0, trace, DelFree(t));
    }
  }
}
