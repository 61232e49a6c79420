/**
 The fd registry of `posix/eio-epoll.c` in its own form, one operation at a time: the fd table (a map,
 by the refinement in `HashSet`), the per-worker fd counts, the event cache counters and what the
 kernel watches. The results of the allocator and of `epoll_ctl` are parameters.
 */
module FdRegistry {
  import opened Errno

  /** `eio_event_t`. */
  datatype Record = Record(id: nat, fd: nat, worker: nat)

  function Sum(xs: seq<int>): int {
    if xs == [] then 0 else xs[0] + Sum(xs[1..])
  }

  lemma {:induction false} SumUpdate(xs: seq<int>, i: nat, v: int)
    requires i < |xs|
    ensures Sum(xs[i := v]) == Sum(xs) - xs[i] + v
  {
    if i == 0 {
      assert xs[i := v][1..] == xs[1..];
    } else {
      assert xs[i := v][1..] == xs[1..][i - 1 := v];
      SumUpdate(xs[1..], i - 1, v);
    }
  }

  lemma {:induction false} SumZero(n: nat)
    ensures Sum(seq(n, _ => 0)) == 0
  {
    if n > 0 {
      assert seq(n, _ => 0)[1..] == seq(n - 1, _ => 0);
      SumZero(n - 1);
    }
  }

  class EioData {
    var fds: map<nat, Record>              // iod_fds
    var counts: seq<int>                   // iwk_fds of each worker
    var round: nat                         // iod_round
    var allocs: nat                        // mc_allocs of iod_evcache
    var frees: int                         // mc_frees
    ghost var watched: set<(nat, nat)>     // (worker, fd) pairs the epolls watch
    ghost var kept: nat                    // records a failed delete took out of the table

    /** The sum of the fd counts is the number of records that are not freed: those in the table and
        those a failed delete left behind. Each fd in the table is watched by its worker. */
    ghost predicate Valid()
      reads this
    {
      Holds(0)
    }

    /** The same with `extra` records allocated that are not registered yet. */
    ghost predicate Holds(extra: int)
      reads this
    {
      && counts != []
      && Sum(counts) == |fds| + kept == allocs - frees - extra
      && forall fd :: fd in fds ==>
           fds[fd].fd == fd && fds[fd].worker < |counts| && (fds[fd].worker, fd) in watched
    }

    constructor (workers: nat)
      requires workers > 0
      ensures Valid() && fds == map[] && |counts| == workers && round == 0
    {
      fds, counts, round, allocs, frees := map[], seq(workers, _ => 0), 0, 0, 0;
      watched, kept := {}, 0;
      new;
      SumZero(workers);
    }

    /** `worker_lightload`: workers in turn. */
    method LightLoad() returns (w: nat)
      requires Valid()
      modifies this`round
      ensures w < |counts| && w == old(round) % |counts| && round == old(round) + 1
    {
      w := round % |counts|;
      round := round + 1;
    }

    /** The epoll of the record's worker watches the fd, and the worker's count goes up. */
    method Watch(ioe: Record)
      requires ioe.worker < |counts|
      modifies this`counts, this`watched
      ensures counts == old(counts)[ioe.worker := old(counts)[ioe.worker] + 1]
      ensures Sum(counts) == Sum(old(counts)) + 1
      ensures watched == old(watched) + {(ioe.worker, ioe.fd)}
    {
      watched := watched + {(ioe.worker, ioe.fd)};
      SumUpdate(counts, ioe.worker, counts[ioe.worker] + 1);
      counts := counts[ioe.worker := counts[ioe.worker] + 1];
    }

    /** `eio_addfd`. The fd is registered and watched exactly when the call returns 0; a failure at
        any point leaves table, counts and live records as they were. */
    method AddFd(fd: nat, memory: bool, ctl: int) returns (ret: int)
      requires Valid()
      modifies this
      ensures Valid() && |counts| == |old(counts)| && kept == old(kept)
      ensures ret == if !memory then -ENOMEM else if fd in old(fds) then -EEXIST else ctl
      ensures ret == 0 ==>
        && fd in fds && fds == old(fds)[fd := fds[fd]]
        && fds[fd].worker == old(round) % |counts| && fds[fd].id == old(allocs)
        && counts == old(counts)[fds[fd].worker := old(counts)[fds[fd].worker] + 1]
        && watched == old(watched) + {(fds[fd].worker, fd)}
      ensures ret != 0 ==>
        fds == old(fds) && counts == old(counts) && watched == old(watched)
        && allocs - frees == old(allocs - frees)
    {
      var w := LightLoad();
      if !memory {
        return -ENOMEM;
      }
      var ioe := Record(allocs, fd, w);
      allocs := allocs + 1;
      ret := Attach(ioe, ctl);
    }

    /** The insert and what follows it. */
    method Attach(ioe: Record, ctl: int) returns (ret: int)
      requires Holds(1) && ioe.worker < |counts|
      modifies this`fds, this`counts, this`frees, this`watched
      ensures Valid() && |counts| == |old(counts)|
      ensures ret == if ioe.fd in old(fds) then -EEXIST else ctl
      ensures ret == 0 ==>
        && fds == old(fds)[ioe.fd := ioe] && frees == old(frees)
        && counts == old(counts)[ioe.worker := old(counts)[ioe.worker] + 1]
        && watched == old(watched) + {(ioe.worker, ioe.fd)}
      ensures ret != 0 ==>
        fds == old(fds) && counts == old(counts) && watched == old(watched) && frees == old(frees) + 1
    {
      if ioe.fd in fds {
        frees := frees + 1;
        return -EEXIST;
      }
      fds := fds[ioe.fd := ioe];
      if ctl != 0 {
        fds := fds - {ioe.fd};
        frees := frees + 1;
        assert fds == old(fds);
        return ctl;
      }
      Watch(ioe);
      ret := 0;
    }

    /** `eio_delfd`. The fd always leaves the table; its record is freed and counted out exactly when
        `epoll_ctl` succeeds, otherwise it is kept, and still counted, for ever. */
    method DelFd(fd: nat, ctl: int) returns (ret: int)
      requires Valid()
      modifies this
      ensures Valid() && |counts| == |old(counts)| && allocs == old(allocs)
      ensures ret == if fd in old(fds) && ctl == 0 then 0 else -ENOENT
      ensures fds == old(fds) - {fd}
      ensures frees == old(frees) + (if ret == 0 then 1 else 0)
      ensures kept == old(kept) + (if fd in old(fds) && ctl != 0 then 1 else 0)
      ensures ret == 0 ==>
        var w := old(fds)[fd].worker;
        counts == old(counts)[w := old(counts)[w] - 1] && watched == old(watched) - {(w, fd)}
      ensures ret != 0 ==> counts == old(counts) && watched == old(watched)
    {
      if fd !in fds {
        assert fds - {fd} == fds;
        return -ENOENT;
      }
      var ioe := fds[fd];
      ghost var before := fds;
      fds := fds - {fd};
      assert |fds| == |before| - 1 by {
        assert before == fds[fd := ioe];
      }
      if ctl != 0 {
        kept := kept + 1;
        return -ENOENT;
      }
      watched := watched - {(ioe.worker, fd)};
      SumUpdate(counts, ioe.worker, counts[ioe.worker] - 1);
      counts := counts[ioe.worker := counts[ioe.worker] - 1];
      frees := frees + 1;
      ret := 0;
    }
  }
}
