/**
 An operation on the fd registry that no other thread disturbs (`posix/eio-epoll.c`): what its steps add up
 to, and that a delete undoes an add.
 */
module FdSequential {
  import opened FdRegistry
  import opened FdRaces

  lemma {:induction false} ExecSnoc(s: State, acts: seq<Act>, a: Act)
    ensures Exec(s, acts + [a]) == Apply(Exec(s, acts), a)
  {
    assert (acts + [a])[..|acts|] == acts;
  }

  lemma {:induction false} ThreeSteps(s: State, a: Act, b: Act, c: Act)
    ensures Exec(s, [a, b, c]) == Apply(Apply(Apply(s, a), b), c)
  {
    ExecSnoc(s, [], a);
    ExecSnoc(s, [] + [a], b);
    ExecSnoc(s, [] + [a] + [b], c);
    assert [] + [a] + [b] + [c] == [a, b, c];
  }

  lemma {:induction false} FourSteps(s: State, a: Act, b: Act, c: Act, d: Act)
    ensures Exec(s, [a, b, c, d]) == Apply(Apply(Apply(Apply(s, a), b), c), d)
  {
    ThreeSteps(s, a, b, c);
    ExecSnoc(s, [a, b, c], d);
    assert [a, b, c] + [d] == [a, b, c, d];
  }

  lemma {:induction false} FiveSteps(s: State, a: Act, b: Act, c: Act, d: Act, e: Act)
    ensures Exec(s, [a, b, c, d, e]) == Apply(Apply(Apply(Apply(Apply(s, a), b), c), d), e)
  {
    FourSteps(s, a, b, c, d);
    ExecSnoc(s, [a, b, c, d], e);
    assert [a, b, c, d] + [e] == [a, b, c, d, e];
  }

  /** The thread can start an operation, and the worker is one of the registry's. */
  predicate Ready(s: State, t: nat, w: nat) {
    t < |s.threads| && s.threads[t] == NoOp && w < |s.counts|
  }

  /** An add of an fd that is neither registered nor watched, and that epoll accepts, registers it, watches it
      and counts it on its worker. */
  lemma {:induction false} AddSucceeds(s: State, t: nat, fd: nat, w: nat)
    requires Ready(s, t, w) && fd !in s.fds && (w, fd) !in s.watched
    ensures Exec(s, [AddStart(t, fd, w), AddInsert(t), AddCtl(t, true), AddCount(t)])
            == s.(fds := s.fds[fd := Record(s.allocs, fd, w)], watched := s.watched + {(w, fd)},
                  counts := s.counts[w := s.counts[w] + 1], allocs := s.allocs + 1)
  {
    FourSteps(s, AddStart(t, fd, w), AddInsert(t), AddCtl(t, true), AddCount(t));
    assert s.threads[t := NoOp] == s.threads;
  }

  /** An add of a registered fd gives its record back and changes nothing else. */
  lemma {:induction false} AddRefused(s: State, t: nat, fd: nat, w: nat)
    requires Ready(s, t, w) && fd in s.fds
    ensures Exec(s, [AddStart(t, fd, w), AddInsert(t), AddFree(t)])
            == s.(allocs := s.allocs + 1, frees := s.frees + 1, freed := s.freed + [s.allocs])
  {
    ThreeSteps(s, AddStart(t, fd, w), AddInsert(t), AddFree(t));
    assert s.threads[t := NoOp] == s.threads;
  }

  /** An add that epoll refuses is rolled back entirely. */
  lemma {:induction false} AddRolledBack(s: State, t: nat, fd: nat, w: nat, ok: bool)
    requires Ready(s, t, w) && fd !in s.fds && (!ok || (w, fd) in s.watched)
    ensures Exec(s, [AddStart(t, fd, w), AddInsert(t), AddCtl(t, ok), RollBack(t), AddFree(t)])
            == s.(allocs := s.allocs + 1, frees := s.frees + 1, freed := s.freed + [s.allocs])
  {
    FiveSteps(s, AddStart(t, fd, w), AddInsert(t), AddCtl(t, ok), RollBack(t), AddFree(t));
    assert s.threads[t := NoOp] == s.threads;
    assert s.fds[fd := Record(s.allocs, fd, w)] - {fd} == s.fds;
  }

  /** A delete of a registered fd that is watched, when epoll agrees, takes it out of the table, stops the
      watch, counts it out on its worker and frees its record. */
  lemma {:induction false} DeleteSucceeds(s: State, t: nat, fd: nat, seen: nat)
    requires t < |s.threads| && s.threads[t] == NoOp && fd in s.fds
    requires var r := s.fds[fd];
             r.fd == fd && r.worker < |s.counts| && r.id !in s.freed && Pair(r) in s.watched
    ensures var r := s.fds[fd];
            Exec(s, [DelTake(t, fd), DelCtl(t, true, seen), DelCount(t, seen), DelFree(t)])
            == s.(fds := s.fds - {fd}, watched := s.watched - {Pair(r)},
                  counts := s.counts[r.worker := s.counts[r.worker] - 1], frees := s.frees + 1,
                  freed := s.freed + [r.id], deleted := s.deleted + [r.id])
  {
    FourSteps(s, DelTake(t, fd), DelCtl(t, true, seen), DelCount(t, seen), DelFree(t));
    assert s.threads[t := NoOp] == s.threads;
  }

  /** A delete undoes an add: table, watches and counts are as before. */
  lemma {:induction false} DeleteUndoesAdd(s: State, t: nat, fd: nat, w: nat, seen: nat)
    requires Ready(s, t, w) && fd !in s.fds && (w, fd) !in s.watched && s.allocs !in s.freed
    ensures var u := Exec(s, [AddStart(t, fd, w), AddInsert(t), AddCtl(t, true), AddCount(t)]);
            var v := Exec(u, [DelTake(t, fd), DelCtl(t, true, seen), DelCount(t, seen), DelFree(t)]);
            && v.fds == s.fds && v.watched == s.watched && v.counts == s.counts && v.threads == s.threads
            && v.allocs - v.frees == s.allocs - s.frees
  {
    AddSucceeds(s, t, fd, w);
    var u := Exec(s, [AddStart(t, fd, w), AddInsert(t), AddCtl(t, true), AddCount(t)]);
    DeleteSucceeds(u, t, fd, seen);
    assert s.fds[fd := Record(s.allocs, fd, w)] - {fd} == s.fds;
    assert s.watched + {(w, fd)} - {(w, fd)} == s.watched;
    assert s.counts[w := s.counts[w] + 1][w := s.counts[w]] == s.counts;
  }
}
