/**
 The worker pool of `src/worker.c`: which worker `__edp_dispatch` gives an event to, and the hand-over
 itself on the workers' own objects.
 */
module Dispatcher {
  import opened Remainders
  import opened Errno
  import opened Scheduler
  import opened LinkedList
  import opened EventLists
  import opened WorkerThread

  // ---- selection of a worker

  /** The test on `ev_cpuid`: an event keeps its worker only below the round-robin position. */
  predicate Keeps(cpuid: int, round: nat) {
    0 <= cpuid < round
  }

  function Pick(cpuid: int, round: nat): nat {
    if Keeps(cpuid, round) then cpuid else round
  }

  /** wd_round after a new event: the next worker, the first one after the last. */
  function NextRound(cpuid: int, round: nat, n: nat): nat
    requires n > 0
  {
    if Keeps(cpuid, round) then round else if round + 1 < n then round + 1 else 0
  }

  /** wd_round after dispatches of events with these `ev_cpuid` values. */
  function RoundAfter(cpuids: seq<int>, n: nat): (r: nat)
    requires n > 0
    ensures r < n
  {
    if cpuids == [] then 0
    else NextRound(cpuids[|cpuids| - 1], RoundAfter(cpuids[..|cpuids| - 1], n), n)
  }

  /** How many of the events that had no worker yet went to worker `w`. */
  function Assigned(cpuids: seq<int>, n: nat, w: nat): nat
    requires n > 0
  {
    if cpuids == [] then 0
    else
      var before := cpuids[..|cpuids| - 1];
      var c, r := cpuids[|cpuids| - 1], RoundAfter(before, n);
      Assigned(before, n, w) + if !Keeps(c, r) && Pick(c, r) == w then 1 else 0
  }

  /** Over every run the workers share the new events evenly: any two differ by at most one, and the
      workers below the round-robin position are the ones ahead. */
  lemma {:induction false} EvenShares(cpuids: seq<int>, n: nat, v: nat, w: nat)
    requires v <= w < n
    ensures var ahead := if v < RoundAfter(cpuids, n) <= w then 1 else 0;
            Assigned(cpuids, n, v) == Assigned(cpuids, n, w) + ahead
  {
    if cpuids != [] {
      var before := cpuids[..|cpuids| - 1];
      EvenShares(before, n, v, w);
    }
  }

  /** Dispatches of new events move the round on by one each, modulo the number of workers. */
  lemma {:induction false} RoundOfNew(cpuids: seq<int>, n: nat, extra: seq<int>)
    requires n > 0
    requires forall i :: 0 <= i < |extra| ==> extra[i] < 0
    ensures RoundAfter(cpuids + extra, n) == (RoundAfter(cpuids, n) + |extra|) % n
  {
    if extra == [] {
      assert cpuids + extra == cpuids;
      RemainderUnique(RoundAfter(cpuids, n), n, 0, RoundAfter(cpuids, n));
    } else {
      var less := extra[..|extra| - 1];
      RoundOfNew(cpuids, n, less);
      assert (cpuids + extra)[..|cpuids + extra| - 1] == cpuids + less;
      RemainderStep(RoundAfter(cpuids, n) + |less|, n);
    }
  }

  /** An event below the round-robin position goes to the worker it has, any other to the next of the
      round, which moves on for it alone. */
  lemma {:induction false} PickIs(cpuid: int, round: nat, n: nat)
    requires round < n
    ensures 0 <= cpuid < round ==> Pick(cpuid, round) == cpuid && NextRound(cpuid, round, n) == round
    ensures !(0 <= cpuid < round) ==>
              Pick(cpuid, round) == round && NextRound(cpuid, round, n) == (round + 1) % n
  {
    RemainderStep(round, n);
    RemainderUnique(round, n, 0, round);
  }

  /** An event that was given the worker `w`, dispatched again after other new events, is given `w` again
      exactly when the round has not started over, or has come to `w` once more; otherwise it goes to the
      worker the round has come to. So an event given the last worker is not given it again at once,
      except in a pool of one. */
  lemma {:induction false} AffinityIff(cpuids: seq<int>, n: nat, cpuid: int, extra: seq<int>)
    requires n > 0 && !Keeps(cpuid, RoundAfter(cpuids, n))
    requires forall i :: 0 <= i < |extra| ==> extra[i] < 0
    ensures var w := Pick(cpuid, RoundAfter(cpuids, n));
            && (Keeps(w, RoundAfter(cpuids + [cpuid] + extra, n)) <==> w < (w + 1 + |extra|) % n)
            && (|extra| < n ==> (w < (w + 1 + |extra|) % n <==> w + 1 + |extra| < n))
            && var again := Pick(w, RoundAfter(cpuids + [cpuid] + extra, n));
               && (again == w <==> w <= (w + 1 + |extra|) % n)
               && (again != w ==> again == (w + 1 + |extra|) % n)
  {
    var w := RoundAfter(cpuids, n);
    assert (cpuids + [cpuid])[..|cpuids|] == cpuids;
    var r := RoundAfter(cpuids + [cpuid], n);
    RoundOfNew(cpuids + [cpuid], n, extra);
    if w + 1 == n {
      RemainderWhole(|extra|, n);
      assert w + 1 + |extra| == |extra| + n;
    }
    if |extra| < n {
      var k := w + 1 + |extra|;
      if k < n {
        RemainderUnique(k, n, 0, k);
      } else {
        RemainderUnique(k, n, 1, k - n);
      }
    }
  }

  // ---- the pool

  /** `edp_event_t`: the fields a dispatch reads or writes. */
  class Event {
    var kind: int          // ev_type
    var priority: int      // ev_priority
    var cpuid: int         // ev_cpuid
    const node: Node       // ev_node

    /** `edp_event_init`. */
    constructor (kind: int, priority: int)
      ensures this.kind == kind && this.priority == priority && cpuid == -1
      ensures fresh(node) && Ring(node, [])
    {
      this.kind, this.priority, cpuid := kind, priority, -1;
      node := new Node();
      new;
      InitListHead(node);
    }
  }

  /** The lists and nodes of the workers are within these, and no two workers share any. */
  ghost predicate Unshared(threads: seq<Worker>, lists: set<Lists>, nodes: set<Node>)
    reads lists
  {
    && (forall i :: 0 <= i < |threads| ==> threads[i].lists in lists && threads[i].lists.repr <= nodes)
    && (forall i, j :: 0 <= i < j < |threads| ==>
          && threads[i] != threads[j] && threads[i].lists != threads[j].lists
          && threads[i].lists.repr !! threads[j].lists.repr)
  }

  ghost predicate AllValid(threads: seq<Worker>, lists: set<Lists>, nodes: set<Node>)
    requires Unshared(threads, lists, nodes)
    reads threads, lists, nodes
  {
    forall i {:trigger threads[i].Valid()} :: 0 <= i < |threads| ==> threads[i].Valid()
  }

  /** The states of the workers. */
  ghost function States(threads: seq<Worker>): seq<State>
    reads threads, set w: Worker | w in threads :: w.lists
  {
    seq(|threads|, i requires 0 <= i < |threads| reads threads, set w: Worker | w in threads :: w.lists =>
      threads[i].Abs())
  }

  /** The states after a dispatch to worker `w`: nobody else has changed. */
  function Handed(states: seq<State>, w: nat, kind: int, prio: int, emit: nat): seq<State>
    requires w < |states|
  {
    if Decode(prio).None? then states else states[w := Delivered(states[w], kind, prio, emit)]
  }

  lemma {:induction false} HandedIs(was: seq<State>, now: seq<State>, w: nat, kind: int, prio: int, emit: nat)
    requires w < |was| == |now| && now[w] == Delivered(was[w], kind, prio, emit)
    requires forall i :: 0 <= i < |was| && i != w ==> now[i] == was[i]
    ensures now == Handed(was, w, kind, prio, emit)
  {
  }

  /** The node is in none of the workers' lists. */
  ghost predicate Unlinked(threads: seq<Worker>, node: Node)
    reads set w: Worker | w in threads :: w.lists
  {
    forall i :: 0 <= i < |threads| ==> node !in threads[i].lists.repr
  }

  /** The dispatch on one worker leaves the lists and the states of the others as they were. */
  method HandBeside(threads: seq<Worker>, ghost lists: set<Lists>, ghost nodes: set<Node>, w: nat, kind: int,
                    prio: int, emit: nat, node: Node)
    returns (ret: int)
    requires Unshared(threads, lists, nodes) && AllValid(threads, lists, nodes) && w < |threads|
    requires Unlinked(threads, node) && node in nodes
    modifies threads[w], threads[w].lists, threads[w].lists.repr, node
    ensures ret == if Decode(prio).Some? then 0 else -ERANGE
    ensures threads[w].Valid() && threads[w].Abs() == Delivered(old(threads[w].Abs()), kind, prio, emit)
    ensures threads[w].lists.repr <= old(threads[w].lists.repr) + {node}
    ensures forall i {:trigger threads[i]} :: 0 <= i < |threads| && i != w ==>
              && threads[i].Valid() && threads[i].Abs() == old(threads[i].Abs())
              && threads[i].lists.repr == old(threads[i].lists.repr)
  {
    var v := threads[w];
    ret := v.Dispatch(kind, prio, emit, node);
    forall i | 0 <= i < |threads| && i != w
      ensures threads[i].Valid() && threads[i].Abs() == old(threads[i].Abs())
      ensures threads[i].lists.repr == old(threads[i].lists.repr)
    {
      assert threads[i] != v && threads[i].lists != v.lists;
      assert old(threads[i].lists.repr) !! old(v.lists.repr);
    }
  }

  /** The dispatch on one worker, beside the others. */
  method HandTo(threads: seq<Worker>, ghost lists: set<Lists>, ghost nodes: set<Node>, w: nat, kind: int, prio: int,
                emit: nat, node: Node)
    returns (ret: int)
    requires Unshared(threads, lists, nodes) && AllValid(threads, lists, nodes) && w < |threads|
    requires Unlinked(threads, node) && node in nodes
    modifies threads[w], threads[w].lists, threads[w].lists.repr, node
    ensures Unshared(threads, lists, nodes) && AllValid(threads, lists, nodes)
    ensures ret == if Decode(prio).Some? then 0 else -ERANGE
    ensures States(threads) == Handed(old(States(threads)), w, kind, prio, emit)
  {
    ghost var was := States(threads);
    ret := HandBeside(threads, lists, nodes, w, kind, prio, emit, node);
    HandedIs(was, States(threads), w, kind, prio, emit);
  }

  /** `worker_data_t`. */
  class Pool {
    const threads: seq<Worker>       // wd_threads
    var round: nat                   // wd_round
    ghost var lists: set<Lists>      // the lists of the workers, and their nodes
    ghost var nodes: set<Node>

    ghost predicate Valid()
      reads this, threads, lists, nodes
    {
      round < |threads| && Unshared(threads, lists, nodes) && AllValid(threads, lists, nodes)
    }

    constructor (threads: seq<Worker>, ghost lists: set<Lists>, ghost nodes: set<Node>)
      requires threads != [] && Unshared(threads, lists, nodes) && AllValid(threads, lists, nodes)
      ensures Valid() && this.threads == threads && round == RoundAfter([], |threads|)
      ensures this.lists == lists && this.nodes == nodes
    {
      this.threads, round := threads, 0;
      this.lists, this.nodes := lists, nodes;
    }

    /** The worker for the event; an event without one gets the next of the round. */
    method Select(ev: Event) returns (w: nat)
      requires round < |threads|
      modifies this`round, ev`cpuid
      ensures w < |threads| && round < |threads|
      ensures w == Pick(old(ev.cpuid), old(round)) && ev.cpuid == w
      ensures 0 <= old(ev.cpuid) < old(round) ==> w == old(ev.cpuid) && round == old(round)
      ensures !(0 <= old(ev.cpuid) < old(round)) ==> w == old(round) && round == (old(round) + 1) % |threads|
      ensures round == NextRound(old(ev.cpuid), old(round), |threads|)
    {
      if 0 <= ev.cpuid < round {
        w := ev.cpuid;
      } else {
        w := round;
        ev.cpuid := w;
        RemainderStep(round, |threads|);
        RemainderUnique(round, |threads|, 0, round);
        round := (round + 1) % |threads|;
      }
    }

    /** `__edp_dispatch`: exactly the selected worker takes the event and is signalled; a priority out
        of range changes no worker, but the worker is already chosen. */
    method Dispatch(ev: Event, emit: nat) returns (ret: int)
      requires Valid() && Unlinked(threads, ev.node)
      modifies this, ev`cpuid, threads, lists, nodes, ev.node
      ensures Valid() && lists == old(lists) && nodes == old(nodes) + {ev.node}
      ensures round == NextRound(old(ev.cpuid), old(round), |threads|)
      ensures ev.cpuid == Pick(old(ev.cpuid), old(round)) && ev.cpuid < |threads|
      ensures ev.cpuid == if 0 <= old(ev.cpuid) < old(round) then old(ev.cpuid) else old(round)
      ensures ret == if Decode(ev.priority).Some? then 0 else -ERANGE
      ensures States(threads) == Handed(old(States(threads)), ev.cpuid, ev.kind, ev.priority, emit)
    {
      var w := Select(ev);
      assert States(threads) == old(States(threads));
      ret := Hand(w, ev.kind, ev.priority, emit, ev.node);
    }

    method Hand(w: nat, kind: int, prio: int, emit: nat, node: Node) returns (ret: int)
      requires Valid() && w < |threads| && Unlinked(threads, node)
      modifies this`nodes, threads, lists, nodes, node
      ensures Valid() && nodes == old(nodes) + {node}
      ensures ret == if Decode(prio).Some? then 0 else -ERANGE
      ensures States(threads) == Handed(old(States(threads)), w, kind, prio, emit)
    {
      Include(node);
      assert threads[w].lists in lists && threads[w].lists.repr <= old(nodes);
      ret := HandTo(threads, lists, nodes, w, kind, prio, emit, node);
    }

    /** The node of the event becomes one of the pool's. */
    ghost method Include(node: Node)
      requires Valid()
      modifies this`nodes
      ensures Valid() && nodes == old(nodes) + {node} && States(threads) == old(States(threads))
    {
      nodes := nodes + {node};
    }
  }
}
