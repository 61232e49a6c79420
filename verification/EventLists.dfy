/**
 The event lists of one worker of `src/worker.c` on the heap: five queue heads and the head of the
 private list, all rings of `LinkedList`. What they hold, as sequences of events, is proved to change as
 the scheduler says; only nodes of these lists are written.
 */
module EventLists {
  import opened Wrappers
  import opened Scheduler
  import opened LinkedList

  // ---- which node is in which list

  /** The nodes of the five queues and of the private list. */
  datatype Layout = Layout(heads: Lanes<Node>, nodes: Lanes<seq<Node>>, events: Node, mine: seq<Node>)

  /** `container_of`: these nodes are part of these events. */
  predicate Carries(owner: map<Node, Item>, xs: seq<Node>, its: seq<Item>) {
    |xs| == |its| && forall i :: 0 <= i < |xs| ==> xs[i] in owner && owner[xs[i]] == its[i]
  }

  ghost predicate AllIn(xs: seq<Node>, repr: set<Node>) {
    forall x :: x in xs ==> x in repr
  }

  ghost predicate Within(l: Layout, repr: set<Node>) {
    && l.events in repr && AllIn(l.mine, repr)
    && (forall p: Priority :: l.heads.At(p) in repr && AllIn(l.nodes.At(p), repr))
  }

  ghost predicate Separate(l: Layout) {
    && (forall p: Priority, q: Priority :: p != q ==>
          Disjoint(l.heads.At(p), l.nodes.At(p), l.heads.At(q), l.nodes.At(q)))
    && (forall p: Priority ::
          l.heads.At(p) !in l.nodes.At(p) && Disjoint(l.heads.At(p), l.nodes.At(p), l.events, l.mine))
  }

  ghost predicate Contents(l: Layout, owner: map<Node, Item>, queues: Lanes<seq<Item>>, local: seq<Item>) {
    && Carries(owner, l.mine, local)
    && (forall p: Priority :: Carries(owner, l.nodes.At(p), queues.At(p)))
  }

  lemma {:induction false} AtWith<T>(l: Lanes<T>, p: Priority, v: T, q: Priority)
    ensures l.With(p, v).At(q) == if q == p then v else l.At(q)
  {
  }

  lemma {:induction false} StartLayout(a: Node, b: Node, c: Node, d: Node, e: Node, f: Node)
    requires Distinct([a, b, c, d, e, f])
    ensures var l := Layout(Lanes(a, b, c, d, e), Lanes([], [], [], [], []), f, []);
            Within(l, {a, b, c, d, e, f}) && Separate(l) && Contents(l, map[], Lanes([], [], [], [], []), [])
  {
    var xs := [a, b, c, d, e, f];
    assert xs[0] != xs[1] && xs[0] != xs[2] && xs[0] != xs[3] && xs[0] != xs[4] && xs[0] != xs[5];
    assert xs[1] != xs[2] && xs[1] != xs[3] && xs[1] != xs[4] && xs[1] != xs[5];
    assert xs[2] != xs[3] && xs[2] != xs[4] && xs[2] != xs[5] && xs[3] != xs[4] && xs[3] != xs[5];
    assert xs[4] != xs[5];
  }

  // ---- appending

  ghost function Appended(l: Layout, p: Priority, node: Node): Layout {
    l.(nodes := l.nodes.With(p, l.nodes.At(p) + [node]))
  }

  lemma {:induction false} AppendedWithin(l: Layout, repr: set<Node>, p: Priority, node: Node)
    requires Within(l, repr)
    ensures Within(Appended(l, p, node), repr + {node})
  {
    forall q: Priority
      ensures l.heads.At(q) in repr + {node} && AllIn(Appended(l, p, node).nodes.At(q), repr + {node})
    {
      AtWith(l.nodes, p, l.nodes.At(p) + [node], q);
      assert AllIn(l.nodes.At(q), repr);
    }
  }

  lemma {:induction false} AppendedSeparate(l: Layout, repr: set<Node>, p: Priority, node: Node)
    requires Within(l, repr) && Separate(l) && node !in repr
    ensures Separate(Appended(l, p, node))
  {
    var m := Appended(l, p, node);
    forall q: Priority, r: Priority | q != r
      ensures Disjoint(m.heads.At(q), m.nodes.At(q), m.heads.At(r), m.nodes.At(r))
    {
      AtWith(l.nodes, p, l.nodes.At(p) + [node], q);
      AtWith(l.nodes, p, l.nodes.At(p) + [node], r);
      assert AllIn(l.nodes.At(q), repr) && AllIn(l.nodes.At(r), repr);
      assert Disjoint(l.heads.At(q), l.nodes.At(q), l.heads.At(r), l.nodes.At(r));
    }
    forall q: Priority
      ensures m.heads.At(q) !in m.nodes.At(q) && Disjoint(m.heads.At(q), m.nodes.At(q), m.events, m.mine)
    {
      AtWith(l.nodes, p, l.nodes.At(p) + [node], q);
      assert AllIn(l.nodes.At(q), repr);
      assert Disjoint(l.heads.At(q), l.nodes.At(q), l.events, l.mine);
    }
  }

  lemma {:induction false} CarriesMore(owner: map<Node, Item>, xs: seq<Node>, its: seq<Item>, node: Node, it: Item)
    requires Carries(owner, xs, its) && node !in xs
    ensures Carries(owner[node := it], xs, its) && Carries(owner[node := it], xs + [node], its + [it])
  {
  }

  lemma {:induction false} AppendedContents(l: Layout, owner: map<Node, Item>, queues: Lanes<seq<Item>>,
                                            local: seq<Item>, repr: set<Node>, p: Priority, node: Node, it: Item)
    requires Within(l, repr) && node !in repr && Contents(l, owner, queues, local)
    ensures Contents(Appended(l, p, node), owner[node := it], queues.With(p, queues.At(p) + [it]), local)
  {
    var m := Appended(l, p, node);
    CarriesMore(owner, l.mine, local, node, it);
    forall q: Priority
      ensures Carries(owner[node := it], m.nodes.At(q), queues.With(p, queues.At(p) + [it]).At(q))
    {
      AtWith(l.nodes, p, l.nodes.At(p) + [node], q);
      AtWith(queues, p, queues.At(p) + [it], q);
      assert AllIn(l.nodes.At(q), repr);
      CarriesMore(owner, l.nodes.At(q), queues.At(q), node, it);
    }
  }

  // ---- deleting

  lemma {:induction false} PoppedLayout(l: Layout, repr: set<Node>)
    requires Within(l, repr) && Separate(l) && l.mine != [] && Distinct(l.mine) && l.events !in l.mine
    ensures Within(l.(mine := l.mine[1..]), repr - {l.mine[0]}) && Separate(l.(mine := l.mine[1..]))
  {
    var x := l.mine[0];
    assert x in l.mine;
    forall p: Priority
      ensures l.heads.At(p) != x && x !in l.nodes.At(p)
      ensures Disjoint(l.heads.At(p), l.nodes.At(p), l.events, l.mine[1..])
    {
      assert Disjoint(l.heads.At(p), l.nodes.At(p), l.events, l.mine);
    }
  }

  // ---- splicing

  /** The queue of `p` is emptied and the private list is `zs`. */
  ghost function Spliced(l: Layout, p: Priority, zs: seq<Node>): Layout {
    l.(nodes := l.nodes.With(p, []), mine := zs)
  }

  ghost predicate Joins(l: Layout, p: Priority, zs: seq<Node>) {
    forall z :: z in zs ==> z in l.nodes.At(p) || z in l.mine
  }

  lemma {:induction false} SplicedWithin(l: Layout, repr: set<Node>, p: Priority, zs: seq<Node>)
    requires Within(l, repr) && Joins(l, p, zs)
    ensures Within(Spliced(l, p, zs), repr)
  {
    assert AllIn(l.nodes.At(p), repr);
    forall q: Priority
      ensures l.heads.At(q) in repr && AllIn(Spliced(l, p, zs).nodes.At(q), repr)
    {
      AtWith(l.nodes, p, [], q);
    }
  }

  lemma {:induction false} SplicedSeparate(l: Layout, p: Priority, zs: seq<Node>)
    requires Separate(l) && Joins(l, p, zs)
    ensures Separate(Spliced(l, p, zs))
  {
    var m := Spliced(l, p, zs);
    forall q: Priority, r: Priority | q != r
      ensures Disjoint(m.heads.At(q), m.nodes.At(q), m.heads.At(r), m.nodes.At(r))
    {
      AtWith(l.nodes, p, [], q);
      AtWith(l.nodes, p, [], r);
      assert Disjoint(l.heads.At(q), l.nodes.At(q), l.heads.At(r), l.nodes.At(r));
    }
    forall q: Priority
      ensures m.heads.At(q) !in m.nodes.At(q) && Disjoint(m.heads.At(q), m.nodes.At(q), m.events, m.mine)
    {
      AtWith(l.nodes, p, [], q);
      assert Disjoint(l.heads.At(q), l.nodes.At(q), l.events, l.mine);
      assert Disjoint(l.heads.At(p), l.nodes.At(p), l.events, l.mine);
      if q != p {
        assert Disjoint(l.heads.At(q), l.nodes.At(q), l.heads.At(p), l.nodes.At(p));
      }
      assert forall z :: z in zs ==> z != l.heads.At(q);
    }
  }

  lemma {:induction false} SplicedContents(l: Layout, owner: map<Node, Item>, queues: Lanes<seq<Item>>,
                                           local: seq<Item>, p: Priority, zs: seq<Node>, its: seq<Item>)
    requires Contents(l, owner, queues, local) && Carries(owner, zs, its)
    ensures Contents(Spliced(l, p, zs), owner, queues.With(p, []), its)
  {
    forall q: Priority
      ensures Carries(owner, Spliced(l, p, zs).nodes.At(q), queues.With(p, []).At(q))
    {
      AtWith(l.nodes, p, [], q);
      AtWith(queues, p, [], q);
    }
  }

  lemma {:induction false} CarriesConcat(owner: map<Node, Item>, xs: seq<Node>, its: seq<Item>, ys: seq<Node>, jts: seq<Item>)
    requires Carries(owner, xs, its) && Carries(owner, ys, jts)
    ensures Carries(owner, xs + ys, its + jts)
  {
  }

  // ---- the lists

  method NewHead() returns (h: Node)
    ensures fresh(h) && Ring(h, [])
  {
    h := new Node();
    InitListHead(h);
  }

  function AllHeads(h: Lanes<Node>, events: Node): set<Node> {
    {h.crit, h.emrg, h.high, h.norm, h.idle, events}
  }

  method NewHeads() returns (h: Lanes<Node>, events: Node)
    ensures fresh(AllHeads(h, events))
    ensures Ring(events, []) && forall p: Priority :: Ring(h.At(p), [])
    ensures var l := Layout(h, Lanes([], [], [], [], []), events, []);
            Within(l, AllHeads(h, events)) && Separate(l) && Contents(l, map[], Lanes([], [], [], [], []), [])
  {
    var a := NewHead();
    var b := NewHead();
    var c := NewHead();
    var d := NewHead();
    var e := NewHead();
    events := NewHead();
    StartLayout(a, b, c, d, e, events);
    h := Lanes(a, b, c, d, e);
  }

  /** A stage splices its queue after a test that it is not empty. */
  method SpliceIfAny(list: Node, head: Node, ghost xs: seq<Node>, ghost ys: seq<Node>)
    requires Ring(list, xs) && Ring(head, ys) && Disjoint(list, xs, head, ys)
    modifies list, list.next, list.prev, head, head.next
    ensures Ring(head, xs + ys) && Ring(list, [])
  {
    var empty := ListEmpty(list, xs);
    if !empty {
      ListSpliceInit(list, head, xs, ys);
    } else {
      assert xs + ys == ys;
    }
  }

  method SpliceTailIfAny(list: Node, head: Node, ghost xs: seq<Node>, ghost ys: seq<Node>)
    requires Ring(list, xs) && Ring(head, ys) && Disjoint(list, xs, head, ys)
    modifies list, list.next, list.prev, head, head.prev
    ensures Ring(head, ys + xs) && Ring(list, [])
  {
    var empty := ListEmpty(list, xs);
    if !empty {
      ListSpliceTailInit(list, head, xs, ys);
    } else {
      assert ys + xs == ys;
    }
  }

  class Lists {
    const heads: Lanes<Node>               // wk_crit_events ... wk_idle_events
    const events: Node                     // the private list of worker_routine
    var owner: map<Node, Item>             // the event an ev_node is part of
    ghost var nodes: Lanes<seq<Node>>
    ghost var mine: seq<Node>
    ghost var queues: Lanes<seq<Item>>     // the events in the queues
    ghost var local: seq<Item>             // and in the private list
    ghost var repr: set<Node>

    ghost function Where(): Layout
      reads this
    {
      Layout(heads, nodes, events, mine)
    }

    ghost predicate Rings()
      requires Within(Where(), repr)
      reads this, repr
    {
      && Ring(events, mine)
      && (forall p: Priority :: Ring(heads.At(p), nodes.At(p)))
    }

    ghost predicate Valid()
      reads this, repr
    {
      Within(Where(), repr) && Separate(Where()) && Rings() && Contents(Where(), owner, queues, local)
    }

    constructor ()
      ensures Valid() && fresh(repr)
      ensures queues == Lanes([], [], [], [], []) && local == []
    {
      var h, e := NewHeads();
      heads, events := h, e;
      owner, nodes, mine := map[], Lanes([], [], [], [], []), [];
      queues, local := Lanes([], [], [], [], []), [];
      repr := AllHeads(h, e);
    }

    /** `list_add_tail` of an event whose node is in no list. */
    method Append(p: Priority, it: Item, node: Node)
      requires Valid() && node !in repr
      modifies this, repr, node
      ensures Valid() && repr == old(repr) + {node}
      ensures queues == old(queues).With(p, old(queues).At(p) + [it]) && local == old(local)
    {
      AddTail(p, node);
      ghost var was := owner;
      owner := owner[node := it];
      Enlist(p, node, it, was);
    }

    /** Bookkeeping after the append. */
    ghost method Enlist(p: Priority, node: Node, it: Item, was: map<Node, Item>)
      requires Within(Where(), repr) && Separate(Where())
      requires Contents(Where(), was, queues, local) && owner == was[node := it]
      requires node !in repr && Ring(events, mine)
      requires forall q: Priority :: Ring(heads.At(q), nodes.With(p, nodes.At(p) + [node]).At(q))
      modifies this`nodes, this`queues, this`repr
      ensures Valid() && repr == old(repr) + {node}
      ensures queues == old(queues).With(p, old(queues).At(p) + [it])
    {
      AppendedWithin(Where(), repr, p, node);
      AppendedSeparate(Where(), repr, p, node);
      AppendedContents(Where(), was, queues, local, repr, p, node, it);
      nodes, queues, repr :=
        nodes.With(p, nodes.At(p) + [node]), queues.With(p, queues.At(p) + [it]), repr + {node};
      assert Rings();
    }

    /** The heap part: the other rings are left alone. */
    method AddTail(p: Priority, node: Node)
      requires Valid() && node !in repr
      modifies repr, node
      ensures Ring(events, mine)
      ensures forall q: Priority :: Ring(heads.At(q), nodes.With(p, nodes.At(p) + [node]).At(q))
    {
      ghost var head, xs := heads.At(p), nodes.At(p);
      assert AllIn(xs, repr);
      assert head.prev == head || head.prev in xs;
      ListAddTail(node, heads.At(p), xs);
      forall q: Priority
        ensures Ring(heads.At(q), nodes.With(p, xs + [node]).At(q))
      {
        AtWith(nodes, p, xs + [node], q);
      }
    }

    /** The splice of a stage: CRIT, EMRG and HIGH batches in front, NORM and IDLE behind. */
    method TakeOver(p: Priority)
      requires Valid()
      modifies this, repr
      ensures Valid() && repr == old(repr)
      ensures queues == old(queues).With(p, [])
      ensures local == if p == Norm || p == Idle then old(local) + old(queues).At(p)
                       else old(queues).At(p) + old(local)
    {
      if p == Norm || p == Idle {
        SpliceBack(p);
        CarriesConcat(owner, mine, local, nodes.At(p), queues.At(p));
        Settle(p, mine + nodes.At(p), local + queues.At(p));
      } else {
        SpliceFront(p);
        CarriesConcat(owner, nodes.At(p), queues.At(p), mine, local);
        Settle(p, nodes.At(p) + mine, queues.At(p) + local);
      }
    }

    /** Bookkeeping after a splice. */
    ghost method Settle(p: Priority, zs: seq<Node>, its: seq<Item>)
      requires Within(Where(), repr) && Separate(Where()) && Contents(Where(), owner, queues, local)
      requires Joins(Where(), p, zs) && Carries(owner, zs, its)
      requires AllIn(zs, repr) && Ring(events, zs)
      requires forall q: Priority :: Ring(heads.At(q), nodes.With(p, []).At(q))
      modifies this
      ensures Valid() && repr == old(repr) && local == its && queues == old(queues).With(p, [])
    {
      SplicedWithin(Where(), repr, p, zs);
      SplicedSeparate(Where(), p, zs);
      SplicedContents(Where(), owner, queues, local, p, zs, its);
      nodes, mine := nodes.With(p, []), zs;
      queues, local := queues.With(p, []), its;
    }

    method SpliceFront(p: Priority)
      requires Valid()
      modifies repr
      ensures Ring(events, nodes.At(p) + mine) && AllIn(nodes.At(p) + mine, repr)
      ensures forall q: Priority :: Ring(heads.At(q), nodes.With(p, []).At(q))
    {
      ghost var head, xs := heads.At(p), nodes.At(p);
      assert AllIn(xs, repr);
      assert (head.next == head || head.next in xs) && (head.prev == head || head.prev in xs);
      assert events.next == events || events.next in mine;
      SpliceIfAny(heads.At(p), events, xs, mine);
      forall q: Priority
        ensures Ring(heads.At(q), nodes.With(p, []).At(q))
      {
        AtWith(nodes, p, [], q);
      }
    }

    method SpliceBack(p: Priority)
      requires Valid()
      modifies repr
      ensures Ring(events, mine + nodes.At(p)) && AllIn(mine + nodes.At(p), repr)
      ensures forall q: Priority :: Ring(heads.At(q), nodes.With(p, []).At(q))
    {
      ghost var head, xs := heads.At(p), nodes.At(p);
      assert AllIn(xs, repr);
      assert (head.next == head || head.next in xs) && (head.prev == head || head.prev in xs);
      assert events.prev == events || events.prev in mine;
      SpliceTailIfAny(heads.At(p), events, xs, mine);
      forall q: Priority
        ensures Ring(heads.At(q), nodes.With(p, []).At(q))
      {
        AtWith(nodes, p, [], q);
      }
    }

    /** The head of the loop: is there an event, and which? */
    method First() returns (it: Option<Item>)
      requires Valid()
      ensures it == if local == [] then None else Some(local[0])
    {
      var empty := ListEmpty(events, mine);
      if empty {
        it := None;
      } else {
        it := Some(owner[events.next]);
      }
    }

    /** `list_del` of the first event; its node is in no list afterwards. */
    method Pop()
      requires Valid() && local != []
      modifies this, repr
      ensures Valid() && repr == old(repr) - {old(mine)[0]}
      ensures local == old(local)[1..] && queues == old(queues)
    {
      Unlink();
      PoppedLayout(Where(), repr);
      repr := repr - {mine[0]};
      mine, local := mine[1..], local[1..];
    }

    method Unlink()
      requires Valid() && mine != []
      modifies repr
      ensures Ring(events, mine[1..])
      ensures forall q: Priority :: Ring(heads.At(q), nodes.At(q))
    {
      Neighbours(events, mine, 0);
      assert mine[0] in mine;
      ListDel(events.next, events, mine, 0);
      assert Without(mine, 0) == mine[1..];
    }
  }
}
