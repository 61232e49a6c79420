/**
 The intrusive circular doubly linked list of `include/list.h`, on the heap. A head and its entries
 are nodes of one kind; `Ring(h, xs)` says that the list with head `h` holds the entries `xs`. Each
 operation rewires `next` and `prev` in place and is proved against the sequence; its `modifies`
 clause names the few nodes it may write, so every other node keeps its links.
 */
module LinkedList {

  /** `struct list_head`. Links that are poisoned or were never set are null. */
  class Node {
    var next: Node?
    var prev: Node?

    constructor ()
      ensures next == null && prev == null
    {
      next, prev := null, null;
    }
  }

  predicate Distinct(xs: seq<Node>) {
    forall i, j :: 0 <= i < j < |xs| ==> xs[i] != xs[j]
  }

  predicate Apart(xs: seq<Node>, ys: seq<Node>) {
    forall x :: x in xs ==> x !in ys
  }

  /** Two lists that share no node. */
  predicate Disjoint(g: Node, xs: seq<Node>, h: Node, ys: seq<Node>) {
    g != h && g !in ys && h !in xs && Apart(xs, ys)
  }

  /** The node after position `i`, and before it, when the head closes the circle. */
  function After(h: Node, xs: seq<Node>, i: int): Node
    requires -1 <= i < |xs|
  {
    if i + 1 < |xs| then xs[i + 1] else h
  }

  function Before(h: Node, xs: seq<Node>, i: int): Node
    requires 0 <= i <= |xs|
  {
    if i > 0 then xs[i - 1] else h
  }

  ghost predicate Ring(h: Node, xs: seq<Node>)
    reads h, xs
  {
    && h !in xs && Distinct(xs)
    && h.next == After(h, xs, -1)
    && h.prev == Before(h, xs, |xs|)
    && (forall i {:trigger xs[i].next} :: 0 <= i < |xs| ==> xs[i].next == After(h, xs, i))
    && (forall i {:trigger xs[i].prev} :: 0 <= i < |xs| ==> xs[i].prev == Before(h, xs, i))
  }

  method InitListHead(list: Node)
    modifies list
    ensures Ring(list, [])
  {
    list.next := list;
    list.prev := list;
  }

  method ListEmpty(head: Node, ghost xs: seq<Node>) returns (b: bool)
    requires Ring(head, xs)
    ensures b <==> xs == []
  {
    b := head.next == head;
    assert xs != [] ==> xs[0] in xs;
  }

  method ListIsSingular(head: Node, ghost xs: seq<Node>) returns (b: bool)
    requires Ring(head, xs)
    ensures b <==> |xs| == 1
  {
    b := head.next != head && head.next == head.prev;
    assert xs != [] ==> xs[0] in xs;
  }

  // ---- adding

  /** `__list_add`. In an empty list `prev` and `next` are the head. */
  method ListAddBetween(node: Node, prev: Node, next: Node)
    requires node != prev && node != next
    modifies node, prev, next
    ensures next.prev == node && prev.next == node && node.next == next && node.prev == prev
    ensures prev != next ==> prev.prev == old(prev.prev) && next.next == old(next.next)
  {
    next.prev := node;
    node.next := next;
    node.prev := prev;
    prev.next := node;
  }

  /** `list_add`: a new first entry. */
  method ListAdd(node: Node, head: Node, ghost xs: seq<Node>)
    requires Ring(head, xs) && node != head && node !in xs
    modifies node, head, head.next
    ensures Ring(head, [node] + xs)
  {
    ListAddBetween(node, head, head.next);
    ghost var ys := [node] + xs;
    assert forall i :: 0 < i < |ys| ==> ys[i] == xs[i - 1];
  }

  /** `list_add_tail`: a new last entry. */
  method ListAddTail(node: Node, head: Node, ghost xs: seq<Node>)
    requires Ring(head, xs) && node != head && node !in xs
    modifies node, head, head.prev
    ensures Ring(head, xs + [node])
  {
    ListAddBetween(node, head.prev, head);
  }

  /** `hset_add` as written: the bucket head is added to the list of the new entry. Whatever the
      bucket held, it is left with the new entry alone. */
  method ListAddTailSwapped(head: Node, node: Node, ghost xs: seq<Node>)
    requires Ring(head, xs) && node != head && node !in xs
    modifies node, head
    ensures Ring(head, [node])
  {
    InitListHead(node);
    ListAddTail(head, node, []);
    assert [] + [head] == [head];
  }

  // ---- deleting

  ghost function Without(xs: seq<Node>, k: nat): (ys: seq<Node>)
    requires k < |xs|
    ensures |ys| == |xs| - 1
    ensures forall i :: 0 <= i < |ys| ==> ys[i] == xs[if i < k then i else i + 1]
  {
    xs[..k] + xs[k + 1..]
  }

  lemma {:induction false} WithoutParts(xs: seq<Node>, k: nat)
    requires Distinct(xs) && k < |xs|
    ensures Distinct(Without(xs, k)) && xs[k] !in Without(xs, k)
    ensures forall x :: x in Without(xs, k) ==> x in xs
  {
  }

  /** The neighbours of an entry are the head or other entries. */
  lemma {:induction false} Neighbours(head: Node, xs: seq<Node>, k: nat)
    requires Ring(head, xs) && k < |xs|
    ensures xs[k].prev == Before(head, xs, k) && xs[k].next == After(head, xs, k)
    ensures xs[k].prev == head || xs[k].prev in xs
    ensures xs[k].next == head || xs[k].next in xs
    ensures xs[k].prev != xs[k] && xs[k].next != xs[k]
  {
    assert xs[k] in xs;
  }

  /** `__list_del_entry`. */
  method ListUnlink(entry: Node, ghost head: Node, ghost xs: seq<Node>, ghost k: nat)
    requires Ring(head, xs) && k < |xs| && xs[k] == entry
    modifies entry.prev`next, entry.next`prev
    ensures Ring(head, Without(xs, k))
  {
    Neighbours(head, xs, k);
    Bridge(entry.prev, entry.next);
    forall i | 0 <= i < |xs| && i != k - 1
      ensures xs[i].next == After(head, xs, i)
    {
      assert xs[i] in xs && xs[i] != Before(head, xs, k);
    }
    forall i | 0 <= i < |xs| && i != k + 1
      ensures xs[i].prev == Before(head, xs, i)
    {
      assert xs[i] in xs && xs[i] != After(head, xs, k);
    }
    RingBridged(head, xs, k);
  }

  /** `__list_del`. */
  method Bridge(prev: Node, next: Node)
    modifies prev`next, next`prev
    ensures prev.next == next && next.prev == prev
  {
    next.prev := prev;
    prev.next := next;
  }

  lemma {:induction false} BridgedNext(head: Node, xs: seq<Node>, k: nat, i: nat)
    requires k < |xs| && i < |xs| - 1
    requires forall j {:trigger xs[j].next} :: 0 <= j < |xs| && j != k - 1 ==> xs[j].next == After(head, xs, j)
    requires k > 0 ==> xs[k - 1].next == After(head, xs, k)
    ensures Without(xs, k)[i].next == After(head, Without(xs, k), i)
  {
    assert Without(xs, k)[i] == xs[if i < k then i else i + 1];
  }

  lemma {:induction false} BridgedPrev(head: Node, xs: seq<Node>, k: nat, i: nat)
    requires k < |xs| && i < |xs| - 1
    requires forall j {:trigger xs[j].prev} :: 0 <= j < |xs| && j != k + 1 ==> xs[j].prev == Before(head, xs, j)
    requires k + 1 < |xs| ==> xs[k + 1].prev == Before(head, xs, k)
    ensures Without(xs, k)[i].prev == Before(head, Without(xs, k), i)
  {
    assert Without(xs, k)[i] == xs[if i < k then i else i + 1];
  }

  lemma {:induction false} BridgedHead(head: Node, xs: seq<Node>, k: nat)
    requires k < |xs|
    requires Before(head, xs, k).next == After(head, xs, k) && After(head, xs, k).prev == Before(head, xs, k)
    requires k > 0 ==> head.next == xs[0]
    requires k + 1 < |xs| ==> head.prev == xs[|xs| - 1]
    ensures head.next == After(head, Without(xs, k), -1)
    ensures head.prev == Before(head, Without(xs, k), |xs| - 1)
  {
    var ys := Without(xs, k);
    if |xs| > 1 {
      assert ys[0] == xs[if k == 0 then 1 else 0];
      assert ys[|xs| - 2] == xs[if k == |xs| - 1 then |xs| - 2 else |xs| - 1];
    }
  }

  lemma {:induction false} BridgedNexts(head: Node, xs: seq<Node>, k: nat)
    requires k < |xs|
    requires forall j {:trigger xs[j].next} :: 0 <= j < |xs| && j != k - 1 ==> xs[j].next == After(head, xs, j)
    requires k > 0 ==> xs[k - 1].next == After(head, xs, k)
    ensures forall i {:trigger Without(xs, k)[i].next} :: 0 <= i < |xs| - 1 ==>
              Without(xs, k)[i].next == After(head, Without(xs, k), i)
  {
    forall i | 0 <= i < |xs| - 1
      ensures Without(xs, k)[i].next == After(head, Without(xs, k), i)
    {
      BridgedNext(head, xs, k, i);
    }
  }

  lemma {:induction false} BridgedPrevs(head: Node, xs: seq<Node>, k: nat)
    requires k < |xs|
    requires forall j {:trigger xs[j].prev} :: 0 <= j < |xs| && j != k + 1 ==> xs[j].prev == Before(head, xs, j)
    requires k + 1 < |xs| ==> xs[k + 1].prev == Before(head, xs, k)
    ensures forall i {:trigger Without(xs, k)[i].prev} :: 0 <= i < |xs| - 1 ==>
              Without(xs, k)[i].prev == Before(head, Without(xs, k), i)
  {
    forall i | 0 <= i < |xs| - 1
      ensures Without(xs, k)[i].prev == Before(head, Without(xs, k), i)
    {
      BridgedPrev(head, xs, k, i);
    }
  }

  lemma {:induction false} RingBridged(head: Node, xs: seq<Node>, k: nat)
    requires k < |xs| && Distinct(xs) && head !in xs
    requires forall j {:trigger xs[j].next} :: 0 <= j < |xs| && j != k - 1 ==> xs[j].next == After(head, xs, j)
    requires forall j {:trigger xs[j].prev} :: 0 <= j < |xs| && j != k + 1 ==> xs[j].prev == Before(head, xs, j)
    requires Before(head, xs, k).next == After(head, xs, k) && After(head, xs, k).prev == Before(head, xs, k)
    requires k > 0 ==> head.next == xs[0]
    requires k + 1 < |xs| ==> head.prev == xs[|xs| - 1]
    ensures Ring(head, Without(xs, k))
  {
    WithoutParts(xs, k);
    BridgedHead(head, xs, k);
    assert head !in Without(xs, k);
    BridgedNexts(head, xs, k);
    BridgedPrevs(head, xs, k);
  }

  /** `list_del`, which poisons the links of the entry. */
  method ListDel(entry: Node, ghost head: Node, ghost xs: seq<Node>, ghost k: nat)
    requires Ring(head, xs) && k < |xs| && xs[k] == entry
    modifies entry, entry.prev, entry.next
    ensures Ring(head, Without(xs, k)) && entry.next == null && entry.prev == null
  {
    ListUnlink(entry, head, xs, k);
    entry.next, entry.prev := null, null;
  }

  method ListDelInit(entry: Node, ghost head: Node, ghost xs: seq<Node>, ghost k: nat)
    requires Ring(head, xs) && k < |xs| && xs[k] == entry
    modifies entry, entry.prev, entry.next
    ensures Ring(head, Without(xs, k)) && Ring(entry, [])
  {
    ListUnlink(entry, head, xs, k);
    InitListHead(entry);
  }

  // ---- moving

  /** Taking an entry out of one list leaves the other list alone. */
  method UnlinkApart(entry: Node, ghost from: Node, ghost xs: seq<Node>, ghost k: nat, ghost head: Node, ghost ys: seq<Node>)
    requires Ring(from, xs) && k < |xs| && xs[k] == entry
    requires Ring(head, ys) && Disjoint(from, xs, head, ys)
    modifies entry.prev, entry.next
    ensures Ring(from, Without(xs, k)) && Ring(head, ys)
    ensures Disjoint(from, Without(xs, k), head, ys) && entry !in Without(xs, k) && entry != from
  {
    Neighbours(from, xs, k);
    WithoutParts(xs, k);
    ListUnlink(entry, from, xs, k);
  }

  /** `list_move` from one list to the front of another. */
  method ListMove(entry: Node, head: Node, ghost from: Node, ghost xs: seq<Node>, ghost k: nat, ghost ys: seq<Node>)
    requires Ring(from, xs) && k < |xs| && xs[k] == entry
    requires Ring(head, ys) && Disjoint(from, xs, head, ys)
    modifies entry, entry.prev, entry.next, head, head.next
    ensures Ring(from, Without(xs, k)) && Ring(head, [entry] + ys)
  {
    UnlinkApart(entry, from, xs, k, head, ys);
    assert head.next == head || head.next in ys;
    ListAdd(entry, head, ys);
  }

  /** `list_move_tail` from one list to the back of another. */
  method ListMoveTail(entry: Node, head: Node, ghost from: Node, ghost xs: seq<Node>, ghost k: nat, ghost ys: seq<Node>)
    requires Ring(from, xs) && k < |xs| && xs[k] == entry
    requires Ring(head, ys) && Disjoint(from, xs, head, ys)
    modifies entry, entry.prev, entry.next, head, head.prev
    ensures Ring(from, Without(xs, k)) && Ring(head, ys + [entry])
  {
    UnlinkApart(entry, from, xs, k, head, ys);
    assert head.prev == head || head.prev in ys;
    ListAddTail(entry, head, ys);
  }

  /** `list_move` within one list. */
  method ListMoveWithin(entry: Node, head: Node, ghost xs: seq<Node>, ghost k: nat)
    requires Ring(head, xs) && k < |xs| && xs[k] == entry
    modifies head, xs
    ensures Ring(head, [entry] + Without(xs, k))
  {
    UnlinkForMove(entry, head, xs, k);
    ListAdd(entry, head, Without(xs, k));
  }

  /** `list_move_tail` within one list. */
  method ListMoveTailWithin(entry: Node, head: Node, ghost xs: seq<Node>, ghost k: nat)
    requires Ring(head, xs) && k < |xs| && xs[k] == entry
    modifies head, xs
    ensures Ring(head, Without(xs, k) + [entry])
  {
    UnlinkForMove(entry, head, xs, k);
    ListAddTail(entry, head, Without(xs, k));
  }

  method UnlinkForMove(entry: Node, ghost head: Node, ghost xs: seq<Node>, ghost k: nat)
    requires Ring(head, xs) && k < |xs| && xs[k] == entry
    modifies head, xs
    ensures Ring(head, Without(xs, k)) && entry != head && entry !in Without(xs, k)
    ensures forall x :: x in Without(xs, k) ==> x in xs
    ensures head.next in Without(xs, k) + [head] && head.prev in Without(xs, k) + [head]
  {
    Neighbours(head, xs, k);
    WithoutParts(xs, k);
    ListUnlink(entry, head, xs, k);
  }

  /** `list_rotate_left`. */
  method ListRotateLeft(head: Node, ghost xs: seq<Node>)
    requires Ring(head, xs)
    modifies head, xs
    ensures Ring(head, if xs == [] then [] else xs[1..] + [xs[0]])
  {
    var empty := ListEmpty(head, xs);
    if !empty {
      var first := head.next;
      ListUnlink(first, head, xs, 0);
      assert Without(xs, 0) == xs[1..];
      ListAddTail(first, head, xs[1..]);
    }
  }

  // ---- replacing

  /** `list_replace` of an entry. */
  method ListReplaceEntry(o: Node, n: Node, ghost head: Node, ghost xs: seq<Node>, ghost k: nat)
    requires Ring(head, xs) && k < |xs| && xs[k] == o && n != head && n !in xs
    modifies n, o.next`prev, o.prev`next
    ensures Ring(head, xs[k := n])
  {
    Neighbours(head, xs, k);
    Relink(n, o.prev, o.next);
    forall i | 0 <= i < |xs| && i != k && i != k - 1
      ensures xs[i].next == After(head, xs, i)
    {
      assert xs[i] in xs && xs[i] != Before(head, xs, k);
    }
    forall i | 0 <= i < |xs| && i != k && i != k + 1
      ensures xs[i].prev == Before(head, xs, i)
    {
      assert xs[i] in xs && xs[i] != After(head, xs, k);
    }
    RingReplaced(n, head, xs, k);
  }

  /** The four writes of `list_replace`. */
  method Relink(n: Node, prev: Node, next: Node)
    requires n != prev && n != next
    modifies n, next`prev, prev`next
    ensures n.next == next && next.prev == n && n.prev == prev && prev.next == n
  {
    n.next := next;
    n.next.prev := n;
    n.prev := prev;
    n.prev.next := n;
  }

  lemma {:induction false} RingReplaced(n: Node, head: Node, xs: seq<Node>, k: nat)
    requires k < |xs| && Distinct(xs) && head !in xs && n !in xs && n != head
    requires forall i {:trigger xs[i].next} :: 0 <= i < |xs| && i != k && i != k - 1 ==> xs[i].next == After(head, xs, i)
    requires forall i {:trigger xs[i].prev} :: 0 <= i < |xs| && i != k && i != k + 1 ==> xs[i].prev == Before(head, xs, i)
    requires n.next == After(head, xs, k) && After(head, xs, k).prev == n
    requires n.prev == Before(head, xs, k) && Before(head, xs, k).next == n
    requires k > 0 ==> head.next == xs[0]
    requires k + 1 < |xs| ==> head.prev == xs[|xs| - 1]
    ensures Ring(head, xs[k := n])
  {
    var zs := xs[k := n];
    forall i | 0 <= i < |zs|
      ensures zs[i].next == After(head, zs, i) && zs[i].prev == Before(head, zs, i) && zs[i] != head
    {
      assert i != k ==> zs[i] == xs[i] && xs[i] in xs;
    }
    assert Distinct(zs);
  }

  /** `list_replace_init` of a head: the entries now hang on the new head; an empty list gives an
      empty list. */
  method ListReplaceInit(o: Node, n: Node, ghost xs: seq<Node>)
    requires Ring(o, xs) && n != o && n !in xs
    modifies n, o, o.next, o.prev
    ensures Ring(n, xs) && Ring(o, [])
  {
    assert xs != [] ==> xs[0] in xs && xs[|xs| - 1] in xs;
    n.next := o.next;
    n.next.prev := n;
    n.prev := o.prev;
    n.prev.next := n;
    InitListHead(o);
  }

  // ---- splicing

  /** `xs` inserted into `ys` at position `k`. */
  ghost function Insert(ys: seq<Node>, k: nat, xs: seq<Node>): (zs: seq<Node>)
    requires k <= |ys|
    ensures |zs| == |ys| + |xs|
    ensures forall i :: 0 <= i < |zs| ==>
              zs[i] == if i < k then ys[i] else if i < k + |xs| then xs[i - k] else ys[i - |xs|]
  {
    ys[..k] + xs + ys[k..]
  }

  lemma {:induction false} InsertParts(ys: seq<Node>, k: nat, xs: seq<Node>)
    requires k <= |ys| && Distinct(xs) && Distinct(ys) && Apart(xs, ys)
    ensures Distinct(Insert(ys, k, xs))
    ensures forall z :: z in Insert(ys, k, xs) ==> z in xs || z in ys
  {
    var zs := Insert(ys, k, xs);
    forall i, j | 0 <= i < j < |zs|
      ensures zs[i] != zs[j]
    {
      assert zs[i] in (if i < k || i >= k + |xs| then ys else xs);
      assert zs[j] in (if j < k || j >= k + |xs| then ys else xs);
    }
  }

  /** The links after a splice at position `k` make one ring. */
  lemma {:induction false} RingInserted(head: Node, xs: seq<Node>, ys: seq<Node>, k: nat)
    requires xs != [] && k <= |ys| && Distinct(xs) && Distinct(ys) && Apart(xs, ys)
    requires head !in xs && head !in ys
    requires forall j {:trigger ys[j].next} :: 0 <= j < |ys| && j != k - 1 ==> ys[j].next == After(head, ys, j)
    requires forall j {:trigger ys[j].prev} :: 0 <= j < |ys| && j != k ==> ys[j].prev == Before(head, ys, j)
    requires forall j {:trigger xs[j].next} :: 0 <= j < |xs| - 1 ==> xs[j].next == xs[j + 1]
    requires forall j {:trigger xs[j].prev} :: 0 < j < |xs| ==> xs[j].prev == xs[j - 1]
    requires xs[0].prev == Before(head, ys, k) && Before(head, ys, k).next == xs[0]
    requires xs[|xs| - 1].next == After(head, ys, k - 1) && After(head, ys, k - 1).prev == xs[|xs| - 1]
    requires k > 0 ==> head.next == After(head, ys, -1)
    requires k < |ys| ==> head.prev == Before(head, ys, |ys|)
    ensures Ring(head, Insert(ys, k, xs))
  {
    InsertParts(ys, k, xs);
    InsertedHead(head, xs, ys, k);
    assert head !in Insert(ys, k, xs);
    forall i | 0 <= i < |xs| + |ys|
      ensures Insert(ys, k, xs)[i].next == After(head, Insert(ys, k, xs), i)
    {
      InsertedNext(head, xs, ys, k, i);
    }
    forall i | 0 <= i < |xs| + |ys|
      ensures Insert(ys, k, xs)[i].prev == Before(head, Insert(ys, k, xs), i)
    {
      InsertedPrev(head, xs, ys, k, i);
    }
  }

  lemma {:induction false} InsertedHead(head: Node, xs: seq<Node>, ys: seq<Node>, k: nat)
    requires k <= |ys| && xs != []
    requires Before(head, ys, k).next == xs[0] && After(head, ys, k - 1).prev == xs[|xs| - 1]
    requires k > 0 ==> head.next == After(head, ys, -1)
    requires k < |ys| ==> head.prev == Before(head, ys, |ys|)
    ensures head.next == After(head, Insert(ys, k, xs), -1)
    ensures head.prev == Before(head, Insert(ys, k, xs), |xs| + |ys|)
  {
    var zs := Insert(ys, k, xs);
    assert zs[0] == if k > 0 then ys[0] else xs[0];
    assert zs[|zs| - 1] == if k < |ys| then ys[|ys| - 1] else xs[|xs| - 1];
  }

  lemma {:induction false} InsertedNext(head: Node, xs: seq<Node>, ys: seq<Node>, k: nat, i: nat)
    requires k <= |ys| && xs != [] && i < |xs| + |ys|
    requires forall j {:trigger ys[j].next} :: 0 <= j < |ys| && j != k - 1 ==> ys[j].next == After(head, ys, j)
    requires forall j {:trigger xs[j].next} :: 0 <= j < |xs| - 1 ==> xs[j].next == xs[j + 1]
    requires k > 0 ==> ys[k - 1].next == xs[0]
    requires xs[|xs| - 1].next == After(head, ys, k - 1)
    ensures Insert(ys, k, xs)[i].next == After(head, Insert(ys, k, xs), i)
  {
  }

  lemma {:induction false} InsertedPrev(head: Node, xs: seq<Node>, ys: seq<Node>, k: nat, i: nat)
    requires k <= |ys| && xs != [] && i < |xs| + |ys|
    requires forall j {:trigger ys[j].prev} :: 0 <= j < |ys| && j != k ==> ys[j].prev == Before(head, ys, j)
    requires forall j {:trigger xs[j].prev} :: 0 < j < |xs| ==> xs[j].prev == xs[j - 1]
    requires k < |ys| ==> ys[k].prev == xs[|xs| - 1]
    requires xs[0].prev == Before(head, ys, k)
    ensures Insert(ys, k, xs)[i].prev == Before(head, Insert(ys, k, xs), i)
  {
  }

  /** `__list_splice`, for a list that is not empty. */
  method ListSpliceBetween(list: Node, prev: Node, next: Node, ghost head: Node, ghost xs: seq<Node>,
                           ghost ys: seq<Node>, ghost k: nat)
    requires Ring(list, xs) && Ring(head, ys) && Disjoint(list, xs, head, ys)
    requires xs != [] && k <= |ys| && prev == Before(head, ys, k) && next == After(head, ys, k - 1)
    modifies list.next, list.prev, prev, next
    ensures Ring(head, Insert(ys, k, xs))
  {
    var first, last := list.next, list.prev;
    assert first == xs[0] && last == xs[|xs| - 1] && first in xs && last in xs;
    assert (prev == head || prev in ys) && (next == head || next in ys);
    RelinkForSplice(first, last, prev, next);
    forall j | 0 <= j < |ys| && j != k - 1
      ensures ys[j].next == After(head, ys, j)
    {
      assert ys[j] in ys && ys[j] != prev && ys[j] != last;
    }
    forall j | 0 <= j < |ys| && j != k
      ensures ys[j].prev == Before(head, ys, j)
    {
      assert ys[j] in ys && ys[j] != next && ys[j] != first;
    }
    forall j | 0 <= j < |xs| - 1
      ensures xs[j].next == xs[j + 1]
    {
      assert xs[j] in xs && xs[j] != prev && xs[j] != last;
    }
    forall j | 0 < j < |xs|
      ensures xs[j].prev == xs[j - 1]
    {
      assert xs[j] in xs && xs[j] != next && xs[j] != first;
    }
    RingInserted(head, xs, ys, k);
  }

  /** The four writes of `__list_splice`, and what they leave alone. */
  method RelinkForSplice(first: Node, last: Node, prev: Node, next: Node)
    requires first != prev && first != next && last != prev && last != next
    modifies first`prev, prev`next, last`next, next`prev
    ensures first.prev == prev && prev.next == first && last.next == next && next.prev == last
  {
    first.prev := prev;
    prev.next := first;
    last.next := next;
    next.prev := last;
  }

  /** Emptying a head outside a list leaves the list alone. */
  method InitApart(list: Node, ghost head: Node, ghost zs: seq<Node>)
    requires Ring(head, zs) && list != head && list !in zs
    modifies list
    ensures Ring(list, []) && Ring(head, zs)
  {
    InitListHead(list);
  }

  lemma {:induction false} InsertFront(xs: seq<Node>, ys: seq<Node>)
    ensures Insert(ys, 0, xs) == xs + ys
    ensures forall z :: z in xs + ys ==> z in xs || z in ys
  {
  }

  /** `list_splice`: the head `list` itself keeps its links. */
  method ListSplice(list: Node, head: Node, ghost xs: seq<Node>, ghost ys: seq<Node>)
    requires Ring(list, xs) && Ring(head, ys) && Disjoint(list, xs, head, ys)
    modifies head, head.next, list.next, list.prev
    ensures Ring(head, xs + ys) && list.next == old(list.next) && list.prev == old(list.prev)
  {
    var empty := ListEmpty(list, xs);
    if !empty {
      assert xs[0] in xs && xs[|xs| - 1] in xs;
      InsertFront(xs, ys);
      ListSpliceBetween(list, head, head.next, head, xs, ys, 0);
    } else {
      assert xs + ys == ys;
    }
  }

  /** `list_splice_tail`. */
  method ListSpliceTail(list: Node, head: Node, ghost xs: seq<Node>, ghost ys: seq<Node>)
    requires Ring(list, xs) && Ring(head, ys) && Disjoint(list, xs, head, ys)
    modifies head, head.prev, list.next, list.prev
    ensures Ring(head, ys + xs) && list.next == old(list.next) && list.prev == old(list.prev)
  {
    var empty := ListEmpty(list, xs);
    if !empty {
      assert xs[0] in xs && xs[|xs| - 1] in xs;
      assert Insert(ys, |ys|, xs) == ys + xs;
      ListSpliceBetween(list, head.prev, head, head, xs, ys, |ys|);
    } else {
      assert ys + xs == ys;
    }
  }

  /** `list_splice_init`: the entries of `list` go in front of those of `head`. */
  method ListSpliceInit(list: Node, head: Node, ghost xs: seq<Node>, ghost ys: seq<Node>)
    requires Ring(list, xs) && Ring(head, ys) && Disjoint(list, xs, head, ys)
    modifies list, list.next, list.prev, head, head.next
    ensures Ring(head, xs + ys) && Ring(list, [])
  {
    var empty := ListEmpty(list, xs);
    if !empty {
      InsertFront(xs, ys);
      ListSpliceBetween(list, head, head.next, head, xs, ys, 0);
      InitApart(list, head, xs + ys);
    } else {
      assert xs + ys == ys;
    }
  }

  /** `list_splice_tail_init`: the entries of `list` go behind those of `head`. */
  method ListSpliceTailInit(list: Node, head: Node, ghost xs: seq<Node>, ghost ys: seq<Node>)
    requires Ring(list, xs) && Ring(head, ys) && Disjoint(list, xs, head, ys)
    modifies list, list.next, list.prev, head, head.prev
    ensures Ring(head, ys + xs) && Ring(list, [])
  {
    var empty := ListEmpty(list, xs);
    if !empty {
      assert Insert(ys, |ys|, xs) == ys + xs;
      ListSpliceBetween(list, head.prev, head, head, xs, ys, |ys|);
      InitApart(list, head, ys + xs);
    } else {
      assert ys + xs == ys;
    }
  }

  // ---- cutting

  /** `list_cut_position` at entry `k - 1` (the head itself for `k == 0`): `list` gets the first `k`
      entries. On an empty `head` the call returns before it touches `list`. */
  method ListCutPosition(list: Node, head: Node, entry: Node, ghost ys: seq<Node>, ghost k: nat)
    requires Ring(head, ys) && list != head && list !in ys
    requires k <= |ys| && entry == Before(head, ys, k)
    modifies list, head, head.next, entry, entry.next
    ensures ys != [] ==> Ring(list, ys[..k])
    ensures ys == [] ==> list.next == old(list.next) && list.prev == old(list.prev)
    ensures Ring(head, ys[k..])
  {
    var empty := ListEmpty(head, ys);
    if empty {
      return;
    }
    var singular := ListIsSingular(head, ys);
    if singular && head.next != entry && head != entry {
      return;
    }
    assert k > 0 ==> entry in ys;
    if entry == head {
      InitListHead(list);
    } else {
      ListCut(list, head, entry, ys, k);
    }
  }

  /** `xs` linked in a row, whose last entry leads to `e`; what its first entry leads back to is open. */
  ghost predicate Row(xs: seq<Node>, e: Node)
    reads xs
  {
    && (forall i {:trigger xs[i].next} :: 0 <= i < |xs| ==> xs[i].next == After(e, xs, i))
    && (forall i {:trigger xs[i].prev} :: 0 < i < |xs| ==> xs[i].prev == xs[i - 1])
  }

  lemma {:induction false} FrontRow(head: Node, ys: seq<Node>, k: nat)
    requires Ring(head, ys) && 0 < k <= |ys|
    ensures Row(ys[..k], After(head, ys, k - 1))
  {
    var front := ys[..k];
    forall i | 0 <= i < k
      ensures front[i].next == After(After(head, ys, k - 1), front, i)
    {
      assert front[i] == ys[i];
    }
  }

  lemma {:induction false} BackRow(head: Node, ys: seq<Node>, k: nat)
    requires Ring(head, ys) && 0 < k <= |ys|
    ensures Row(ys[k..], head)
  {
    var back := ys[k..];
    forall i | 0 <= i < |back|
      ensures back[i].next == After(head, back, i)
    {
      assert back[i] == ys[k + i];
    }
    forall i | 0 < i < |back|
      ensures back[i].prev == back[i - 1]
    {
      assert back[i] == ys[k + i] && back[i - 1] == ys[k + i - 1];
    }
  }

  lemma {:induction false} HalvesOfRing(head: Node, ys: seq<Node>, k: nat)
    requires head !in ys && Distinct(ys) && 0 < k <= |ys|
    ensures Distinct(ys[..k]) && Distinct(ys[k..]) && Apart(ys[..k], ys[k..])
    ensures head !in ys[..k] && head !in ys[k..]
    ensures After(head, ys, k - 1) == if ys[k..] == [] then head else ys[k..][0]
    ensures ys[..k][0] == ys[0] && ys[..k][k - 1] == ys[k - 1]
    ensures k < |ys| ==> ys[k..][|ys| - k - 1] == ys[|ys| - 1]
    ensures forall x :: x in ys[..k] || x in ys[k..] ==> x in ys
  {
  }

  lemma {:induction false} RingOfRow(h: Node, xs: seq<Node>)
    requires Row(xs, h) && Distinct(xs) && h !in xs
    requires if xs == [] then h.next == h && h.prev == h
             else h.next == xs[0] && xs[0].prev == h && h.prev == xs[|xs| - 1]
    ensures Ring(h, xs)
  {
  }

  /** The first four writes of `__list_cut_position`: `xs` up to `entry` is hung on `list`. */
  method CutFront(list: Node, first: Node, entry: Node, ghost xs: seq<Node>, ghost e: Node)
    requires Row(xs, e) && Distinct(xs) && list !in xs && xs != [] && first == xs[0] && entry == xs[|xs| - 1]
    modifies list, first`prev, entry`next
    ensures Ring(list, xs)
  {
    list.next := first;
    list.next.prev := list;
    list.prev := entry;
    entry.next := list;
    forall i | 0 <= i < |xs|
      ensures xs[i].next == After(list, xs, i)
    {
      assert xs[i] in xs;
    }
    RingOfRow(list, xs);
  }

  /** The last two writes: the rest is hung on the old head again. */
  method CutBack(head: Node, newFirst: Node, ghost xs: seq<Node>)
    requires Row(xs, head) && Distinct(xs) && head !in xs
    requires newFirst == if xs == [] then head else xs[0]
    requires xs != [] ==> head.prev == xs[|xs| - 1]
    modifies head`next, newFirst`prev
    ensures Ring(head, xs)
  {
    head.next := newFirst;
    newFirst.prev := head;
    RingOfRow(head, xs);
  }

  /** The first four writes, beside the rest of the old list. */
  method CutFrontApart(list: Node, first: Node, entry: Node, ghost xs: seq<Node>, ghost e: Node, ghost head: Node, ghost zs: seq<Node>)
    requires Row(xs, e) && Distinct(xs) && list !in xs && xs != [] && first == xs[0] && entry == xs[|xs| - 1]
    requires Row(zs, head) && Disjoint(list, xs, head, zs)
    modifies list, first`prev, entry`next
    ensures Ring(list, xs) && Row(zs, head)
  {
    assert first in xs && entry in xs;
    CutFront(list, first, entry, xs, e);
  }

  /** The last two writes, beside the new list. */
  method CutBackApart(head: Node, newFirst: Node, ghost xs: seq<Node>, ghost list: Node, ghost zs: seq<Node>)
    requires Row(xs, head) && Distinct(xs) && head !in xs
    requires newFirst == if xs == [] then head else xs[0]
    requires xs != [] ==> head.prev == xs[|xs| - 1]
    requires Ring(list, zs) && Disjoint(list, zs, head, xs)
    modifies head`next, newFirst`prev
    ensures Ring(head, xs) && Ring(list, zs)
  {
    assert newFirst == head || newFirst in xs;
    CutBack(head, newFirst, xs);
  }

  /** `__list_cut_position`. */
  method ListCut(list: Node, head: Node, entry: Node, ghost ys: seq<Node>, ghost k: nat)
    requires Ring(head, ys) && list != head && list !in ys
    requires 0 < k <= |ys| && entry == ys[k - 1]
    modifies list, head, head.next, entry, entry.next
    ensures Ring(list, ys[..k]) && Ring(head, ys[k..])
  {
    ghost var front, back := ys[..k], ys[k..];
    FrontRow(head, ys, k);
    BackRow(head, ys, k);
    HalvesOfRing(head, ys, k);
    var newFirst := entry.next;
    assert head.next in front && entry in front;
    CutFrontApart(list, head.next, entry, front, newFirst, head, back);
    CutBackApart(head, newFirst, back, list, front);
  }

  /** Cutting at the last spliced entry undoes a splice at the head. */
  method SpliceThenCut(list: Node, head: Node, ghost xs: seq<Node>, ghost ys: seq<Node>)
    requires Ring(list, xs) && Ring(head, ys) && Disjoint(list, xs, head, ys) && xs != []
    modifies list, head, xs, ys
    ensures Ring(list, xs) && Ring(head, ys)
  {
    var last := list.prev;
    assert last == xs[|xs| - 1];
    ListSpliceInit(list, head, xs, ys);
    ghost var zs := xs + ys;
    assert Before(head, zs, |xs|) == last;
    assert zs[..|xs|] == xs && zs[|xs|..] == ys;
    ListCutPosition(list, head, last, zs, |xs|);
  }

  // ---- traversal

  /** Deleting the first entry. */
  method DeleteFirst(pos: Node, head: Node, ghost ys: seq<Node>)
    requires Ring(head, ys) && ys != [] && pos == ys[0]
    modifies head, ys
    ensures Ring(head, ys[1..]) && pos.next == null && pos.prev == null
  {
    Neighbours(head, ys, 0);
    ListDel(pos, head, ys, 0);
    assert Without(ys, 0) == ys[1..];
  }

  /** One turn of `list_for_each_safe`: delete the current entry and go on to the saved one. */
  method DrainTurn(pos: Node, tmp: Node, head: Node, ghost ys: seq<Node>) returns (p: Node, t: Node)
    requires Ring(head, ys) && ys != [] && pos == ys[0] && tmp == pos.next
    modifies head, ys
    ensures Ring(head, ys[1..]) && p == After(head, ys[1..], -1) && t == p.next
  {
    Neighbours(head, ys, 0);
    DeleteFirst(pos, head, ys);
    p := tmp;
    t := p.next;
  }

  /** `list_for_each_safe` with a body that deletes the current entry, as the worker's stage loops
      do: each entry is visited once, in list order, and the list ends up empty. */
  method DrainSafe(head: Node, ghost xs: seq<Node>) returns (ghost visited: seq<Node>)
    requires Ring(head, xs)
    modifies head, xs
    ensures visited == xs && Ring(head, [])
  {
    visited := [];
    var pos := head.next;
    var tmp := pos.next;
    ghost var k := 0;
    while pos != head
      invariant 0 <= k <= |xs| && visited == xs[..k]
      invariant Ring(head, xs[k..])
      invariant pos == After(head, xs[k..], -1) && tmp == pos.next
      decreases |xs| - k
    {
      ghost var ys := xs[k..];
      Suffix(xs, k);
      visited := visited + [pos];
      pos, tmp := DrainTurn(pos, tmp, head, ys);
      k := k + 1;
    }
  }

  lemma {:induction false} Suffix(xs: seq<Node>, k: nat)
    requires k < |xs|
    ensures xs[k..] != [] && xs[k..][1..] == xs[k + 1..] && xs[..k] + [xs[k..][0]] == xs[..k + 1]
    ensures forall y :: y in xs[k..] ==> y in xs
  {
  }
}
