/**
 The hash set of `src/hset.c` in its own form: an array of list heads, chains of entries linked through
 their `hse_node`, all rings of `LinkedList`. The operations are proved against the tables of `HashSet`.
 */
module HashTable {
  import opened Wrappers
  import opened LinkedList
  import opened HashSet

  /** The list heads, and the nodes of the chains. */
  datatype Layout = Layout(heads: seq<Node>, nodes: seq<seq<Node>>)

  /** `container_of`: these nodes are part of these entries. */
  predicate Carries(owner: map<Node, Entry>, xs: seq<Node>, es: seq<Entry>) {
    |xs| == |es| && forall i :: 0 <= i < |xs| ==> xs[i] in owner && owner[xs[i]] == es[i]
  }

  ghost predicate AllIn(xs: seq<Node>, repr: set<Node>) {
    forall x :: x in xs ==> x in repr
  }

  ghost predicate Within(l: Layout, repr: set<Node>) {
    && |l.nodes| == |l.heads|
    && forall b :: 0 <= b < |l.heads| ==> l.heads[b] in repr && AllIn(l.nodes[b], repr)
  }

  ghost predicate Separate(l: Layout)
    requires |l.nodes| == |l.heads|
  {
    && (forall b :: 0 <= b < |l.heads| ==> l.heads[b] !in l.nodes[b])
    && (forall b, c :: 0 <= b < c < |l.heads| ==> Disjoint(l.heads[b], l.nodes[b], l.heads[c], l.nodes[c]))
  }

  ghost predicate Contents(l: Layout, owner: map<Node, Entry>, t: Table) {
    |t| == |l.nodes| && forall b :: 0 <= b < |t| ==> Carries(owner, l.nodes[b], t[b])
  }

  ghost function Chained(l: Layout, b: nat, zs: seq<Node>): Layout
    requires b < |l.nodes|
  {
    l.(nodes := l.nodes[b := zs])
  }

  /** The new chain of the bucket: some of its nodes, and perhaps `node`. */
  ghost predicate Rechained(l: Layout, b: nat, zs: seq<Node>, node: Node)
    requires b < |l.nodes|
  {
    forall z :: z in zs ==> z in l.nodes[b] || z == node
  }

  lemma {:induction false} ChainedWithin(l: Layout, repr: set<Node>, b: nat, zs: seq<Node>, node: Node)
    requires Within(l, repr) && b < |l.heads| && Rechained(l, b, zs, node)
    ensures Within(Chained(l, b, zs), repr + {node})
  {
    forall c | 0 <= c < |l.heads|
      ensures AllIn(Chained(l, b, zs).nodes[c], repr + {node})
    {
      assert AllIn(l.nodes[c], repr);
    }
  }

  lemma {:induction false} ChainedSeparate(l: Layout, repr: set<Node>, b: nat, zs: seq<Node>, node: Node)
    requires Within(l, repr) && Separate(l) && b < |l.heads| && Rechained(l, b, zs, node)
    requires node !in repr || node in l.nodes[b]
    ensures Separate(Chained(l, b, zs))
  {
    var m := Chained(l, b, zs);
    forall c | 0 <= c < |l.heads| && c != b
      ensures Disjoint(l.heads[b], zs, l.heads[c], l.nodes[c]) && Disjoint(l.heads[c], l.nodes[c], l.heads[b], zs)
    {
      assert AllIn(l.nodes[c], repr);
      assert if b < c then Disjoint(l.heads[b], l.nodes[b], l.heads[c], l.nodes[c])
             else Disjoint(l.heads[c], l.nodes[c], l.heads[b], l.nodes[b]);
    }
    forall c | 0 <= c < |m.heads|
      ensures m.heads[c] !in m.nodes[c]
    {
    }
    forall c, d | 0 <= c < d < |m.heads|
      ensures Disjoint(m.heads[c], m.nodes[c], m.heads[d], m.nodes[d])
    {
    }
  }

  lemma {:induction false} CarriesUnder(owner: map<Node, Entry>, xs: seq<Node>, es: seq<Entry>, node: Node, e: Entry)
    requires Carries(owner, xs, es) && node !in xs
    ensures Carries(owner[node := e], xs, es) && Carries(owner[node := e], xs + [node], es + [e])
  {
  }

  lemma {:induction false} AddedContents(l: Layout, repr: set<Node>, owner: map<Node, Entry>, t: Table, b: nat,
                                         node: Node, e: Entry)
    requires Within(l, repr) && Contents(l, owner, t) && b < |t| && node !in repr
    ensures Contents(Chained(l, b, l.nodes[b] + [node]), owner[node := e], t[b := t[b] + [e]])
    ensures Contents(Chained(l, b, [node]), owner[node := e], t[b := [e]])
  {
    forall c | 0 <= c < |t|
      ensures Carries(owner[node := e], l.nodes[c], t[c])
      ensures Carries(owner[node := e], l.nodes[c] + [node], t[c] + [e])
    {
      assert AllIn(l.nodes[c], repr);
      CarriesUnder(owner, l.nodes[c], t[c], node, e);
    }
  }

  lemma {:induction false} DeletedContents(l: Layout, owner: map<Node, Entry>, t: Table, b: nat, i: nat)
    requires Contents(l, owner, t) && b < |t| && i < |t[b]|
    ensures Contents(Chained(l, b, Without(l.nodes[b], i)), owner, t[b := t[b][..i] + t[b][i + 1..]])
  {
    assert Carries(owner, l.nodes[b], t[b]);
  }

  class Set {
    const heads: seq<Node>                // hs_ents
    var owner: map<Node, Entry>           // the entry a node is part of
    ghost var nodes: seq<seq<Node>>
    ghost var table: Table                // the chains as the model has them
    ghost var repr: set<Node>

    ghost function Where(): Layout
      reads this
    {
      Layout(heads, nodes)
    }

    ghost predicate Rings()
      requires Within(Where(), repr)
      reads this, repr
    {
      forall b :: 0 <= b < |heads| ==> Ring(heads[b], nodes[b])
    }

    ghost predicate Valid()
      reads this, repr
    {
      && heads != [] && Within(Where(), repr)
      && Separate(Where()) && Rings() && Contents(Where(), owner, table)
    }

    /** `hset_create`. */
    constructor (size: nat)
      requires size > 0
      ensures Valid() && fresh(repr) && |table| == size
      ensures Represents(table, map[])
    {
      var hs: seq<Node> := [];
      ghost var all: set<Node> := {};
      while |hs| < size
        invariant |hs| <= size && Distinct(hs)
        invariant AllIn(hs, all) && fresh(all)
        invariant forall b :: 0 <= b < |hs| ==> Ring(hs[b], [])
      {
        var h := new Node();
        InitListHead(h);
        hs := hs + [h];
        all := all + {h};
      }
      heads, owner := hs, map[];
      nodes, table, repr := seq(size, _ => []), seq(size, _ => []), all;
    }

    /** The loop over a chain that the three operations share: the node of the first entry with the
        hash. */
    method Lookup(h: nat) returns (pos: Node, exist: bool, ghost i: nat)
      requires Valid()
      ensures var b := h % |heads|;
              && |table| == |nodes| == |heads|
              && if exist then
                   Find(table[b], h) == Some(i) && i < |table[b]| == |nodes[b]| && pos == nodes[b][i]
                 else Find(table[b], h) == None
    {
      var b := h % |heads|;
      ghost var xs, chain := nodes[b], table[b];
      assert Ring(heads[b], xs) && Carries(owner, xs, chain);
      FindIs(chain, h);
      i, exist, pos := 0, false, heads[b].next;
      while pos != heads[b]
        invariant 0 <= i <= |xs| && pos == After(heads[b], xs, i - 1)
        invariant forall j :: 0 <= j < i ==> chain[j].hash != h
        decreases |xs| - i
      {
        assert i < |xs| && pos == xs[i];
        if owner[pos].hash == h {
          exist := true;
          return;
        }
        pos, i := pos.next, i + 1;
      }
      assert i == |xs|;
    }

    /** `hset_get`. */
    method Get(h: nat) returns (hse: Option<Entry>)
      requires Valid()
      ensures table != [] && hse == GetTable(table, h)
    {
      var pos, exist, i := Lookup(h);
      assert Carries(owner, nodes[h % |heads|], table[h % |heads|]);
      hse := if exist then Some(owner[pos]) else None;
    }

    /** `hset_add` of an entry whose node is in no list, with the list arguments in their declared order. */
    method Add(hse: Node, e: Entry) returns (ret: int)
      requires Valid() && hse !in repr
      modifies this, repr, hse
      ensures Valid() && repr == old(repr) + (if ret == 0 then {hse} else {})
      ensures old(table) != [] && (table, ret) == AddTable(old(table), e)
      ensures var b := e.hash % |heads|;
              |old(nodes)| == |heads| &&
              nodes == if ret == 0 then old(nodes)[b := old(nodes)[b] + [hse]] else old(nodes)
    {
      var b := e.hash % |heads|;
      var _, exist, _ := Lookup(e.hash);
      if exist {
        return -1;
      }
      AppendTo(b, hse);
      ghost var was := owner;
      owner := owner[hse := e];
      AddedContents(Where(), repr, was, table, b, hse, e);
      Rechain(b, nodes[b] + [hse], hse, table[b := table[b] + [e]]);
      ret := 0;
    }

    /** `hset_add` with the list arguments as they are written. */
    method AddAsWritten(hse: Node, e: Entry) returns (ret: int)
      requires Valid() && hse !in repr
      modifies this, repr, hse
      ensures Valid() && repr == old(repr) + (if ret == 0 then {hse} else {})
      ensures old(table) != [] && (table, ret) == AddAsWrittenTable(old(table), e)
      ensures |old(nodes)| == |heads| &&
              nodes == if ret == 0 then old(nodes)[e.hash % |heads| := [hse]] else old(nodes)
    {
      var b := e.hash % |heads|;
      var _, exist, _ := Lookup(e.hash);
      if exist {
        return -1;
      }
      LinkSwapped(b, hse);
      ghost var was := owner;
      owner := owner[hse := e];
      AddedContents(Where(), repr, was, table, b, hse, e);
      Rechain(b, [hse], hse, table[b := [e]]);
      ret := 0;
    }

    /** `hset_del`. The node is in no list afterwards. */
    method Del(h: nat) returns (ret: int)
      requires Valid()
      modifies this, repr
      ensures Valid() && repr <= old(repr)
      ensures old(table) != [] && (table, ret) == DelTable(old(table), h)
    {
      var b := h % |heads|;
      var pos, exist, i := Lookup(h);
      if !exist {
        return -1;
      }
      UnlinkFrom(b, pos, i);
      DeletedContents(Where(), owner, table, b, i);
      Rechain(b, Without(nodes[b], i), pos, table[b := table[b][..i] + table[b][i + 1..]]);
      Release(pos);
      ret := 0;
    }

    /** Bookkeeping after a chain has changed. */
    ghost method Rechain(b: nat, zs: seq<Node>, node: Node, t: Table)
      requires heads != [] && Within(Where(), repr) && Separate(Where()) && b < |heads|
      requires Rechained(Where(), b, zs, node) && (node !in repr || node in nodes[b])
      requires RingsWith(b, zs) && Contents(Chained(Where(), b, zs), owner, t)
      modifies this`nodes, this`table, this`repr
      ensures Valid() && table == t && repr == old(repr) + {node} && nodes == old(nodes)[b := zs]
    {
      ChainedWithin(Where(), repr, b, zs, node);
      ChainedSeparate(Where(), repr, b, zs, node);
      nodes := nodes[b := zs];
      table := t;
      repr := repr + {node};
    }

    /** A node that is in no chain any more belongs to the caller again. */
    ghost method Release(node: Node)
      requires Valid() && node !in heads && forall b :: 0 <= b < |nodes| ==> node !in nodes[b]
      modifies this`repr
      ensures Valid() && repr == old(repr) - {node}
    {
      repr := repr - {node};
    }

    // ---- the heap parts; the other chains are left alone

    ghost predicate RingsWith(b: nat, zs: seq<Node>)
      requires Within(Where(), repr) && b < |heads|
      reads this, repr, zs
    {
      forall c :: 0 <= c < |heads| ==> Ring(heads[c], nodes[b := zs][c])
    }

    method AppendTo(b: nat, hse: Node)
      requires Valid() && b < |heads| && hse !in repr
      modifies repr, hse
      ensures RingsWith(b, nodes[b] + [hse])
    {
      ghost var xs := nodes[b];
      assert AllIn(xs, repr) && (heads[b].prev == heads[b] || heads[b].prev in xs);
      ListAddTail(hse, heads[b], xs);
    }

    method LinkSwapped(b: nat, hse: Node)
      requires Valid() && b < |heads| && hse !in repr
      modifies repr, hse
      ensures RingsWith(b, [hse])
    {
      assert AllIn(nodes[b], repr);
      ListAddTailSwapped(heads[b], hse, nodes[b]);
    }

    method UnlinkFrom(b: nat, pos: Node, ghost i: nat)
      requires Valid() && b < |heads| && i < |nodes[b]| && pos == nodes[b][i]
      modifies repr
      ensures RingsWith(b, Without(nodes[b], i))
    {
      assert AllIn(nodes[b], repr) && pos in nodes[b];
      Neighbours(heads[b], nodes[b], i);
      ListDel(pos, heads[b], nodes[b], i);
    }
  }
}
