/**
 The hash set of `src/hset.c`: chains of entries in a table of buckets, 16 striped locks. The table
 is refined to a map from hash to entry. `AddTable` passes the list arguments in the order that
 `include/list.h` declares; `AddAsWrittenTable` is the call as the program writes it.
 */
module HashSet {
  import opened Wrappers
  import opened Remainders

  const HASHES := 0x1_0000_0000    // hse_hash is a uint32_t
  const LOCK_NUM := 16             // HSET_LOCK_NUM

  datatype Entry = Entry(hash: nat, id: nat)

  type Table = seq<seq<Entry>>

  // ---- chains

  /** The first entry with this hash, as the loop over the chain finds it. */
  function Find(chain: seq<Entry>, h: nat): Option<nat> {
    if chain == [] then None
    else if chain[0].hash == h then Some(0)
    else match Find(chain[1..], h)
      case None => None
      case Some(i) => Some(i + 1)
  }

  lemma {:induction false} FindIs(chain: seq<Entry>, h: nat)
    ensures match Find(chain, h)
            case None => forall j :: 0 <= j < |chain| ==> chain[j].hash != h
            case Some(i) => i < |chain| && chain[i].hash == h && forall j :: 0 <= j < i ==> chain[j].hash != h
  {
    if chain != [] && chain[0].hash != h {
      FindIs(chain[1..], h);
      assert forall j :: 0 < j < |chain| ==> chain[j] == chain[1..][j - 1];
    }
  }

  // ---- the three operations on a table

  function Bucket(t: Table, h: nat): nat
    requires t != []
  {
    h % |t|
  }

  function AddTable(t: Table, e: Entry): (Table, int)
    requires t != []
  {
    var b := Bucket(t, e.hash);
    if Find(t[b], e.hash).Some? then (t, -1) else (t[b := t[b] + [e]], 0)
  }

  /** `list_add_tail(lh, &hse->hse_node)` links the bucket head into the new entry's list: the
      bucket then holds that entry alone. */
  function AddAsWrittenTable(t: Table, e: Entry): (Table, int)
    requires t != []
  {
    var b := Bucket(t, e.hash);
    if Find(t[b], e.hash).Some? then (t, -1) else (t[b := [e]], 0)
  }

  function DelTable(t: Table, h: nat): (Table, int)
    requires t != []
  {
    var b := Bucket(t, h);
    match Find(t[b], h)
    case None => (t, -1)
    case Some(i) => if i < |t[b]| then (t[b := t[b][..i] + t[b][i + 1..]], 0) else (t, -1)
  }

  function GetTable(t: Table, h: nat): Option<Entry>
    requires t != []
  {
    var b := Bucket(t, h);
    match Find(t[b], h)
    case None => None
    case Some(i) => if i < |t[b]| then Some(t[b][i]) else None
  }

  // ---- refinement

  ghost predicate ChainHolds(chain: seq<Entry>, b: nat, size: nat, m: map<nat, Entry>)
    requires size > 0
  {
    && (forall i :: 0 <= i < |chain| ==>
          chain[i].hash % size == b && chain[i].hash in m && m[chain[i].hash] == chain[i])
    && (forall i, j :: 0 <= i < j < |chain| ==> chain[i].hash != chain[j].hash)
  }

  /** The table represents the map: each entry of the map is in bucket `hash % size`, there is
      nothing else, and no hash occurs twice. */
  ghost predicate Represents(t: Table, m: map<nat, Entry>) {
    && t != []
    && (forall b :: 0 <= b < |t| ==> ChainHolds(t[b], b, |t|, m))
    && (forall h :: h in m ==> m[h].hash == h && m[h] in t[h % |t|])
  }

  lemma {:induction false} FoundIff(t: Table, m: map<nat, Entry>, h: nat)
    requires Represents(t, m)
    ensures Find(t[h % |t|], h).Some? <==> h in m
    ensures h in m ==> var i := Find(t[h % |t|], h).value; i < |t[h % |t|]| && t[h % |t|][i] == m[h]
  {
    var b := h % |t|;
    FindIs(t[b], h);
    assert ChainHolds(t[b], b, |t|, m);
  }

  /** `hset_get` returns what the map holds. */
  lemma {:induction false} GetRefines(t: Table, m: map<nat, Entry>, h: nat)
    requires Represents(t, m)
    ensures GetTable(t, h) == if h in m then Some(m[h]) else None
  {
    FoundIff(t, m, h);
  }

  /** `hset_add` inserts an absent hash and refuses a present one; other keys are untouched. */
  lemma {:induction false} AddRefines(t: Table, m: map<nat, Entry>, e: Entry)
    requires Represents(t, m)
    ensures var (u, ret) := AddTable(t, e);
            && (ret == 0 <==> e.hash !in m) && (ret == -1 <==> e.hash in m)
            && Represents(u, if e.hash in m then m else m[e.hash := e])
  {
    FoundIff(t, m, e.hash);
    if e.hash !in m {
      var b := e.hash % |t|;
      var u, n := AddTable(t, e).0, m[e.hash := e];
      forall c | 0 <= c < |u|
        ensures ChainHolds(u[c], c, |u|, n)
      {
        assert ChainHolds(t[c], c, |t|, m);
      }
      forall h | h in n
        ensures n[h].hash == h && n[h] in u[h % |u|]
      {
        if h == e.hash {
          assert u[b][|t[b]|] == e;
        } else {
          var i :| 0 <= i < |t[h % |t|]| && t[h % |t|][i] == m[h];
          assert u[h % |u|][i] == m[h];
        }
      }
    }
  }

  /** `hset_del` removes a present hash and nothing else. */
  lemma {:induction false} DelRefines(t: Table, m: map<nat, Entry>, h: nat)
    requires Represents(t, m)
    ensures var (u, ret) := DelTable(t, h);
            && (ret == 0 <==> h in m) && (ret == -1 <==> h !in m)
            && Represents(u, m - {h})
  {
    FoundIff(t, m, h);
    if h in m {
      var b := h % |t|;
      var i := Find(t[b], h).value;
      var u, n := DelTable(t, h).0, m - {h};
      assert u == t[b := t[b][..i] + t[b][i + 1..]];
      forall c | 0 <= c < |u|
        ensures ChainHolds(u[c], c, |u|, n)
      {
        assert ChainHolds(t[c], c, |t|, m);
        if c == b {
          ChainWithout(t[b], i, b, |t|, m);
        }
      }
      forall g | g in n
        ensures n[g].hash == g && n[g] in u[g % |u|]
      {
        if g % |t| == b {
          StaysInChain(t[b], i, m[g]);
        }
      }
    } else {
      assert m - {h} == m;
    }
  }

  lemma {:induction false} StaysInChain(chain: seq<Entry>, i: nat, e: Entry)
    requires i < |chain| && e in chain && e.hash != chain[i].hash
    ensures e in chain[..i] + chain[i + 1..]
  {
    var j :| 0 <= j < |chain| && chain[j] == e;
    assert (chain[..i] + chain[i + 1..])[if j < i then j else j - 1] == e;
  }

  lemma {:induction false} ChainWithout(chain: seq<Entry>, i: nat, b: nat, size: nat, m: map<nat, Entry>)
    requires size > 0 && ChainHolds(chain, b, size, m) && i < |chain|
    ensures ChainHolds(chain[..i] + chain[i + 1..], b, size, m - {chain[i].hash})
  {
    var rest := chain[..i] + chain[i + 1..];
    assert forall j :: 0 <= j < |rest| ==> rest[j] == chain[if j < i then j else j + 1];
  }

  /** As written, an add of an absent hash is the insertion of the map if and only if the bucket of
      the new entry is empty before the call: otherwise the other entries of the bucket are lost. */
  lemma {:induction false} AsWrittenIff(t: Table, m: map<nat, Entry>, e: Entry)
    requires Represents(t, m)
    ensures var (u, ret) := AddAsWrittenTable(t, e);
            && (ret == 0 <==> e.hash !in m)
            && (Represents(u, if e.hash in m then m else m[e.hash := e]) <==>
                  e.hash in m || t[e.hash % |t|] == [])
  {
    FoundIff(t, m, e.hash);
    var b := e.hash % |t|;
    var u := AddAsWrittenTable(t, e).0;
    if e.hash !in m {
      if t[b] == [] {
        AddRefines(t, m, e);
        assert [] + [e] == [e];
        assert u == AddTable(t, e).0;
      } else {
        var lost := t[b][0];
        assert ChainHolds(t[b], b, |t|, m);
        assert lost.hash != e.hash && u[b] == [e];
        assert lost !in u[lost.hash % |u|];
        assert m[e.hash := e][lost.hash] == lost;
      }
    }
  }

  // ---- operation sequences

  datatype Op = Add(e: Entry) | Del(h: nat) | Get(h: nat)

  datatype Ret = Code(code: int) | Found(entry: Option<Entry>)

  function TableStep(t: Table, op: Op): (r: (Table, Ret))
    requires t != []
    ensures |r.0| == |t|
  {
    match op
    case Add(e) => (AddTable(t, e).0, Code(AddTable(t, e).1))
    case Del(h) => (DelTable(t, h).0, Code(DelTable(t, h).1))
    case Get(h) => (t, Found(GetTable(t, h)))
  }

  function MapStep(m: map<nat, Entry>, op: Op): (map<nat, Entry>, Ret) {
    match op
    case Add(e) => if e.hash in m then (m, Code(-1)) else (m[e.hash := e], Code(0))
    case Del(h) => if h in m then (m - {h}, Code(0)) else (m, Code(-1))
    case Get(h) => (m, Found(if h in m then Some(m[h]) else None))
  }

  function TableRun(t: Table, ops: seq<Op>): seq<Ret>
    requires t != []
    decreases ops
  {
    if ops == [] then []
    else var (u, r) := TableStep(t, ops[0]); [r] + TableRun(u, ops[1..])
  }

  function MapRun(m: map<nat, Entry>, ops: seq<Op>): seq<Ret>
    decreases ops
  {
    if ops == [] then [] else var (n, r) := MapStep(m, ops[0]); [r] + MapRun(n, ops[1..])
  }

  /** For any operation sequence the table returns what a map would. */
  lemma {:induction false} SetRefinesMap(t: Table, m: map<nat, Entry>, ops: seq<Op>)
    requires Represents(t, m)
    ensures TableRun(t, ops) == MapRun(m, ops)
    decreases ops
  {
    if ops != [] {
      match ops[0] {
        case Add(e) => AddRefines(t, m, e);
        case Del(h) =>
          DelRefines(t, m, h);
          assert h !in m ==> m - {h} == m;
        case Get(h) => GetRefines(t, m, h);
      }
      SetRefinesMap(TableStep(t, ops[0]).0, MapStep(m, ops[0]).0, ops[1..]);
    }
  }

  // ---- the operations as written

  function WrittenStep(t: Table, op: Op): (r: (Table, Ret))
    requires t != []
    ensures |r.0| == |t|
  {
    match op
    case Add(e) => (AddAsWrittenTable(t, e).0, Code(AddAsWrittenTable(t, e).1))
    case _ => TableStep(t, op)
  }

  function WrittenTable(t: Table, ops: seq<Op>): (r: Table)
    requires t != []
    ensures |r| == |t|
  {
    if ops == [] then t else WrittenStep(WrittenTable(t, ops[..|ops| - 1]), ops[|ops| - 1]).0
  }

  function WrittenRun(t: Table, ops: seq<Op>): seq<Ret>
    requires t != []
    decreases ops
  {
    if ops == [] then []
    else var (u, r) := WrittenStep(t, ops[0]); [r] + WrittenRun(u, ops[1..])
  }

  function MapAfter(m: map<nat, Entry>, ops: seq<Op>): map<nat, Entry> {
    if ops == [] then m else MapStep(MapAfter(m, ops[..|ops| - 1]), ops[|ops| - 1]).0
  }

  /** At every moment the table represents the map. */
  ghost predicate AlwaysRepresents(t: Table, m: map<nat, Entry>, ops: seq<Op>)
    requires t != []
  {
    && Represents(WrittenTable(t, ops), MapAfter(m, ops))
    && (ops == [] || AlwaysRepresents(t, m, ops[..|ops| - 1]))
  }

  /** The operation adds an absent hash to a bucket that is not empty. */
  predicate LosesBucket(t: Table, m: map<nat, Entry>, op: Op)
    requires t != []
  {
    op.Add? && op.e.hash !in m && t[op.e.hash % |t|] != []
  }

  predicate LosesNothing(t: Table, m: map<nat, Entry>, ops: seq<Op>)
    requires t != []
  {
    ops == []
    || (var before := ops[..|ops| - 1];
        LosesNothing(t, m, before)
        && !LosesBucket(WrittenTable(t, before), MapAfter(m, before), ops[|ops| - 1]))
  }

  lemma {:induction false} WrittenStepIff(t: Table, m: map<nat, Entry>, op: Op)
    requires Represents(t, m)
    ensures Represents(WrittenStep(t, op).0, MapStep(m, op).0) <==> !LosesBucket(t, m, op)
  {
    match op
    case Add(e) => AsWrittenIff(t, m, e);
    case Del(h) =>
      DelRefines(t, m, h);
      assert h !in m ==> m - {h} == m;
    case Get(h) =>
  }

  /** Over every run as written: the table represents the map throughout if and only if no absent hash was
      ever added to a bucket that is not empty. */
  lemma {:induction false} WrittenRunIff(t: Table, m: map<nat, Entry>, ops: seq<Op>)
    requires Represents(t, m)
    ensures AlwaysRepresents(t, m, ops) <==> LosesNothing(t, m, ops)
  {
    if ops != [] {
      var before := ops[..|ops| - 1];
      WrittenRunIff(t, m, before);
      if AlwaysRepresents(t, m, before) {
        WrittenStepIff(WrittenTable(t, before), MapAfter(m, before), ops[|ops| - 1]);
      }
    }
  }

  /** An input that fails: two hashes of one bucket of a new set, and the first is gone. */
  lemma {:induction false} SecondAddLosesFirst(t: Table, h: nat)
    requires t != [] && forall b :: 0 <= b < |t| ==> t[b] == []
    ensures var n := |t|;
            var ops := [Add(Entry(h, 0)), Add(Entry(h + n, 1)), Get(h)];
            && Represents(t, map[])
            && MapRun(map[], ops) == [Code(0), Code(0), Found(Some(Entry(h, 0)))]
            && WrittenRun(t, ops) == [Code(0), Code(0), Found(None)]
  {
    var n := |t|;
    var b := h % n;
    RemainderWhole(h, n);
    var x, y := Entry(h, 0), Entry(h + n, 1);
    var ops := [Add(x), Add(y), Get(h)];
    var t1 := t[b := [x]];
    var t2 := t1[b := [y]];
    FindIs([x], h + n);
    FindIs([y], h);
    assert Find([], h) == None && Find([x], h + n) == None && Find([y], h) == None;
    assert WrittenStep(t, Add(x)) == (t1, Code(0));
    assert WrittenStep(t1, Add(y)) == (t2, Code(0));
    assert WrittenStep(t2, Get(h)) == (t2, Found(None));
    WrittenThree(t, Add(x), t1, Add(y), t2, Get(h));
    var m1 := map[h := x];
    var m2 := m1[h + n := y];
    assert MapStep(map[], Add(x)) == (m1, Code(0)) && MapStep(m1, Add(y)) == (m2, Code(0));
    MapThree(map[], Add(x), m1, Add(y), m2, Get(h));
  }

  lemma {:induction false} WrittenThree(t: Table, a: Op, u: Table, b: Op, v: Table, c: Op)
    requires t != [] && u == WrittenStep(t, a).0 && v == WrittenStep(u, b).0
    ensures WrittenRun(t, [a, b, c]) == [WrittenStep(t, a).1, WrittenStep(u, b).1, WrittenStep(v, c).1]
  {
    assert [a, b, c][1..] == [b, c] && [b, c][1..] == [c] && [c][1..] == [];
    assert WrittenRun(v, [c]) == [WrittenStep(v, c).1];
    assert WrittenRun(u, [b, c]) == [WrittenStep(u, b).1] + WrittenRun(v, [c]);
  }

  lemma {:induction false} MapThree(m: map<nat, Entry>, a: Op, n: map<nat, Entry>, b: Op, o: map<nat, Entry>, c: Op)
    requires n == MapStep(m, a).0 && o == MapStep(n, b).0
    ensures MapRun(m, [a, b, c]) == [MapStep(m, a).1, MapStep(n, b).1, MapStep(o, c).1]
  {
    assert [a, b, c][1..] == [b, c] && [b, c][1..] == [c] && [c][1..] == [];
    assert MapRun(o, [c]) == [MapStep(o, c).1];
    assert MapRun(n, [b, c]) == [MapStep(n, b).1] + MapRun(o, [c]);
  }

}
