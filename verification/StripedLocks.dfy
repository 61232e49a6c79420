/** The lock stripes of `src/hset.c`: an operation on a hash holds lock `hash % 16` while it walks
    bucket `hash % size`. */
module StripedLocks {
  import opened Wrappers
  import opened HashSet

  type Hash = h: nat | h < HASHES

  /** For each thread, the hash of the operation it is in the critical section of. */
  type Holders = seq<Option<Hash>>

  datatype Act = Enter(thread: nat, hash: Hash) | Leave(thread: nat)

  /** `spi_spin_lock` gets through only while nobody holds the stripe. */
  predicate Free(s: Holders, h: Hash) {
    forall u :: 0 <= u < |s| && s[u].Some? ==> s[u].value % LOCK_NUM != h % LOCK_NUM
  }

  function Apply(s: Holders, a: Act): Holders {
    match a
    case Enter(t, h) => if t < |s| && s[t] == None && Free(s, h) then s[t := Some(h)] else s
    case Leave(t) => if t < |s| then s[t := None] else s
  }

  function Exec(s: Holders, acts: seq<Act>): Holders {
    if acts == [] then s
    else Apply(Exec(s, acts[..|acts| - 1]), acts[|acts| - 1])
  }

  predicate NobodyInside(s: Holders) {
    forall u :: 0 <= u < |s| ==> s[u] == None
  }

  predicate StripesDistinct(s: Holders) {
    forall u, v :: 0 <= u < v < |s| && s[u].Some? && s[v].Some? ==>
      s[u].value % LOCK_NUM != s[v].value % LOCK_NUM
  }

  /** No two threads are inside the same bucket. */
  predicate BucketsExclusive(s: Holders, size: nat)
    requires size > 0
  {
    forall u, v :: 0 <= u < v < |s| && s[u].Some? && s[v].Some? ==>
      s[u].value % size != s[v].value % size
  }

  lemma {:induction false} StripesRun(s0: Holders, acts: seq<Act>)
    requires NobodyInside(s0)
    ensures |Exec(s0, acts)| == |s0| && StripesDistinct(Exec(s0, acts))
  {
    if acts != [] {
      StripesRun(s0, acts[..|acts| - 1]);
    }
  }

  /** Hashes of one bucket have one lock when 16 divides the table size. */
  lemma {:induction false} SameBucketSameStripe(size: nat, g: nat, h: nat)
    requires size > 0 && size % LOCK_NUM == 0 && g % size == h % size
    ensures g % LOCK_NUM == h % LOCK_NUM
  {
    var k := size / LOCK_NUM;
    ModOfMultiple(size, k, g);
    ModOfMultiple(size, k, h);
  }

  lemma {:induction false} ModOfMultiple(n: nat, k: nat, g: nat)
    requires n > 0 && n == 16 * k
    ensures g % n % 16 == g % 16
  {
    var q, r := DivMod(g, n);
    RemainderOfSum(n, k, q, r);
  }

  lemma {:induction false} DivMod(g: nat, n: nat) returns (q: nat, r: nat)
    requires n > 0
    ensures r == g % n && g == n * q + r
  {
    q, r := g / n, g % n;
  }

  lemma {:induction false} RemainderOfSum(n: nat, k: nat, q: nat, r: nat)
    requires n == 16 * k
    ensures (n * q + r) % 16 == r % 16
  {
    assert n * q == 16 * (k * q);
    RemainderBySixteen(k * q, r);
  }

  lemma {:induction false} RemainderBySixteen(m: nat, r: nat)
    ensures (16 * m + r) % 16 == r % 16
  {
  }

  /** All hashes of each bucket share a lock if and only if 16 divides the table size. */
  lemma {:induction false} StripesMatchIff(size: nat)
    requires 0 < size < HASHES
    ensures (forall g: Hash, h: Hash :: g % size == h % size ==> g % LOCK_NUM == h % LOCK_NUM)
            <==> size % LOCK_NUM == 0
  {
    if size % LOCK_NUM == 0 {
      forall g: Hash, h: Hash | g % size == h % size
        ensures g % LOCK_NUM == h % LOCK_NUM
      {
        SameBucketSameStripe(size, g, h);
      }
    } else {
      var g: Hash, h: Hash := 0, size;
      assert g % size == h % size && g % LOCK_NUM != h % LOCK_NUM;
    }
  }

  lemma {:induction false} OneBucket(size: nat)
    requires size > 0
    ensures 0 % size == size % size
  {
  }

  lemma {:induction false} BothInside(s0: Holders, size: nat) returns (acts: seq<Act>)
    requires NobodyInside(s0) && |s0| >= 2 && 0 < size < HASHES && size % LOCK_NUM != 0
    ensures !BucketsExclusive(Exec(s0, acts), size)
  {
    var enter0, enter1 := Enter(0, 0), Enter(1, size);
    ExecSnoc(s0, [], enter0);
    ExecSnoc(s0, [] + [enter0], enter1);
    acts := [] + [enter0] + [enter1];
    var s1 := s0[0 := Some(0)];
    assert Apply(s0, enter0) == s1;
    assert Free(s1, size);
    var s2 := Exec(s0, acts);
    assert s2 == s1[1 := Some(size)];
    OneBucket(size);
    assert s2[0] == Some(0) && s2[1] == Some(size);
    TwoInOne(s2, size, 0, 1);
  }

  lemma {:induction false} TwoInOne(s: Holders, size: nat, u: nat, v: nat)
    requires size > 0 && u < v < |s| && s[u].Some? && s[v].Some?
    requires s[u].value % size == s[v].value % size
    ensures !BucketsExclusive(s, size)
  {
  }

  lemma {:induction false} ExecSnoc(s: Holders, acts: seq<Act>, a: Act)
    ensures Exec(s, acts + [a]) == Apply(Exec(s, acts), a)
  {
    assert (acts + [a])[..|acts|] == acts;
  }

  /** Striped locking is sound exactly when the stripe count divides the table size: in every run
      of at least two threads no two are ever inside one bucket if and only if it does. */
  lemma {:induction false} StripedLockingIff(s0: Holders, size: nat)
    requires NobodyInside(s0) && |s0| >= 2 && 0 < size < HASHES
    ensures (forall acts :: BucketsExclusive(Exec(s0, acts), size)) <==> size % LOCK_NUM == 0
  {
    if size % LOCK_NUM == 0 {
      forall acts
        ensures BucketsExclusive(Exec(s0, acts), size)
      {
        Exclusive(s0, acts, size);
      }
    } else {
      var acts := BothInside(s0, size);
    }
  }

  lemma {:induction false} Exclusive(s0: Holders, acts: seq<Act>, size: nat)
    requires NobodyInside(s0) && 0 < size < HASHES && size % LOCK_NUM == 0
    ensures BucketsExclusive(Exec(s0, acts), size)
  {
    StripesRun(s0, acts);
    var s := Exec(s0, acts);
    forall u, v | 0 <= u < v < |s| && s[u].Some? && s[v].Some?
      ensures s[u].value % size != s[v].value % size
    {
      if s[u].value % size == s[v].value % size {
        SameBucketSameStripe(size, s[u].value, s[v].value);
      }
    }
  }

  /** The fd table of the epoll layer has 32 buckets: concurrent operations on it never
      interleave inside one bucket. */
  lemma {:induction false} FdTableExclusive(s0: Holders, acts: seq<Act>)
    requires NobodyInside(s0)
    ensures BucketsExclusive(Exec(s0, acts), 32)
  {
    Exclusive(s0, acts, 32);
  }
}
