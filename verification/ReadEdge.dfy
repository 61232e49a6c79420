/**
 The read side of an edpnet socket (`posix/edpnet.c`): edge-triggered EPOLLIN, the READ flag, and
 reads that clear it. Data arrives, and the epoll thread dispatches, at any moment; the socket calls run
 on one worker, the handler on that one or on a second.
 */
module ReadEdge {

  /** `edpnet_sock_read` of the worker: not active, past the READ test, or told there is no data. */
  datatype Reading = NoRead | Asked | Failed

  datatype Sock = Sock(
    ready: bool,          // READ
    unread: nat,          // bytes in the kernel buffer
    edge: bool,           // an edge the epoll thread has not dispatched yet
    scheduled: nat,       // EPOLLIN events on their way to the handler
    callback: bool,       // data_ready is running
    reading: Reading,
    dataReady: nat,       // history: calls of data_ready
    failed: nat)          // history: reads that returned a negative value

  datatype Act =
    | Arrive(n: nat)            // the kernel reports EPOLLIN: n new bytes, or none (end of stream)
    | Edge(dispatched: bool)    // sock_worker_cb; false: no event could be allocated
    | Handler                   // edpnet_sock_epollin_handler on the idle worker
    | HandlerElsewhere          // the same handler on a second worker
    | Return                    // data_ready returns
    | Read                      // user code calls edpnet_sock_read
    | KernelReturns(ret: int)   // result of readv or read
    | Clear                     // the failed read clears READ

  function HandlerStep(s: Sock): Sock {
    if s.scheduled == 0 then s
    else if s.ready then s.(scheduled := s.scheduled - 1)
    else s.(scheduled := s.scheduled - 1, ready := true, dataReady := s.dataReady + 1, callback := true)
  }

  function KernelReturnsStep(s: Sock, ret: int): Sock {
    if ret < 0 then s.(reading := Failed, failed := s.failed + 1)
    else s.(reading := NoRead, unread := if ret <= s.unread then s.unread - ret else 0)
  }

  function Apply(s: Sock, a: Act): Sock {
    match a
    case Arrive(n) => s.(unread := s.unread + n, edge := true)
    case Edge(dispatched) =>
      if !s.edge then s
      else s.(edge := false, scheduled := s.scheduled + (if dispatched then 1 else 0))
    case Handler => if s.callback || s.reading != NoRead then s else HandlerStep(s)
    case HandlerElsewhere => HandlerStep(s)
    case Return => if s.reading == NoRead then s.(callback := false) else s
    case Read => if s.reading == NoRead && s.ready then s.(reading := Asked) else s
    case KernelReturns(ret) => if s.reading == Asked then KernelReturnsStep(s, ret) else s
    case Clear => if s.reading == Failed then s.(ready := false, reading := NoRead) else s
  }

  function Exec(s: Sock, acts: seq<Act>): Sock {
    if acts == [] then s
    else Apply(Exec(s, acts[..|acts| - 1]), acts[|acts| - 1])
  }

  predicate Created(s: Sock) {
    s == Sock(false, 0, false, 0, false, NoRead, 0, 0)
  }

  /** Unread data is announced: READ is set and will not be cleared for a reason that is over, or an
      EPOLLIN event is on its way. */
  predicate Announced(s: Sock) {
    s.unread > 0 ==> (s.ready && s.reading != Failed) || s.edge || s.scheduled > 0
  }

  /** The steps that lose unread data: the last announcement is an edge that could not be dispatched;
      a read fails while there is data and nothing on its way; a handler on another worker consumes
      the last event between a failed read and its clearing of READ. */
  predicate Loses(s: Sock, a: Act) {
    s.unread > 0 &&
    match a
    case Edge(dispatched) =>
      s.edge && !dispatched && s.scheduled == 0 && !(s.ready && s.reading != Failed)
    case KernelReturns(ret) =>
      s.reading == Asked && ret < 0 && !s.edge && s.scheduled == 0
    case HandlerElsewhere =>
      s.reading == Failed && !s.edge && s.scheduled == 1
    case _ => false
  }

  /** The exact condition: a step of any kind, on either worker, keeps data announced if and only if
      it is none of these. */
  lemma {:induction false} AnnouncedIff(s: Sock, a: Act)
    requires Announced(s)
    ensures Announced(Apply(s, a)) <==> !Loses(s, a)
  {
    match a
    case Edge(dispatched) => EdgeKeepsIff(s, dispatched);
    case KernelReturns(ret) =>
      if s.reading == Asked && ret < 0 {
        FailedReadKeepsIff(s, ret);
      }
    case HandlerElsewhere => HandlerElsewhereKeepsIff(s);
    case _ =>
  }

  lemma {:induction false} EdgeKeepsIff(s: Sock, dispatched: bool)
    requires Announced(s)
    ensures Announced(Apply(s, Edge(dispatched))) <==>
            !s.edge || dispatched || s.unread == 0 || (s.ready && s.reading != Failed) || s.scheduled > 0
  {
  }

  lemma {:induction false} FailedReadKeepsIff(s: Sock, ret: int)
    requires Announced(s) && s.reading == Asked && ret < 0
    ensures Announced(Apply(s, KernelReturns(ret))) <==> s.unread == 0 || s.edge || s.scheduled > 0
  {
  }

  lemma {:induction false} HandlerElsewhereKeepsIff(s: Sock)
    requires Announced(s)
    ensures Announced(Apply(s, HandlerElsewhere)) <==>
            s.unread == 0 || s.reading != Failed || s.edge || s.scheduled != 1
  {
  }

  predicate NoLoss(s: Sock, acts: seq<Act>) {
    acts == []
    || (var before := acts[..|acts| - 1];
        NoLoss(s, before) && !Loses(Exec(s, before), acts[|acts| - 1]))
  }

  predicate AlwaysAnnounced(s: Sock, acts: seq<Act>) {
    Announced(Exec(s, acts)) && (acts == [] || AlwaysAnnounced(s, acts[..|acts| - 1]))
  }

  /** Over every run, on one worker or two: unread data is announced at every moment if and only if no
      step is one of the three. */
  lemma {:induction false} AlwaysAnnouncedIff(s0: Sock, acts: seq<Act>)
    requires Created(s0)
    ensures AlwaysAnnounced(s0, acts) <==> NoLoss(s0, acts)
  {
    if acts != [] {
      var before := acts[..|acts| - 1];
      AlwaysAnnouncedIff(s0, before);
      if AlwaysAnnounced(s0, before) {
        AnnouncedIff(Exec(s0, before), acts[|acts| - 1]);
      }
    }
  }

  /** No lost read edge: in every run without such a step, unread data implies READ or an EPOLLIN
      event on its way, whenever the data arrives; while a failed read is about to clear READ, and
      at rest with READ clear, an event is on its way. */
  lemma {:induction false} NoLostEdge(s0: Sock, acts: seq<Act>)
    requires Created(s0) && NoLoss(s0, acts)
    ensures var t := Exec(s0, acts);
            && (t.unread > 0 ==> t.ready || t.edge || t.scheduled > 0)
            && (t.unread > 0 && t.reading == Failed ==> t.edge || t.scheduled > 0)
  {
    AlwaysAnnouncedIff(s0, acts);
  }

  /** One serialised worker, memory for every event, and a negative read that means no data. */
  predicate Serialised(s: Sock, a: Act) {
    && (a.Edge? && s.edge ==> a.dispatched)
    && (a.KernelReturns? && s.reading == Asked && a.ret < 0 ==> s.unread == 0)
    && !a.HandlerElsewhere?
  }

  predicate SerialisedRun(s: Sock, acts: seq<Act>) {
    acts == []
    || (var before := acts[..|acts| - 1];
        SerialisedRun(s, before) && Serialised(Exec(s, before), acts[|acts| - 1]))
  }

  /** Under the assumptions of the library's own use no step is one of the three. */
  lemma {:induction false} SerialisedLosesNothing(s0: Sock, acts: seq<Act>)
    requires Created(s0) && SerialisedRun(s0, acts)
    ensures NoLoss(s0, acts) && Announced(Exec(s0, acts))
  {
    if acts != [] {
      SerialisedLosesNothing(s0, acts[..|acts| - 1]);
      AnnouncedIff(Exec(s0, acts[..|acts| - 1]), acts[|acts| - 1]);
    }
  }

  ghost predicate Alternates(s: Sock) {
    && (s.reading != NoRead ==> s.ready)
    && s.dataReady == s.failed + (if s.ready then 1 else 0) - (if s.reading == Failed then 1 else 0)
  }

  /** Calls of data_ready and failed reads alternate, in every run, also with a second worker: at
      most one more call than failed reads, whatever the kernel returns. */
  lemma {:induction false} ReadyCallsBounded(s0: Sock, acts: seq<Act>)
    requires Created(s0)
    ensures var t := Exec(s0, acts); Alternates(t) && t.dataReady <= t.failed + 1
  {
    if acts != [] {
      ReadyCallsBounded(s0, acts[..|acts| - 1]);
    }
  }

  // ---- what the steps say

  predicate Reports(s: Sock, a: Act) {
    a == Edge(true) && s.edge
  }

  /** The handler takes an event, on this worker or the other. */
  predicate Takes(s: Sock, a: Act) {
    s.scheduled > 0 && (a == HandlerElsewhere || (a == Handler && !s.callback && s.reading == NoRead))
  }

  predicate Clears(s: Sock, a: Act) {
    a == Clear && s.reading == Failed
  }

  predicate Delivers(s: Sock, a: Act) {
    a.KernelReturns? && s.reading == Asked && a.ret >= 0
  }

  function One(b: bool): nat {
    if b then 1 else 0
  }

  /** EPOLLIN events on their way: edges dispatched, less those the handlers took. */
  function Waiting(s0: Sock, acts: seq<Act>): int {
    if acts == [] then 0
    else
      var s, a := Exec(s0, acts[..|acts| - 1]), acts[|acts| - 1];
      Waiting(s0, acts[..|acts| - 1]) + One(Reports(s, a)) - One(Takes(s, a))
  }

  /** Has the kernel reported EPOLLIN since the epoll thread last looked? */
  function Reported(acts: seq<Act>): bool {
    if acts == [] then false
    else
      match acts[|acts| - 1]
      case Arrive(_) => true
      case Edge(_) => false
      case _ => Reported(acts[..|acts| - 1])
  }

  /** Has a handler run since a failed read last cleared READ? */
  function IsReady(s0: Sock, acts: seq<Act>): bool {
    if acts == [] then false
    else
      var s, a := Exec(s0, acts[..|acts| - 1]), acts[|acts| - 1];
      if Takes(s, a) then true
      else if Clears(s, a) then false
      else IsReady(s0, acts[..|acts| - 1])
  }

  /** How often a handler found READ clear. */
  function Calls(s0: Sock, acts: seq<Act>): nat {
    if acts == [] then 0
    else
      var s, a := Exec(s0, acts[..|acts| - 1]), acts[|acts| - 1];
      Calls(s0, acts[..|acts| - 1]) + One(Takes(s, a) && !s.ready)
  }

  /** Bytes that have arrived and were not read. */
  function Left(s0: Sock, acts: seq<Act>): nat {
    if acts == [] then 0
    else
      var s, a := Exec(s0, acts[..|acts| - 1]), acts[|acts| - 1];
      var n := Left(s0, acts[..|acts| - 1]);
      if a.Arrive? then n + a.n
      else if Delivers(s, a) then (if a.ret <= n then n - a.ret else 0)
      else n
  }

  /** Over every run: the events on their way, the edge, READ, the calls of data_ready and the unread bytes are
      exactly those that the steps of the run make. */
  lemma {:induction false} RunTallied(s0: Sock, acts: seq<Act>)
    requires Created(s0)
    ensures var t := Exec(s0, acts);
            && t.scheduled == Waiting(s0, acts) && t.edge == Reported(acts)
            && t.ready == IsReady(s0, acts) && t.dataReady == Calls(s0, acts) && t.unread == Left(s0, acts)
  {
    if acts != [] {
      RunTallied(s0, acts[..|acts| - 1]);
      TallyStep(Exec(s0, acts[..|acts| - 1]), acts[|acts| - 1]);
    }
  }

  lemma {:induction false} TallyStep(s: Sock, a: Act)
    ensures var t := Apply(s, a);
            && t.scheduled == s.scheduled + One(Reports(s, a)) - One(Takes(s, a))
            && t.edge == (a.Arrive? || (s.edge && !a.Edge?))
            && t.ready == (Takes(s, a) || (s.ready && !Clears(s, a)))
            && t.dataReady == s.dataReady + One(Takes(s, a) && !s.ready)
            && t.unread == if a.Arrive? then s.unread + a.n
                           else if Delivers(s, a) then (if a.ret <= s.unread then s.unread - a.ret else 0)
                           else s.unread
  {
  }

  function Trace(s: Sock, a: Act, b: Act, c: Act, d: Act): Sock {
    Apply(Apply(Apply(Apply(s, a), b), c), d)
  }

  lemma {:induction false} Extend(s0: Sock, acts: seq<Act>, t: Sock, a: Act) returns (longer: seq<Act>)
    requires Exec(s0, acts) == t
    ensures Exec(s0, longer) == Apply(t, a)
  {
    longer := acts + [a];
    assert longer[..|acts|] == acts;
  }

  lemma {:induction false} ExtendFour(s0: Sock, acts: seq<Act>, t: Sock, a: Act, b: Act, c: Act, d: Act)
    returns (longer: seq<Act>)
    requires Exec(s0, acts) == t
    ensures Exec(s0, longer) == Trace(t, a, b, c, d)
  {
    longer := Extend(s0, acts, t, a);
    longer := Extend(s0, longer, Apply(t, a), b);
    longer := Extend(s0, longer, Apply(Apply(t, a), b), c);
    longer := Extend(s0, longer, Apply(Apply(Apply(t, a), b), c), d);
  }

  lemma {:induction false} DataIsRead(s0: Sock) returns (acts: seq<Act>)
    requires Created(s0)
    ensures Exec(s0, acts) == Sock(true, 1, false, 0, true, Asked, 1, 0)
  {
    acts := ExtendFour(s0, [], s0, Arrive(1), Edge(true), Handler, Read);
  }

  lemma {:induction false} MoreArrives(s0: Sock, acts: seq<Act>) returns (longer: seq<Act>)
    requires Exec(s0, acts) == Sock(true, 1, false, 0, true, Asked, 1, 0)
    ensures Exec(s0, longer) == Sock(true, 1, true, 0, true, Failed, 1, 1)
  {
    var t := Sock(true, 1, false, 0, true, Asked, 1, 0);
    longer := ExtendFour(s0, acts, t, KernelReturns(1), Read, KernelReturns(-1), Arrive(1));
  }

  /** The handler on the second worker falls between the failed read and its clearing of READ: the data
      lies unread and nothing will announce it. */
  lemma {:induction false} LostOnTwoWorkers(s0: Sock)
    requires Created(s0)
    ensures exists acts :: (var t := Exec(s0, acts);
                            t.unread > 0 && !t.ready && !t.edge && t.scheduled == 0
                            && !t.callback && t.reading == NoRead)
  {
    var acts := DataIsRead(s0);
    acts := MoreArrives(s0, acts);
    var t := Sock(true, 1, true, 0, true, Failed, 1, 1);
    acts := ExtendFour(s0, acts, t, Edge(true), HandlerElsewhere, Clear, Return);
    assert Exec(s0, acts) == Sock(false, 1, false, 0, false, NoRead, 1, 1);
  }

  /** What other threads may do while the worker is inside a socket call. */
  predicate Foreign(acts: seq<Act>) {
    forall i :: 0 <= i < |acts| ==> acts[i].Arrive? || acts[i].Edge? || acts[i].HandlerElsewhere?
  }

  lemma {:induction false} ForeignKeeps(s: Sock, acts: seq<Act>)
    requires Foreign(acts)
    ensures Exec(s, acts).reading == s.reading && (s.ready ==> Exec(s, acts).ready)
  {
    if acts != [] {
      ForeignKeeps(s, acts[..|acts| - 1]);
    }
  }

  lemma {:induction false} ExecSnoc(s: Sock, acts: seq<Act>, k: nat)
    requires k < |acts|
    ensures Exec(s, acts[..k + 1]) == Apply(Exec(s, acts[..k]), acts[k])
  {
    assert acts[..k + 1][..k] == acts[..k];
  }

  // ---- the code in its own form

  /** The read side of `struct edpnet_sock`; the results of `readv`/`read` are parameters. */
  class Reader {
    var ready: bool               // READ
    var bytes: int                // ioc_bytes of the last successful read
    var edge: bool                // what the epoll thread and the scheduler hold for this socket
    var scheduled: nat
    ghost var rest: Sock          // the kernel buffer and the history

    ghost function Abs(): Sock
      reads this
    {
      rest.(ready := ready, edge := edge, scheduled := scheduled)
    }

    /** `edpnet_sock_epollin_handler`; the result tells whether data_ready is called. */
    method EpollIn() returns (call: bool)
      requires scheduled > 0 && !Abs().callback && Abs().reading == NoRead
      modifies this
      ensures Abs() == Apply(old(Abs()), Handler)
      ensures call == !old(ready) && Abs().dataReady == old(Abs().dataReady) + (if call then 1 else 0)
      ensures bytes == old(bytes)
    {
      rest := Apply(Abs(), Handler);
      call := TakeEvent();
    }

    /** The locked test of READ, by whichever worker runs the handler. */
    method TakeEvent() returns (call: bool)
      requires scheduled > 0
      modifies this`ready, this`scheduled
      ensures ready && scheduled == old(scheduled) - 1 && call == !old(ready)
    {
      scheduled := scheduled - 1;
      call := false;
      if !ready {
        ready := true;
        call := true;
      }
    }

    /** An action of another thread. */
    method Act(a: Act)
      requires Foreign([a])
      modifies this
      ensures Abs() == Apply(old(Abs()), a) && bytes == old(bytes)
    {
      assert [a][0] == a;
      rest := Apply(Abs(), a);
      match a
      case Arrive(n) => edge := true;
      case Edge(dispatched) =>
        if edge {
          edge := false;
          scheduled := scheduled + if dispatched then 1 else 0;
        }
      case HandlerElsewhere =>
        if scheduled > 0 {
          var _ := TakeEvent();
        }
    }

    method Elsewhere(acts: seq<Act>)
      requires Foreign(acts)
      modifies this
      ensures Abs() == Exec(old(Abs()), acts) && bytes == old(bytes)
    {
      var k := 0;
      while k < |acts|
        invariant 0 <= k <= |acts| && Abs() == Exec(old(Abs()), acts[..k]) && bytes == old(bytes)
      {
        ExecSnoc(old(Abs()), acts, k);
        Act(acts[k]);
        k := k + 1;
      }
      assert acts[..|acts|] == acts;
    }

    /** `edpnet_sock_read`, while other threads act between the test of READ and the kernel's answer,
        and between the answer and the clearing of READ. Without READ the kernel is not asked; a
        negative answer clears READ. */
    method SockRead(result: int, before: seq<Act>, after: seq<Act>) returns (ret: int)
      requires Abs().reading == NoRead && Foreign(before) && Foreign(after)
      modifies this
      ensures Abs() == Apply(Exec(Apply(Exec(Apply(old(Abs()), Read), before), KernelReturns(result)), after), Clear)
      ensures ret == if old(ready) then result else -1
      ensures old(ready) ==> (ready <==> result >= 0)
      ensures bytes == if old(ready) && result >= 0 then result else old(bytes)
    {
      var asked := ready;
      rest := Apply(Abs(), Read);
      ForeignKeeps(Abs(), before);
      Elsewhere(before);
      ret := if asked then result else -1;
      rest := Apply(Abs(), KernelReturns(result));
      ForeignKeeps(Abs(), after);
      Elsewhere(after);
      rest := Apply(Abs(), Clear);
      if asked {
        if ret < 0 {
          ready := false;
        } else {
          bytes := ret;
        }
      }
    }
  }
}
