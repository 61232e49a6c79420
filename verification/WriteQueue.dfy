/**
 The write side of an edpnet socket (`posix/edpnet.c`): WRITE and CONNECT, the current write, the
 queue of pending writes, and user callbacks that write again before they return. The socket's
 handlers and calls are serialised on one worker, so the control state is one call stack.
 */
module WriteQueue {
  import opened Wrappers

  /** What the worker is in the middle of; the last frame of the stack is running. */
  datatype Frame =
    | User                                   // a user callback, free to call edpnet_sock_write
    | Direct(io: nat)                        // edpnet_sock_write, before its sock_write
    | AfterDirect                            // edpnet_sock_write, back from its callback
    | NextLoop(drain: bool)                  // sock_write_next, head of the loop
    | NextWrite(io: nat, drain: bool)        // sock_write_next, before its sock_write
    | NextEnd(nowrite: bool, drain: bool)    // sock_write_next, after the loop

  /** The callbacks of `es_cbs`. */
  datatype Notice = SockConnect | DataDrain | DataReady | SockError | SockClose

  /** Writes are named by their submission number. */
  datatype Sock = Sock(
    connect: bool,
    write: bool,
    current: Option<nat>,                    // es_write
    iowrites: seq<nat>,                      // es_iowrites
    pendios: int,                            // es_pendios
    stack: seq<Frame>,
    outEvents: nat,                          // EPOLLOUT events dispatched and not handled yet
    submitted: nat,                          // history
    completed: seq<(nat, int)>,              // history: write callbacks made, with their code
    notices: seq<Notice>)                    // history: calls of es_cbs

  datatype Act =
    | SockWrite                              // user code calls edpnet_sock_write
    | WriteReturns(ret: int)                 // result of writev or write: 0 is EAGAIN
    | Return                                 // a user callback returns
    | Continue(dispatched: bool)             // library code goes on
    | Edge(dispatched: bool)                 // the epoll thread reports EPOLLOUT; false: no event allocated
    | EpollOut                               // the handlers, called by the worker
    | EpollIn(ready: bool)                   // ready: READ was not set, so data_ready is called
    | EpollErr
    | EpollHup

  function Pop(s: seq<Frame>): seq<Frame>
    requires s != []
  {
    s[..|s| - 1]
  }

  /** `edpnet_sock_write` up to the unlock. */
  function SockWriteStep(s: Sock): Sock {
    if !s.write && s.current == None then
      s.(current := Some(s.submitted), write := true, submitted := s.submitted + 1,
         stack := s.stack + [Direct(s.submitted)])
    else
      s.(iowrites := s.iowrites + [s.submitted], pendios := s.pendios + 1, submitted := s.submitted + 1)
  }

  /** `sock_write` returned. Unless it was EAGAIN, es_write is cleared and the callback is called. */
  function WriteReturnsStep(s: Sock, ret: int): Sock
    requires s.stack != []
  {
    match s.stack[|s.stack| - 1]
    case Direct(io) =>
      if ret == 0 then s.(stack := Pop(s.stack))
      else s.(current := None, completed := s.completed + [(io, ret)],
              stack := Pop(s.stack) + [AfterDirect, User])
    case NextWrite(io, drain) =>
      if ret == 0 then s.(stack := Pop(s.stack) + [NextEnd(false, drain)])
      else s.(current := None, completed := s.completed + [(io, ret)],
              stack := Pop(s.stack) + [NextLoop(drain), User])
    case _ => s
  }

  function ContinueStep(s: Sock, dispatched: bool): Sock
    requires s.stack != []
  {
    match s.stack[|s.stack| - 1]
    case AfterDirect =>
      s.(outEvents := s.outEvents + (if dispatched then 1 else 0), stack := Pop(s.stack))
    case NextLoop(drain) =>
      if s.pendios <= 0 || s.iowrites == [] then s.(stack := Pop(s.stack) + [NextEnd(true, drain)])
      else s.(iowrites := s.iowrites[1..], pendios := s.pendios - 1, current := Some(s.iowrites[0]),
              stack := Pop(s.stack) + [NextWrite(s.iowrites[0], drain)])
    case NextEnd(nowrite, drain) =>
      if nowrite && !drain then
        s.(write := false, notices := s.notices + [DataDrain], stack := Pop(s.stack) + [User])
      else s.(stack := Pop(s.stack))
    case _ => s
  }

  /** `edpnet_sock_epollout_handler`. */
  function EpollOutStep(s: Sock): Sock
    requires s.outEvents > 0
  {
    var t := s.(outEvents := s.outEvents - 1);
    if !s.connect then t.(connect := true, notices := s.notices + [SockConnect], stack := s.stack + [User])
    else if s.write then
      match s.current
      case Some(io) => t.(current := None, completed := s.completed + [(io, 0)], stack := s.stack + [User])
      case None => t.(stack := s.stack + [NextLoop(true)])
    else t.(notices := s.notices + [DataDrain], stack := s.stack + [User])
  }

  predicate Top(s: Sock, f: Frame) {
    s.stack != [] && s.stack[|s.stack| - 1] == f
  }

  /** User code runs inside a callback, or on the worker between two handlers. */
  predicate InUserCode(s: Sock) {
    s.stack == [] || Top(s, User)
  }

  function Apply(s: Sock, a: Act): Sock {
    match a
    case SockWrite => if InUserCode(s) then SockWriteStep(s) else s
    case WriteReturns(ret) => if s.stack == [] then s else WriteReturnsStep(s, ret)
    case Return => if Top(s, User) then s.(stack := Pop(s.stack)) else s
    case Continue(dispatched) => if s.stack == [] then s else ContinueStep(s, dispatched)
    case Edge(dispatched) => if dispatched then s.(outEvents := s.outEvents + 1) else s
    case EpollOut => if s.stack == [] && s.outEvents > 0 then EpollOutStep(s) else s
    case EpollIn(ready) => if s.stack == [] && ready then s.(notices := s.notices + [DataReady], stack := [User]) else s
    case EpollErr => if s.stack == [] then s.(notices := s.notices + [SockError], stack := [User]) else s
    case EpollHup =>
      if s.stack == [] then s.(connect := false, notices := s.notices + [SockClose], stack := [User]) else s
  }

  function Exec(s: Sock, acts: seq<Act>): Sock {
    if acts == [] then s
    else Apply(Exec(s, acts[..|acts| - 1]), acts[|acts| - 1])
  }

  /** `edpnet_sock_create`: nothing submitted. */
  predicate Created(s: Sock) {
    && !s.connect && !s.write && s.current == None && s.iowrites == [] && s.pendios == 0
    && s.stack == [] && s.outEvents == 0 && s.submitted == 0 && s.completed == [] && s.notices == []
  }

  // ---- invariant

  function UpTo(n: nat): seq<nat> {
    seq(n, i => i)
  }

  function Finished(cs: seq<(nat, int)>): seq<nat> {
    seq(|cs|, i requires 0 <= i < |cs| => cs[i].0)
  }

  function CurrentWrite(s: Sock): seq<nat> {
    if s.current.Some? then [s.current.value] else []
  }

  /** Completed, then current, then pending writes are the submitted ones, in order. */
  predicate InOrder(s: Sock) {
    Finished(s.completed) + CurrentWrite(s) + s.iowrites == UpTo(s.submitted)
  }

  predicate DrainFrame(f: Frame) {
    f.NextLoop? || f.NextWrite? || f.NextEnd?
  }

  predicate Suspended(f: Frame) {
    f.User? || f.AfterDirect? || f.NextLoop?
  }

  ghost predicate Frames(s: Sock) {
    && (forall i :: 0 <= i < |s.stack| - 1 ==> Suspended(s.stack[i]))
    && (forall i :: 0 < i < |s.stack| ==> !DrainFrame(s.stack[i]))
    && (forall i :: 0 <= i < |s.stack| && s.stack[i].NextLoop? ==> s.write && s.current == None)
    && (s.stack != [] ==>
          match s.stack[|s.stack| - 1]
          case Direct(io) => s.write && s.current == Some(io)
          case NextWrite(io, _) => s.write && s.current == Some(io)
          case NextEnd(nowrite, _) => s.write && (if nowrite then s.current == None && s.iowrites == [] else s.current.Some?)
          case _ => true)
  }

  ghost predicate Inv(s: Sock) {
    && InOrder(s)
    && s.pendios == |s.iowrites|
    && (!s.write ==> s.current == None && s.iowrites == [])
    && Frames(s)
  }

  lemma {:induction false} FinishedSnoc(cs: seq<(nat, int)>, io: nat, code: int)
    ensures Finished(cs + [(io, code)]) == Finished(cs) + [io]
  {
  }

  lemma {:induction false} SubmitInOrder(s: Sock)
    requires Inv(s)
    ensures InOrder(SockWriteStep(s))
  {
    assert UpTo(s.submitted + 1) == UpTo(s.submitted) + [s.submitted];
  }

  lemma {:induction false} CompleteInOrder(s: Sock, code: int)
    requires InOrder(s) && s.current.Some?
    ensures InOrder(s.(current := None, completed := s.completed + [(s.current.value, code)]))
  {
    FinishedSnoc(s.completed, s.current.value, code);
  }

  lemma {:induction false} TakeInOrder(s: Sock)
    requires InOrder(s) && s.current == None && s.iowrites != []
    ensures InOrder(s.(current := Some(s.iowrites[0]), iowrites := s.iowrites[1..]))
  {
    assert s.iowrites == [s.iowrites[0]] + s.iowrites[1..];
  }

  lemma {:induction false} SockWriteKeeps(s: Sock)
    requires Inv(s) && InUserCode(s)
    ensures Inv(SockWriteStep(s))
  {
    SubmitInOrder(s);
  }

  lemma {:induction false} WriteReturnsKeeps(s: Sock, ret: int)
    requires Inv(s) && s.stack != []
    ensures Inv(WriteReturnsStep(s, ret))
  {
    if s.current.Some? {
      CompleteInOrder(s, ret);
    }
  }

  lemma {:induction false} ContinueKeeps(s: Sock, dispatched: bool)
    requires Inv(s) && s.stack != []
    ensures Inv(ContinueStep(s, dispatched))
  {
    if s.stack[|s.stack| - 1].NextLoop? && s.iowrites != [] {
      TakeInOrder(s);
    }
  }

  lemma {:induction false} EpollOutKeeps(s: Sock)
    requires Inv(s) && s.stack == [] && s.outEvents > 0
    ensures Inv(EpollOutStep(s))
  {
    if s.current.Some? {
      CompleteInOrder(s, 0);
    }
  }

  lemma {:induction false} InvStep(s: Sock, a: Act)
    requires Inv(s)
    ensures Inv(Apply(s, a))
  {
    match a
    case SockWrite => if InUserCode(s) { SockWriteKeeps(s); }
    case WriteReturns(ret) => if s.stack != [] { WriteReturnsKeeps(s, ret); }
    case Continue(dispatched) => if s.stack != [] { ContinueKeeps(s, dispatched); }
    case EpollOut => if s.stack == [] && s.outEvents > 0 { EpollOutKeeps(s); }
    case _ =>
  }

  lemma {:induction false} InvRun(s: Sock, acts: seq<Act>)
    requires Inv(s)
    ensures Inv(Exec(s, acts))
  {
    if acts != [] {
      InvRun(s, acts[..|acts| - 1]);
      InvStep(Exec(s, acts[..|acts| - 1]), acts[|acts| - 1]);
    }
  }

  lemma {:induction false} StartInv(s: Sock)
    requires Created(s)
    ensures Inv(s)
  {
  }

  // ---- results

  /** Write-queue safety: in every run, with callbacks nested to any depth, the submitted writes are
      the completed ones, then the current one, then the pending ones, in submission order. So each
      is in exactly one of the three, completes at most once, and completions are in order.
      Without WRITE there is neither a current nor a pending write. */
  lemma {:induction false} WriteQueueSafety(s0: Sock, acts: seq<Act>)
    requires Created(s0)
    ensures var t := Exec(s0, acts);
            && Finished(t.completed) + CurrentWrite(t) + t.iowrites == UpTo(t.submitted)
            && t.pendios == |t.iowrites|
            && (!t.write ==> t.current == None && t.iowrites == [])
  {
    StartInv(s0);
    InvRun(s0, acts);
  }

  /** The k-th callback is the one of the k-th submitted write. */
  lemma {:induction false} CompletionOrder(s0: Sock, acts: seq<Act>, k: nat)
    requires Created(s0) && k < |Exec(s0, acts).completed|
    ensures Exec(s0, acts).completed[k].0 == k
  {
    WriteQueueSafety(s0, acts);
    var t := Exec(s0, acts);
    assert UpTo(t.submitted)[k] == (Finished(t.completed) + CurrentWrite(t) + t.iowrites)[k];
  }

  // ---- WRITE is never cleared

  predicate Draining(s: Sock) {
    && (s.write <==> s.submitted > 0)
    && forall i :: 0 <= i < |s.stack| ==>
         && (s.stack[i].Direct? ==> s.stack[i].io == 0)
         && (DrainFrame(s.stack[i]) ==> s.stack[i].drain)
  }

  lemma {:induction false} DrainingReturns(s: Sock, ret: int)
    requires Draining(s) && s.stack != []
    ensures Draining(WriteReturnsStep(s, ret))
  {
  }

  lemma {:induction false} DrainingContinue(s: Sock, dispatched: bool)
    requires Draining(s) && s.stack != []
    ensures Draining(ContinueStep(s, dispatched))
  {
  }

  lemma {:induction false} DrainingStep(s: Sock, a: Act)
    requires Inv(s) && Draining(s)
    ensures Draining(Apply(s, a))
  {
    match a
    case WriteReturns(ret) => if s.stack != [] { DrainingReturns(s, ret); }
    case Continue(dispatched) => if s.stack != [] { DrainingContinue(s, dispatched); }
    case _ =>
  }

  /** The handlers drain with `drain == 1`, so WRITE is set by the first write and stays set: only
      the first write of a socket is ever handed to the kernel by `edpnet_sock_write` itself; each
      later one waits in the queue for an EPOLLOUT event. */
  lemma {:induction false} OnlyFirstWriteDirect(s0: Sock, acts: seq<Act>)
    requires Created(s0)
    ensures var t := Exec(s0, acts);
            && (t.write <==> t.submitted > 0)
            && forall i :: 0 <= i < |t.stack| && t.stack[i].Direct? ==> t.stack[i].io == 0
  {
    DrainingRun(s0, acts);
  }

  lemma {:induction false} DrainingRun(s0: Sock, acts: seq<Act>)
    requires Created(s0)
    ensures Draining(Exec(s0, acts))
  {
    if acts != [] {
      var before := acts[..|acts| - 1];
      DrainingRun(s0, before);
      StartInv(s0);
      InvRun(s0, before);
      DrainingStep(Exec(s0, before), acts[|acts| - 1]);
    }
  }

  /** Writes are pending, the socket is idle, and no EPOLLOUT event, of the socket's own or of the epoll
      thread, is on its way to start one. */
  predicate Stalled(s: Sock) {
    s.stack == [] && s.iowrites != [] && s.current == None && s.outEvents == 0
  }

  lemma {:induction false} ExecSnoc(s: Sock, acts: seq<Act>, a: Act)
    ensures Exec(s, acts + [a]) == Apply(Exec(s, acts), a)
  {
    assert (acts + [a])[..|acts|] == acts;
  }

  lemma {:induction false} Extend(s0: Sock, acts: seq<Act>, t: Sock, a: Act) returns (longer: seq<Act>)
    requires Exec(s0, acts) == t
    ensures longer == acts + [a] && Exec(s0, longer) == Apply(t, a)
  {
    longer := acts + [a];
    ExecSnoc(s0, acts, a);
  }

  /** An idle connected socket. */
  predicate Connected(s: Sock) {
    && s.connect && !s.write && s.current == None && s.iowrites == [] && s.pendios == 0
    && s.stack == [] && s.outEvents == 0
  }

  lemma {:induction false} Connect(s0: Sock) returns (acts: seq<Act>)
    requires Created(s0)
    ensures Connected(Exec(s0, acts))
  {
    acts := Extend(s0, [], s0, Edge(true));
    acts := Extend(s0, acts, Apply(s0, Edge(true)), EpollOut);
    var t := Exec(s0, acts);
    assert t == s0.(connect := true, stack := [User], notices := [SockConnect]);
    acts := Extend(s0, acts, t, Return);
    assert Pop([User]) == [];
  }

  /** Submit a write that completes at once; its callback returns. */
  lemma {:induction false} WriteAtOnce(s: Sock)
    requires Connected(s)
    ensures var t := Apply(Apply(Apply(s, SockWrite), WriteReturns(1)), Return);
            t.connect && t.write && t.current == None && t.iowrites == [] && t.pendios == 0
            && t.stack == [AfterDirect] && t.outEvents == 0
  {
    var io := s.submitted;
    var t1 := Apply(s, SockWrite);
    assert t1.stack == [Direct(io)];
    assert Pop([Direct(io)]) == [] && [] + [AfterDirect, User] == [AfterDirect, User];
    var t2 := Apply(t1, WriteReturns(1));
    assert t2.stack == [AfterDirect, User];
    assert Pop([AfterDirect, User]) == [AfterDirect];
  }

  lemma {:induction false} FirstWrite(s0: Sock) returns (acts: seq<Act>)
    requires Created(s0)
    ensures var t := Exec(s0, acts);
            t.connect && t.write && t.current == None && t.iowrites == [] && t.pendios == 0
            && t.stack == [AfterDirect] && t.outEvents == 0
  {
    acts := Connect(s0);
    var s := Exec(s0, acts);
    WriteAtOnce(s);
    acts := Extend(s0, acts, s, SockWrite);
    acts := Extend(s0, acts, Apply(s, SockWrite), WriteReturns(1));
    acts := Extend(s0, acts, Apply(Apply(s, SockWrite), WriteReturns(1)), Return);
  }

  /** Four steps of the worker from a state `s`: the self-dispatched event finds nothing to write. */
  lemma {:induction false} DrainEmpty(s: Sock)
    requires s.connect && s.write && s.current == None && s.iowrites == [] && s.pendios == 0
    requires s.stack == [AfterDirect] && s.outEvents == 0
    ensures var t := Apply(Apply(Apply(Apply(s, Continue(true)), EpollOut), Continue(true)), Continue(true));
            t == s.(stack := [])
  {
    var t1 := Apply(s, Continue(true));
    assert t1 == s.(stack := [], outEvents := 1);
    var t2 := Apply(t1, EpollOut);
    assert t2 == s.(stack := [NextLoop(true)]);
    var t3 := Apply(t2, Continue(true));
    assert Pop(t2.stack) == [];
    assert t3 == s.(stack := [NextEnd(true, true)]);
    assert Pop(t3.stack) == [];
  }

  /** A socket at rest whose first write was completed at once takes the second one into its queue
      and leaves it there: delivery then depends on an EPOLLOUT edge from the kernel. */
  lemma {:induction false} SecondWriteStalls(s0: Sock)
    requires Created(s0)
    ensures exists acts :: Stalled(Exec(s0, acts))
  {
    var acts := FirstWrite(s0);
    var s := Exec(s0, acts);
    DrainEmpty(s);
    var t1 := Apply(s, Continue(true));
    acts := Extend(s0, acts, s, Continue(true));
    var t2 := Apply(t1, EpollOut);
    acts := Extend(s0, acts, t1, EpollOut);
    var t3 := Apply(t2, Continue(true));
    acts := Extend(s0, acts, t2, Continue(true));
    acts := Extend(s0, acts, t3, Continue(true));
    acts := Extend(s0, acts, s.(stack := []), SockWrite);
  }

  /** The steps that leave writes behind with nothing on its way to start one: a write submitted between
      handlers while WRITE is set; the last return of a callback with writes pending, as after an
      EPOLLOUT event has completed a current write; an event that could not be allocated. */
  predicate Stalling(s: Sock, a: Act) {
    && s.current == None && s.outEvents == 0
    && (|| (a == SockWrite && s.stack == [] && s.write)
        || (a == Return && s.stack == [User] && s.iowrites != [])
        || (a == Continue(false) && s.stack == [AfterDirect] && s.iowrites != []))
  }

  lemma {:induction false} OnlyFrame(stack: seq<Frame>, f: Frame)
    requires stack != [] && stack[|stack| - 1] == f
    ensures stack == [f] <==> Pop(stack) == []
  {
    assert stack == Pop(stack) + [f];
  }

  lemma {:induction false} ReturnStalls(s: Sock)
    requires Inv(s) && Top(s, User)
    ensures Stalled(Apply(s, Return)) <==> Stalling(s, Return)
  {
    OnlyFrame(s.stack, User);
  }

  lemma {:induction false} DispatchStalls(s: Sock, dispatched: bool)
    requires Inv(s) && Top(s, AfterDirect)
    ensures Stalled(ContinueStep(s, dispatched)) <==> Stalling(s, Continue(dispatched))
  {
    OnlyFrame(s.stack, AfterDirect);
  }

  /** The loop of `sock_write_next` leaves a current write, nothing pending, or a callback. */
  lemma {:induction false} DrainStalls(s: Sock, dispatched: bool)
    requires Inv(s) && s.stack != [] && s.stack[|s.stack| - 1] != AfterDirect
    ensures s.stack[|s.stack| - 1].NextLoop? || s.stack[|s.stack| - 1].NextEnd? ==>
              !Stalled(ContinueStep(s, dispatched))
    ensures !s.stack[|s.stack| - 1].NextLoop? && !s.stack[|s.stack| - 1].NextEnd? ==>
              ContinueStep(s, dispatched) == s
  {
  }

  lemma {:induction false} ContinueStalls(s: Sock, dispatched: bool)
    requires Inv(s) && s.stack != [] && !Stalled(s)
    ensures Stalled(ContinueStep(s, dispatched)) <==> Stalling(s, Continue(dispatched))
  {
    if Top(s, AfterDirect) {
      DispatchStalls(s, dispatched);
    } else {
      DrainStalls(s, dispatched);
    }
  }

  lemma {:induction false} WriteReturnsStalls(s: Sock, ret: int)
    requires Inv(s) && s.stack != []
    ensures !Stalled(Apply(s, WriteReturns(ret)))
  {
  }

  /** The exact condition: a step of any kind makes a socket stall if and only if it is one of
      these three. */
  lemma {:induction false} StallsIff(s: Sock, a: Act)
    requires Inv(s) && !Stalled(s)
    ensures Stalled(Apply(s, a)) <==> Stalling(s, a)
  {
    match a
    case Return => if Top(s, User) { ReturnStalls(s); }
    case Continue(dispatched) => if s.stack != [] { ContinueStalls(s, dispatched); }
    case WriteReturns(ret) => if s.stack != [] { WriteReturnsStalls(s, ret); }
    case _ =>
  }

  predicate NoStallingStep(s: Sock, acts: seq<Act>) {
    acts == []
    || (var before := acts[..|acts| - 1];
        NoStallingStep(s, before) && !Stalling(Exec(s, before), acts[|acts| - 1]))
  }

  predicate NeverStalled(s: Sock, acts: seq<Act>) {
    !Stalled(Exec(s, acts)) && (acts == [] || NeverStalled(s, acts[..|acts| - 1]))
  }

  /** Over every run: at no moment are writes left behind if and only if no step is one of the three. */
  lemma {:induction false} NeverStalledIff(s0: Sock, acts: seq<Act>)
    requires Created(s0)
    ensures NeverStalled(s0, acts) <==> NoStallingStep(s0, acts)
  {
    if acts != [] {
      var before := acts[..|acts| - 1];
      NeverStalledIff(s0, before);
      StartInv(s0);
      InvRun(s0, before);
      if NeverStalled(s0, before) {
        StallsIff(Exec(s0, before), acts[|acts| - 1]);
      }
    }
  }

  // ---- the second way to stall

  /** The first write blocks, a second one is queued. */
  lemma {:induction false} BlockedWrite(s: Sock)
    requires Connected(s)
    ensures var t := Apply(Apply(Apply(s, SockWrite), WriteReturns(0)), SockWrite);
            && t.connect && t.write && t.current.Some? && t.iowrites == [s.submitted + 1]
            && t.stack == [] && t.outEvents == 0
  {
    var io := s.submitted;
    var t1 := Apply(s, SockWrite);
    assert t1.stack == [Direct(io)];
    var t2 := Apply(t1, WriteReturns(0));
    assert Pop([Direct(io)]) == [] && t2.stack == [];
  }

  /** An EPOLLOUT event completes the blocked write, and its callback returns. */
  lemma {:induction false} UnblockedWrite(s: Sock)
    requires s.connect && s.write && s.current.Some? && s.iowrites != [] && s.stack == [] && s.outEvents == 0
    ensures Stalled(Apply(Apply(Apply(s, Edge(true)), EpollOut), Return))
  {
    var t := Apply(Apply(s, Edge(true)), EpollOut);
    assert t.stack == [User];
    assert Pop([User]) == [];
  }

  lemma {:induction false} ThreeMore(s0: Sock, acts: seq<Act>, s: Sock, a: Act, b: Act, c: Act)
    returns (longer: seq<Act>)
    requires Exec(s0, acts) == s
    ensures Exec(s0, longer) == Apply(Apply(Apply(s, a), b), c)
    ensures longer != [] && longer[|longer| - 1] == c
  {
    longer := Extend(s0, acts, s, a);
    longer := Extend(s0, longer, Apply(s, a), b);
    longer := Extend(s0, longer, Apply(Apply(s, a), b), c);
  }

  /** The EPOLLOUT event completes the blocked write, its callback returns, and the queued write is
      left behind although the socket is writable. */
  lemma {:induction false} WritableButStalled(s0: Sock)
    requires Created(s0)
    ensures exists acts :: Stalled(Exec(s0, acts)) && acts != [] && acts[|acts| - 1] == Return
  {
    var acts := Connect(s0);
    var s := Exec(s0, acts);
    BlockedWrite(s);
    acts := ThreeMore(s0, acts, s, SockWrite, WriteReturns(0), SockWrite);
    var t := Exec(s0, acts);
    UnblockedWrite(t);
    acts := ThreeMore(s0, acts, t, Edge(true), EpollOut, Return);
  }
}
