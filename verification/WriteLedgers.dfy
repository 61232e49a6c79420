/**
 What happens on a socket, and how often, over every run: each direct write that does not block is followed
 by one self-dispatch, and events, connection, completion codes and callbacks are those of the steps taken.
 */
module WriteLedgers {
  import opened WriteQueue

  predicate TopDirect(s: Sock) {
    s.stack != [] && s.stack[|s.stack| - 1].Direct?
  }

  predicate TopNextWrite(s: Sock) {
    s.stack != [] && s.stack[|s.stack| - 1].NextWrite?
  }

  /** The kernel answers a direct write with anything but EAGAIN: success or failure. */
  predicate Answers(s: Sock, a: Act) {
    a.WriteReturns? && a.ret != 0 && TopDirect(s)
  }

  /** `edpnet_sock_dispatch`, at the end of edpnet_sock_write. */
  predicate Attempts(s: Sock, a: Act) {
    a.Continue? && Top(s, AfterDirect)
  }

  /** The worker runs the EPOLLOUT handler. */
  predicate Handles(s: Sock, a: Act) {
    a.EpollOut? && s.stack == [] && s.outEvents > 0
  }

  function One(b: bool): nat {
    if b then 1 else 0
  }

  // ---- one attempt for each direct write

  /** Calls of edpnet_sock_write that are in their callback or back from it. */
  function Owing(stack: seq<Frame>): nat {
    if stack == [] then 0 else Owing(stack[..|stack| - 1]) + One(stack[|stack| - 1] == AfterDirect)
  }

  lemma {:induction false} OwingPush(stack: seq<Frame>, f: Frame)
    ensures Owing(stack + [f]) == Owing(stack) + One(f == AfterDirect)
  {
    assert (stack + [f])[..|stack|] == stack;
  }

  lemma {:induction false} OwingTwo(stack: seq<Frame>, f: Frame, g: Frame)
    ensures Owing(stack + [f, g]) == Owing(stack) + One(f == AfterDirect) + One(g == AfterDirect)
  {
    OwingPush(stack, f);
    OwingPush(stack + [f], g);
    assert stack + [f, g] == stack + [f] + [g];
  }

  lemma {:induction false} ReturnsOwe(s: Sock, ret: int)
    requires s.stack != []
    ensures Owing(WriteReturnsStep(s, ret).stack) == Owing(s.stack) + One(ret != 0 && TopDirect(s))
  {
    var rest := Pop(s.stack);
    match s.stack[|s.stack| - 1]
    case Direct(io) =>
      OwingTwo(rest, AfterDirect, User);
    case NextWrite(io, drain) =>
      OwingPush(rest, NextEnd(false, drain));
      OwingTwo(rest, NextLoop(drain), User);
    case _ =>
  }

  lemma {:induction false} ContinueOwes(s: Sock, dispatched: bool)
    requires s.stack != []
    ensures Owing(ContinueStep(s, dispatched).stack) == Owing(s.stack) - One(Top(s, AfterDirect))
  {
    var rest := Pop(s.stack);
    match s.stack[|s.stack| - 1]
    case NextLoop(drain) =>
      OwingPush(rest, NextEnd(true, drain));
      if s.iowrites != [] {
        OwingPush(rest, NextWrite(s.iowrites[0], drain));
      }
    case NextEnd(_, _) =>
      OwingPush(rest, User);
    case _ =>
  }

  lemma {:induction false} OutOwes(s: Sock)
    requires s.outEvents > 0
    ensures Owing(EpollOutStep(s).stack) == Owing(s.stack)
  {
    OwingPush(s.stack, User);
    OwingPush(s.stack, NextLoop(true));
  }

  lemma {:induction false} SubmitOwes(s: Sock)
    ensures Owing(SockWriteStep(s).stack) == Owing(s.stack)
  {
    OwingPush(s.stack, Direct(s.submitted));
  }

  lemma {:induction false} OwingStep(s: Sock, a: Act)
    ensures Owing(Apply(s, a).stack) == Owing(s.stack) + One(Answers(s, a)) - One(Attempts(s, a))
  {
    match a
    case SockWrite => SubmitOwes(s);
    case WriteReturns(ret) => if s.stack != [] { ReturnsOwe(s, ret); }
    case Continue(dispatched) => if s.stack != [] { ContinueOwes(s, dispatched); }
    case EpollOut => if s.stack == [] && s.outEvents > 0 { OutOwes(s); }
    case Return => 
    case _ => OwingPush([], User);
  }

  function Answered(s0: Sock, acts: seq<Act>): nat {
    if acts == [] then 0
    else Answered(s0, acts[..|acts| - 1]) + One(Answers(Exec(s0, acts[..|acts| - 1]), acts[|acts| - 1]))
  }

  function Attempted(s0: Sock, acts: seq<Act>): nat {
    if acts == [] then 0
    else Attempted(s0, acts[..|acts| - 1]) + One(Attempts(Exec(s0, acts[..|acts| - 1]), acts[|acts| - 1]))
  }

  /** Each direct write the kernel answers, with a failure or a success, is followed by exactly one attempt
      to dispatch EPOLLOUT to the socket itself, after its callback has returned: at every moment the
      answers are the attempts and the calls that still owe one; on an idle socket, the attempts. */
  lemma {:induction false} OneAttemptEach(s0: Sock, acts: seq<Act>)
    requires Created(s0)
    ensures var t := Exec(s0, acts);
            && Answered(s0, acts) == Attempted(s0, acts) + Owing(t.stack)
            && (t.stack == [] ==> Answered(s0, acts) == Attempted(s0, acts))
  {
    if acts != [] {
      OneAttemptEach(s0, acts[..|acts| - 1]);
      OwingStep(Exec(s0, acts[..|acts| - 1]), acts[|acts| - 1]);
    }
  }

  // ---- what the steps say

  /** EPOLLOUT events: reported by the epoll thread or dispatched by the socket, less those handled. */
  function Scheduled(s0: Sock, acts: seq<Act>): int {
    if acts == [] then 0
    else
      var s, a := Exec(s0, acts[..|acts| - 1]), acts[|acts| - 1];
      Scheduled(s0, acts[..|acts| - 1])
      + One(a == Edge(true)) + One(a == Continue(true) && Top(s, AfterDirect)) - One(Handles(s, a))
  }

  /** Has the socket handled an EPOLLOUT event since it last hung up? */
  function Up(s0: Sock, acts: seq<Act>): bool {
    if acts == [] then false
    else
      var s, a := Exec(s0, acts[..|acts| - 1]), acts[|acts| - 1];
      if Handles(s, a) then true
      else if a == EpollHup && s.stack == [] then false
      else Up(s0, acts[..|acts| - 1])
  }

  /** The codes of the write callbacks: what the kernel answered, and 0 for a write that an EPOLLOUT event of a
      connected socket completes. */
  function Codes(s0: Sock, acts: seq<Act>): seq<int> {
    if acts == [] then []
    else
      var s, a := Exec(s0, acts[..|acts| - 1]), acts[|acts| - 1];
      Codes(s0, acts[..|acts| - 1])
      + if a.WriteReturns? && a.ret != 0 && (TopDirect(s) || TopNextWrite(s)) then [a.ret]
        else if Handles(s, a) && s.connect && s.current.Some? then [0]
        else []
  }

  /** The calls of es_cbs: connect for the first EPOLLOUT event since the socket went down, drain for one
      without WRITE, and one for each reported end of data, error and hang-up. */
  function Notices(s0: Sock, acts: seq<Act>): seq<Notice> {
    if acts == [] then []
    else
      var s, a := Exec(s0, acts[..|acts| - 1]), acts[|acts| - 1];
      Notices(s0, acts[..|acts| - 1])
      + if Handles(s, a) && !s.connect then [SockConnect]
        else if Handles(s, a) && !s.write then [DataDrain]
        else if s.stack != [] then []
        else if a == EpollIn(true) then [DataReady]
        else if a == EpollErr then [SockError]
        else if a == EpollHup then [SockClose]
        else []
  }

  function CodesOf(cs: seq<(nat, int)>): seq<int> {
    seq(|cs|, i requires 0 <= i < |cs| => cs[i].1)
  }

  lemma {:induction false} CodesSnoc(cs: seq<(nat, int)>, io: nat, code: int)
    ensures CodesOf(cs + [(io, code)]) == CodesOf(cs) + [code]
  {
  }

  ghost predicate Tallied(s0: Sock, acts: seq<Act>) {
    var t := Exec(s0, acts);
    && t.outEvents == Scheduled(s0, acts)
    && t.connect == Up(s0, acts)
    && CodesOf(t.completed) == Codes(s0, acts)
    && t.notices == Notices(s0, acts)
  }

  lemma {:induction false} CodeStep(s: Sock, a: Act)
    requires Inv(s)
    ensures CodesOf(Apply(s, a).completed) == CodesOf(s.completed)
      + if a.WriteReturns? && a.ret != 0 && (TopDirect(s) || TopNextWrite(s)) then [a.ret]
        else if Handles(s, a) && s.connect && s.current.Some? then [0]
        else []
  {
    match a
    case WriteReturns(ret) =>
      if s.stack != [] && s.current.Some? {
        CodesSnoc(s.completed, s.current.value, ret);
      }
    case EpollOut =>
      if s.current.Some? {
        CodesSnoc(s.completed, s.current.value, 0);
      }
    case _ =>
  }

  lemma {:induction false} NoticeStep(s: Sock, a: Act)
    requires Inv(s) && Draining(s)
    ensures Apply(s, a).notices == s.notices
      + if Handles(s, a) && !s.connect then [SockConnect]
        else if Handles(s, a) && !s.write then [DataDrain]
        else if s.stack != [] then []
        else if a == EpollIn(true) then [DataReady]
        else if a == EpollErr then [SockError]
        else if a == EpollHup then [SockClose]
        else []
  {
  }

  /** Over every run: the EPOLLOUT events on their way, the connection, the code of each completed write and
      the callbacks made are exactly those that the steps of the run call for. */
  lemma {:induction false} RunTallied(s0: Sock, acts: seq<Act>)
    requires Created(s0)
    ensures Tallied(s0, acts)
  {
    if acts != [] {
      var before := acts[..|acts| - 1];
      RunTallied(s0, before);
      StartInv(s0);
      InvRun(s0, before);
      DrainingRun(s0, before);
      CodeStep(Exec(s0, before), acts[|acts| - 1]);
      NoticeStep(Exec(s0, before), acts[|acts| - 1]);
      EventStep(Exec(s0, before), acts[|acts| - 1]);
    }
  }

  lemma {:induction false} EventStep(s: Sock, a: Act)
    ensures var t := Apply(s, a);
            && t.outEvents == s.outEvents + One(a == Edge(true)) + One(a == Continue(true) && Top(s, AfterDirect))
                              - One(Handles(s, a))
            && t.connect == if Handles(s, a) then true else if a == EpollHup && s.stack == [] then false else s.connect
  {
  }
}
