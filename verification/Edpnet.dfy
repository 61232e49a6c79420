/**
 The write side of `posix/edpnet.c` in its own form: an object with `es_status`, `es_write`,
 `es_iowrites` and `es_pendios`, updated in place. The results of `writev`/`write` and the code of
 the user's callbacks are parameters. Each method is proved to perform a run of `WriteQueue`.
 */
module Edpnet {
  import opened Wrappers
  import opened WriteQueue

  /** The callbacks made since `was` are those of the next `count` writes, with these results. */
  ghost predicate CompletedWith(now: seq<(nat, int)>, was: seq<(nat, int)>, rets: seq<int>, count: nat) {
    && count <= |rets| && |now| == |was| + count && was <= now
    && forall k :: 0 <= k < count ==> rets[k] != 0 && now[|was| + k] == (|was| + k, rets[k])
  }

  lemma {:induction false} CompletedMore(now: seq<(nat, int)>, was: seq<(nat, int)>, rets: seq<int>, count: nat)
    requires CompletedWith(now, was, rets, count) && count < |rets| && rets[count] != 0
    ensures CompletedWith(now + [(|now|, rets[count])], was, rets, count + 1)
  {
  }

  /** User code: it submits writes one after the other. A write the library tries at once returns `ret`;
      unless that is 0, its callback runs `nested`, and then the self-dispatch succeeds or not. */
  datatype Script = Done | Write(ret: int, nested: Script, dispatched: bool, next: Script)

  function Length(u: Script): nat {
    match u
    case Done => 0
    case Write(_, _, _, next) => 1 + Length(next)
  }

  class Socket {
    var connect: bool
    var write: bool
    var current: Option<nat>
    var iowrites: seq<nat>
    var pendios: int
    var outEvents: nat
    var submitted: nat
    ghost var stack: seq<Frame>
    ghost var completed: seq<(nat, int)>
    ghost var notices: seq<Notice>

    ghost function Abs(): Sock
      reads this
    {
      Sock(connect, write, current, iowrites, pendios, stack, outEvents, submitted, completed, notices)
    }

    ghost predicate Valid()
      reads this
    {
      Inv(Abs())
    }

    constructor ()
      ensures Created(Abs()) && Valid()
    {
      connect, write, current, iowrites, pendios := false, false, None, [], 0;
      outEvents, submitted, stack, completed, notices := 0, 0, [], [], [];
    }

    /** One action, recorded at the end of a run from `s0`. */
    ghost method Record(s0: Sock, before: seq<Act>, a: Act, now: Sock) returns (trace: seq<Act>)
      requires now == Apply(Exec(s0, before), a)
      ensures trace == before + [a] && Exec(s0, trace) == now
    {
      trace := before + [a];
      ExecSnoc(s0, before, a);
    }

    /** `edpnet_sock_write` up to the unlock; tells whether the write is to be tried at once. */
    method Submit() returns (direct: bool)
      requires Valid() && InUserCode(Abs())
      modifies this
      ensures Valid() && Abs() == SockWriteStep(old(Abs()))
      ensures direct <==> !old(write)
      ensures completed == old(completed) && submitted == old(submitted) + 1 && write
      ensures connect == old(connect) && outEvents == old(outEvents)
      ensures !direct ==> current == old(current) && old(iowrites) <= iowrites
      ensures if direct then Top(Abs(), Direct(old(submitted))) && Pop(stack) == old(stack)
              else stack == old(stack)
    {
      SockWriteKeeps(Abs());
      direct := !write && current == None;
      if direct {
        current, write := Some(submitted), true;
        stack := stack + [Direct(submitted)];
      } else {
        iowrites := iowrites + [submitted];
        pendios := pendios + 1;
      }
      submitted := submitted + 1;
    }

    /** User code, inside a callback or between two handlers. While WRITE is set its writes only queue. */
    method RunUser(u: Script, ghost s0: Sock, ghost before: seq<Act>) returns (ghost trace: seq<Act>)
      requires Valid() && Abs() == Exec(s0, before) && InUserCode(Abs())
      modifies this
      ensures Valid() && Abs() == Exec(s0, trace)
      ensures stack == old(stack) && connect == old(connect) && old(completed) <= completed
      ensures old(write) ==>
        && write && current == old(current) && completed == old(completed) && outEvents == old(outEvents)
        && submitted == old(submitted) + Length(u) && old(iowrites) <= iowrites
      decreases u, 0
    {
      trace := before;
      match u
      case Done =>
      case Write(ret, nested, dispatched, next) =>
        var _, t := WriteOnce(ret, nested, dispatched, s0, trace);
        trace := RunUser(next, s0, t);
    }

    /** A user callback: its code, and the return to the library. */
    method RunCallback(u: Script, ghost s0: Sock, ghost before: seq<Act>) returns (ghost trace: seq<Act>)
      requires Valid() && Abs() == Exec(s0, before) && Top(Abs(), User)
      modifies this
      ensures Valid() && Abs() == Exec(s0, trace)
      ensures stack == Pop(old(stack)) && connect == old(connect) && old(completed) <= completed
      ensures old(write) ==>
        && write && current == old(current) && completed == old(completed) && outEvents == old(outEvents)
        && submitted == old(submitted) + Length(u) && old(iowrites) <= iowrites
      decreases u, 1
    {
      trace := RunUser(u, s0, before);
      InvStep(Abs(), Return);
      stack := Pop(stack);
      trace := Record(s0, trace, Return, Abs());
    }

    /** `edpnet_sock_write`: submit; if the socket has never written, try the write, call back, and
        dispatch an EPOLLOUT event to the socket itself. */
    method SockWrite(ret: int, u: Script, dispatched: bool) returns (result: int, ghost trace: seq<Act>)
      requires Valid() && InUserCode(Abs())
      modifies this
      ensures Valid() && Abs() == Exec(old(Abs()), trace)
      ensures stack == old(stack) && write && connect == old(connect)
      ensures result == if old(write) then 0 else ret
      ensures completed == old(completed) + (if old(write) || ret == 0 then [] else [(old(submitted), ret)])
      ensures outEvents == old(outEvents) + if !old(write) && ret != 0 && dispatched then 1 else 0
      ensures old(write) ==> submitted == old(submitted) + 1 && current == old(current) && old(iowrites) <= iowrites
    {
      result, trace := WriteOnce(ret, u, dispatched, Abs(), []);
    }

    method WriteOnce(ret: int, u: Script, dispatched: bool, ghost s0: Sock, ghost before: seq<Act>)
      returns (result: int, ghost trace: seq<Act>)
      requires Valid() && Abs() == Exec(s0, before) && InUserCode(Abs())
      modifies this
      ensures Valid() && Abs() == Exec(s0, trace)
      ensures stack == old(stack) && connect == old(connect) && write
      ensures result == if old(write) then 0 else ret
      ensures completed == old(completed) + (if old(write) || ret == 0 then [] else [(old(submitted), ret)])
      ensures outEvents == old(outEvents) + if !old(write) && ret != 0 && dispatched then 1 else 0
      ensures old(write) ==>
        && current == old(current) && outEvents == old(outEvents)
        && submitted == old(submitted) + 1 && old(iowrites) <= iowrites
      decreases u, 4
    {
      var io := submitted;
      var direct, t := SubmitOnce(s0, before);
      trace := t;
      if direct {
        trace := WriteDirect(io, ret, u, dispatched, s0, trace);
        result := ret;
      } else {
        result := 0;
      }
    }

    method SubmitOnce(ghost s0: Sock, ghost before: seq<Act>) returns (direct: bool, ghost trace: seq<Act>)
      requires Valid() && Abs() == Exec(s0, before) && InUserCode(Abs())
      modifies this
      ensures Valid() && Abs() == Exec(s0, trace)
      ensures direct <==> !old(write)
      ensures completed == old(completed) && submitted == old(submitted) + 1 && write
      ensures connect == old(connect) && outEvents == old(outEvents)
      ensures !direct ==> current == old(current) && old(iowrites) <= iowrites
      ensures if direct then Top(Abs(), Direct(old(submitted))) && Pop(stack) == old(stack)
              else stack == old(stack)
    {
      direct := Submit();
      trace := Record(s0, before, Act.SockWrite, Abs());
    }

    /** The unlocked part: unless the write would block, call back and then dispatch. */
    method WriteDirect(io: nat, ret: int, u: Script, dispatched: bool, ghost s0: Sock, ghost before: seq<Act>)
      returns (ghost trace: seq<Act>)
      requires Valid() && Abs() == Exec(s0, before) && Top(Abs(), Direct(io))
      modifies this
      ensures Valid() && Abs() == Exec(s0, trace)
      ensures stack == Pop(old(stack)) && connect == old(connect) && write
      ensures completed == old(completed) + (if ret == 0 then [] else [(io, ret)])
      ensures outEvents == old(outEvents) + if ret != 0 && dispatched then 1 else 0
      decreases u, 3
    {
      WriteReturnsKeeps(Abs(), ret);
      ghost var rest := Pop(stack);
      if ret == 0 {
        stack := rest;
        trace := Record(s0, before, WriteReturns(ret), Abs());
      } else {
        current := None;
        completed := completed + [(io, ret)];
        stack := rest + [AfterDirect, User];
        trace := Record(s0, before, WriteReturns(ret), Abs());
        trace := CallbackThenDispatch(u, dispatched, rest, s0, trace);
      }
    }

    method CallbackThenDispatch(u: Script, dispatched: bool, ghost rest: seq<Frame>, ghost s0: Sock,
                                ghost before: seq<Act>)
      returns (ghost trace: seq<Act>)
      requires Valid() && Abs() == Exec(s0, before) && stack == rest + [AfterDirect, User] && write
      modifies this
      ensures Valid() && Abs() == Exec(s0, trace)
      ensures stack == rest && completed == old(completed) && connect == old(connect) && write
      ensures outEvents == old(outEvents) + if dispatched then 1 else 0
      decreases u, 2
    {
      assert Pop(stack) == rest + [AfterDirect];
      trace := RunCallback(u, s0, before);
      ContinueKeeps(Abs(), dispatched);
      if dispatched {
        outEvents := outEvents + 1;
      }
      assert Pop(stack) == rest;
      stack := Pop(stack);
      trace := Record(s0, trace, Continue(dispatched), Abs());
    }

    /** The locked region at the head of the loop of `sock_write_next`. */
    method TakeNext(drain: bool, ghost s0: Sock, ghost before: seq<Act>) returns (io: nat, ghost trace: seq<Act>)
      requires Valid() && Abs() == Exec(s0, before) && stack == [NextLoop(drain)] && pendios > 0
      modifies this
      ensures Valid() && Abs() == Exec(s0, trace) && stack == [NextWrite(io, drain)]
      ensures io == |completed| && completed == old(completed) && connect == old(connect) && write
    {
      HeadIsNext(Abs());
      InvStep(Abs(), Continue(true));
      io := iowrites[0];
      iowrites := iowrites[1..];
      pendios := pendios - 1;
      current := Some(io);
      stack := [NextWrite(io, drain)];
      assert Pop([NextLoop(drain)]) + [NextWrite(io, drain)] == stack;
      trace := Record(s0, before, Continue(true), Abs());
    }

    /** One turn of the loop: a write that would block ends it, any other is completed. */
    method Turn(drain: bool, ret: int, u: Script, ghost s0: Sock, ghost before: seq<Act>)
      returns (ghost trace: seq<Act>)
      requires Valid() && Abs() == Exec(s0, before) && stack == [NextLoop(drain)] && pendios > 0
      modifies this
      ensures Valid() && Abs() == Exec(s0, trace) && connect == old(connect)
      ensures ret == 0 ==> stack == [] && current == Some(|completed|) && write && completed == old(completed)
      ensures ret != 0 ==> stack == [NextLoop(drain)] && completed == old(completed) + [(|old(completed)|, ret)]
    {
      var io, t := TakeNext(drain, s0, before);
      trace := WriteReturned(io, drain, ret, s0, t);
      if ret == 0 {
        trace := Leave(false, drain, s0, trace);
      } else {
        assert Pop(stack) == [NextLoop(drain)];
        trace := RunCallback(u, s0, trace);
      }
    }

    /** `sock_write_next`, called by the EPOLLOUT handler. The k-th `sock_write` returns `rets[k]`
        (EAGAIN beyond the end), and its callback runs `users[k]`. It completes
        pending writes in submission order until one would block or none is left. */
    method SockWriteNext(drain: bool, rets: seq<int>, users: seq<Script>, ghost s0: Sock, ghost before: seq<Act>)
      returns (count: nat, ghost trace: seq<Act>)
      requires Valid() && Abs() == Exec(s0, before) && stack == [NextLoop(drain)]
      modifies this
      ensures Valid() && Abs() == Exec(s0, trace) && connect == old(connect)
      ensures CompletedWith(completed, old(completed), rets, count)
      ensures stack == if drain || current.Some? then [] else [User]
      ensures if current.Some? then current == Some(|completed|) && write
              else iowrites == [] && write == drain
    {
      count := 0;
      trace := before;
      while pendios > 0
        invariant Valid() && Abs() == Exec(s0, trace) && stack == [NextLoop(drain)]
        invariant connect == old(connect) && CompletedWith(completed, old(completed), rets, count)
        decreases |rets| - count
      {
        var ret := if count < |rets| then rets[count] else 0;
        ghost var now := completed;
        trace := Turn(drain, ret, if count < |users| then users[count] else Done, s0, trace);
        if ret == 0 {
          return;
        }
        CompletedMore(now, old(completed), rets, count);
        count := count + 1;
      }
      trace := NoneLeft(drain, s0, trace);
    }

    /** The exit of the loop with no pending write. */
    method NoneLeft(drain: bool, ghost s0: Sock, ghost before: seq<Act>) returns (ghost trace: seq<Act>)
      requires Valid() && Abs() == Exec(s0, before) && stack == [NextLoop(drain)] && pendios <= 0
      modifies this
      ensures Valid() && Abs() == Exec(s0, trace) && connect == old(connect)
      ensures stack == (if drain then [] else [User]) && write == drain
      ensures current == None && iowrites == [] && completed == old(completed)
    {
      InvStep(Abs(), Continue(true));
      stack := [NextEnd(true, drain)];
      assert Pop([NextLoop(drain)]) + [NextEnd(true, drain)] == stack;
      trace := Record(s0, before, Continue(true), Abs());
      trace := Leave(true, drain, s0, trace);
    }

    /** The end of one turn of the loop, after `sock_write` returned. */
    method WriteReturned(io: nat, drain: bool, ret: int, ghost s0: Sock, ghost before: seq<Act>)
      returns (ghost trace: seq<Act>)
      requires Valid() && Abs() == Exec(s0, before) && stack == [NextWrite(io, drain)]
      modifies this
      ensures Valid() && Abs() == Exec(s0, trace) && Abs() == WriteReturnsStep(old(Abs()), ret)
      ensures ret == 0 ==> stack == [NextEnd(false, drain)] && current == Some(io) && completed == old(completed)
      ensures ret != 0 ==> stack == [NextLoop(drain), User] && completed == old(completed) + [(io, ret)]
      ensures write && connect == old(connect)
    {
      WriteReturnsKeeps(Abs(), ret);
      if ret == 0 {
        stack := [NextEnd(false, drain)];
      } else {
        current := None;
        completed := completed + [(io, ret)];
        stack := [NextLoop(drain), User];
      }
      assert Pop([NextWrite(io, drain)]) == [];
      trace := Record(s0, before, WriteReturns(ret), Abs());
    }

    /** After the loop: without `drain` and with nothing left, clear WRITE and call data_drain. */
    method Leave(nowrite: bool, drain: bool, ghost s0: Sock, ghost before: seq<Act>)
      returns (ghost trace: seq<Act>)
      requires Valid() && Abs() == Exec(s0, before) && stack == [NextEnd(nowrite, drain)]
      modifies this
      ensures Valid() && Abs() == Exec(s0, trace)
      ensures stack == if nowrite && !drain then [User] else []
      ensures write == (old(write) && !(nowrite && !drain))
      ensures current == old(current) && iowrites == old(iowrites) && completed == old(completed)
      ensures connect == old(connect)
    {
      ContinueKeeps(Abs(), true);
      assert Pop([NextEnd(nowrite, drain)]) == [];
      if nowrite && !drain {
        write := false;
        notices := notices + [DataDrain];
        stack := [User];
      } else {
        stack := [];
      }
      trace := Record(s0, before, Continue(true), Abs());
    }

    /** `edpnet_sock_epollhup_handler`, with the user callback it ends with: the socket is not connected any
        more; current and pending writes stay. */
    method EpollHup(last: Script) returns (ghost trace: seq<Act>)
      requires Valid() && stack == []
      modifies this
      ensures Valid() && Abs() == Exec(old(Abs()), trace)
      ensures !connect && stack == [] && old(completed) <= completed
      ensures old(write) ==> current == old(current) && old(iowrites) <= iowrites && completed == old(completed)
    {
      ghost var s0 := Abs();
      InvStep(s0, Act.EpollHup);
      connect := false;
      notices := notices + [SockClose];
      stack := [User];
      assert Exec(s0, []) == s0;
      trace := Record(s0, [], Act.EpollHup, Abs());
      trace := RunCallback(last, s0, trace);
      assert Pop([User]) == [];
    }

    /** `sock_worker_cb` for EPOLLOUT, on the epoll thread at any time. */
    method Edge(dispatched: bool)
      requires Valid()
      modifies this
      ensures Valid() && Abs() == Apply(old(Abs()), Act.Edge(dispatched))
    {
      InvStep(Abs(), Act.Edge(dispatched));
      if dispatched {
        outEvents := outEvents + 1;
      }
    }

    /** `edpnet_sock_epollout_handler`, with the user callback `last` it may end with. The first event
        means connected; then a current write is completed with code 0, or the pending ones are
        tried in order, `count` of them with success or failure. */
    method EpollOut(rets: seq<int>, users: seq<Script>, last: Script) returns (count: nat, ghost trace: seq<Act>)
      requires Valid() && stack == [] && outEvents > 0
      modifies this
      ensures Valid() && Abs() == Exec(old(Abs()), trace)
      ensures connect && stack == [] && old(completed) <= completed
      ensures old(connect) && old(current).Some? ==>
        current == None && completed == old(completed) + [(old(current).value, 0)]
      ensures old(connect) && old(write) && old(current) == None ==>
        && CompletedWith(completed, old(completed), rets, count)
        && if current.Some? then current == Some(|completed|) else iowrites == []
    {
      ghost var s0 := Abs();
      count := 0;
      var next := StartOut(s0);
      trace := [Act.EpollOut];
      assert Exec(s0, []) == s0 && trace == [] + [Act.EpollOut];
      ExecSnoc(s0, [], Act.EpollOut);
      if next {
        count, trace := SockWriteNext(true, rets, users, s0, trace);
      } else {
        trace := RunCallback(last, s0, trace);
      }
    }

    /** The branches, up to a user callback or to `sock_write_next`. */
    method StartOut(ghost s0: Sock) returns (next: bool)
      requires Valid() && stack == [] && outEvents > 0 && s0 == Abs()
      modifies this
      ensures Valid() && Abs() == EpollOutStep(s0) && connect
      ensures next <==> s0.connect && s0.write && s0.current == None
      ensures stack == (if next then [NextLoop(true)] else [User]) && write == s0.write
      ensures s0.connect && s0.current.Some? ==>
        write && current == None && completed == s0.completed + [(s0.current.value, 0)]
      ensures !s0.connect || s0.current == None ==> completed == s0.completed && current == s0.current
      ensures notices == s0.notices +
        if !s0.connect then [SockConnect] else if !s0.write then [DataDrain] else []
    {
      EpollOutKeeps(s0);
      outEvents := outEvents - 1;
      next := false;
      if !connect {
        connect := true;
        notices := notices + [SockConnect];
        stack := [User];
      } else if write && current.Some? {
        completed := completed + [(current.value, 0)];
        current := None;
        stack := [User];
      } else if write {
        next := true;
        stack := [NextLoop(true)];
      } else {
        notices := notices + [DataDrain];
        stack := [User];
      }
      assert [] + stack == stack;
    }
  }

  /** With no current write, the first pending write is the one after the completed ones. */
  lemma {:induction false} HeadIsNext(s: Sock)
    requires Inv(s) && s.current == None && s.iowrites != []
    ensures s.iowrites[0] == |s.completed|
  {
    assert UpTo(s.submitted)[|s.completed|] ==
           (Finished(s.completed) + CurrentWrite(s) + s.iowrites)[|s.completed|];
  }
}
