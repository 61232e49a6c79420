/**
 The emitter of `src/emitter.c` in its own form: an object with its handler table and its pending
 count, on top of the worker pool. Each method is proved to do what the corresponding steps of
 `EmitterLifetime` do, for which lifetime and completion are proved over every interleaving.
 */
module EmitterObject {
  import opened Errno
  import opened Scheduler
  import opened Dispatcher
  import Life = EmitterLifetime

  type Emitter = Life.Emitter

  /** The handler of the event's type can be called. */
  predicate Handles(e: Emitter, kind: int) {
    0 <= kind < |e.handlers| && kind < Life.TYPE_MAX && e.handlers[kind]
  }

  /** The code the completion callback gets when the registered handler would return `code`. */
  function Outcome(e: Emitter, kind: int, code: int): int {
    if kind < 0 || kind >= Life.TYPE_MAX then -ERANGE
    else if !Handles(e, kind) then -ENOENT
    else code
  }

  /** Which dispatches pass the tests: the type is handled and the emitter is initialised, whatever else
      of the emitter is in flight. */
  lemma {:induction false} CheckIs(e: Emitter, kind: int)
    ensures var c := Life.DispatchCheck(e, kind);
            && (c == 0 <==> Handles(e, kind) && e.alive)
            && (c == -ERANGE <==> !(0 <= kind < Life.TYPE_MAX))
            && (c == -ENOENT <==> 0 <= kind < Life.TYPE_MAX && !Handles(e, kind))
            && (c == -EINVAL <==> Handles(e, kind) && !e.alive)
  {
  }

  /** What a dispatch returns. */
  function DispatchResult(e: Emitter, kind: int, prio: int): int {
    if Life.DispatchCheck(e, kind) != 0 then Life.DispatchCheck(e, kind)
    else if Decode(prio).Some? then 0
    else -ERANGE
  }

  /** The emitter after a dispatch that passed the checks: an invalid priority strands the increment. */
  function Counted(e: Emitter, prio: int): Emitter {
    e.(pendings := e.pendings + 1, stranded := e.stranded + if Decode(prio).Some? then 0 else 1)
  }

  /** The emitter after `emit_event_handler`. */
  function Settled(e: Emitter, kind: int): Emitter {
    if Handles(e, kind) then e.(pendings := e.pendings - 1) else e.(stranded := e.stranded + 1)
  }

  /** The steps one event handler takes: it looks the handler up, lets it return when there is one,
      and makes the callback. */
  function HandlerSteps(y: Life.Sys, w: nat, code: int): Life.Sys {
    Life.CallbackStep(Life.UserReturnsStep(Life.Do(y, Life.Lookup(w)), w, code), w)
  }

  /** On each branch those steps make one callback, with `Outcome`, and leave the emitter `Settled`;
      nothing else in the system moves but the event's return to the cache. */
  lemma {:induction false} HandlerStepsDo(y: Life.Sys, w: nat, code: int)
    requires w < |y.sides| && y.sides[w].phase == Life.Entered && y.sides[w].sched.running.Some?
    requires y.sides[w].sched.running.value.emit < |y.emitters|
    ensures var it := y.sides[w].sched.running.value;
            var e := y.emitters[it.emit];
            var z := HandlerSteps(y, w, code);
            var last := z.sides[w].called[|y.sides[w].called|];
            && z.sides[w].called == y.sides[w].called + [last] && last.0 == it.ticket
            && (!(0 <= it.kind < Life.TYPE_MAX) ==>
                  last.1 == -ERANGE && z.emitters[it.emit].pendings == e.pendings)
            && (0 <= it.kind < Life.TYPE_MAX && !Handles(e, it.kind) ==>
                  last.1 == -ENOENT && z.emitters[it.emit].pendings == e.pendings)
            && (Handles(e, it.kind) ==> last.1 == code && z.emitters[it.emit].pendings == e.pendings - 1)
            && z.emitters == y.emitters[it.emit := Settled(e, it.kind)]
            && z.sides == y.sides[w := Life.Side(y.sides[w].sched, Life.CalledBack,
                                         y.sides[w].called + [(it.ticket, Outcome(e, it.kind, code))])]
            && z.calls == y.calls && z.allocs == y.allocs && z.frees == y.frees + 1
  {
    var d := y.sides[w];
    var it := d.sched.running.value;
    var y1 := Life.Do(y, Life.Lookup(w));
    if Handles(y.emitters[it.emit], it.kind) {
      assert y1.sides[w] == d.(phase := Life.InUser);
    } else {
      assert y1.sides[w].phase.Failing?;
    }
  }

  class Emit {
    const id: nat
    var init: int                     // ee_init
    var pendings: int                 // ee_pendings
    const handler: array<bool>        // ee_handler: is it other than the default one?
    ghost var stranded: nat           // increments of ee_pendings nobody will undo

    ghost predicate Valid()
      reads this
    {
      handler.Length == Life.TYPE_MAX
    }

    ghost function Abs(): Emitter
      reads this, handler
    {
      Life.Emitter(init != 0, pendings, handler[..], stranded)
    }

    /** The system with this emitter only, and no worker. */
    ghost function Alone(): Life.Sys
      reads this, handler
    {
      Life.Sys([Abs()], [], [], 0, 0)
    }

    /** `emit_create`. */
    constructor (id: nat)
      ensures Valid() && fresh(handler) && this.id == id
      ensures Alone() == Life.Do(Life.Sys([], [], [], 0, 0), Life.Create)
      ensures init != 0 && pendings == 0 && forall k :: 0 <= k < Life.TYPE_MAX ==> !handler[k]
    {
      this.id := id;
      handler := new bool[Life.TYPE_MAX](_ => false);
      init, pendings, stranded := 1, 0, 0;
      new;
      assert handler[..] == seq(Life.TYPE_MAX, _ => false);
    }

    /** `emit_add_handler`. */
    method AddHandler(kind: int) returns (ret: int)
      requires Valid() && init != 0
      modifies handler
      ensures Alone() == Life.Do(old(Alone()), Life.AddHandler(0, kind))
      ensures ret == if 0 <= kind < 16 then 0 else -ERANGE
      ensures Handles(Abs(), kind) <==> ret == 0
      ensures forall k :: 0 <= k < Life.TYPE_MAX ==> handler[k] == (old(handler[k]) || k == kind)
    {
      if kind < 0 || kind >= Life.TYPE_MAX {
        return -ERANGE;
      }
      handler[kind] := true;
      ret := 0;
    }

    /** `emit_rmv_watch`. */
    method RmvWatch(kind: int) returns (ret: int)
      requires Valid() && init != 0
      modifies handler
      ensures Alone() == Life.Do(old(Alone()), Life.RmvWatch(0, kind))
      ensures ret == if 0 <= kind < Life.TYPE_MAX then 0 else -ERANGE
      ensures !Handles(Abs(), kind)
      ensures forall k :: 0 <= k < Life.TYPE_MAX ==> handler[k] == (old(handler[k]) && k != kind)
    {
      if kind < 0 || kind >= Life.TYPE_MAX {
        return -ERANGE;
      }
      handler[kind] := false;
      ret := 0;
    }

    /** `emit_dispatch`. Refused by a check, it changes nothing; refused for its priority, it leaves
        the increment behind; accepted, exactly one worker has the event and the emitter counts it. */
    method Dispatch(ev: Event, pool: Pool) returns (ret: int)
      requires Valid() && pool.Valid() && Unlinked(pool.threads, ev.node)
      modifies this, pool, ev`cpuid, pool.threads, pool.lists, pool.nodes, ev.node
      ensures Valid() && pool.Valid() && pool.lists == old(pool.lists) && pool.nodes <= old(pool.nodes) + {ev.node}
      ensures ret == DispatchResult(old(Abs()), ev.kind, ev.priority)
      ensures ret == 0 <==> Handles(old(Abs()), ev.kind) && old(init) != 0 && 0 <= ev.priority <= 4
      ensures pendings == old(pendings) + if Handles(old(Abs()), ev.kind) && old(init) != 0 then 1 else 0
      ensures Life.DispatchCheck(old(Abs()), ev.kind) != 0 ==>
        && Abs() == old(Abs()) && States(pool.threads) == old(States(pool.threads))
        && pool.round == old(pool.round) && ev.cpuid == old(ev.cpuid)
      ensures Life.DispatchCheck(old(Abs()), ev.kind) == 0 ==>
        && Abs() == Counted(old(Abs()), ev.priority)
        && ev.cpuid == Pick(old(ev.cpuid), old(pool.round)) < |pool.threads|
        && States(pool.threads) ==
             Handed(old(States(pool.threads)), ev.cpuid, ev.kind, ev.priority, id)
    {
      CheckIs(Abs(), ev.kind);
      ret := Check(ev.kind);
      if ret == 0 {
        ret := Pass(ev, pool);
      }
    }

    /** The event goes to the workers, counted first. */
    method Pass(ev: Event, pool: Pool) returns (ret: int)
      requires pool.Valid() && Unlinked(pool.threads, ev.node)
      modifies this, pool, ev`cpuid, pool.threads, pool.lists, pool.nodes, ev.node
      ensures pool.Valid() && pool.lists == old(pool.lists) && pool.nodes <= old(pool.nodes) + {ev.node}
      ensures ret == if Decode(ev.priority).Some? then 0 else -ERANGE
      ensures Abs() == Counted(old(Abs()), ev.priority)
      ensures ev.cpuid == Pick(old(ev.cpuid), old(pool.round)) < |pool.threads|
      ensures States(pool.threads) ==
                Handed(old(States(pool.threads)), ev.cpuid, ev.kind, ev.priority, id)
    {
      CountIn(ev.priority);
      ret := pool.Dispatch(ev, id);
    }

    /** The tests before the increment. */
    method Check(kind: int) returns (ret: int)
      requires Valid()
      ensures ret == Life.DispatchCheck(Abs(), kind)
      ensures ret == -ERANGE <==> !(0 <= kind < 16)
      ensures ret == -ENOENT <==> 0 <= kind < 16 && !handler[kind]
      ensures ret == -EINVAL <==> 0 <= kind < 16 && handler[kind] && init == 0
      ensures ret == 0 <==> 0 <= kind < 16 && handler[kind] && init != 0
    {
      if kind < 0 || kind >= Life.TYPE_MAX {
        return -ERANGE;
      }
      if !handler[kind] {
        return -ENOENT;
      }
      ret := if init == 0 then -EINVAL else 0;
    }

    /** The increment; nobody will undo it if the priority turns out to be out of range. */
    method CountIn(ghost prio: int)
      modifies this`pendings, this`stranded
      ensures Abs() == Counted(old(Abs()), prio)
    {
      pendings := pendings + 1;
      stranded := stranded + if Decode(prio).Some? then 0 else 1;
    }

    /** `emit_event_handler`, with the return value of the user's handler; the result is the code the
        completion callback gets. */
    method HandleEvent(kind: int, code: int) returns (errcode: int)
      requires Valid()
      modifies this
      ensures Valid() && Abs() == Settled(old(Abs()), kind)
      ensures errcode == Outcome(old(Abs()), kind, code)
      ensures !(0 <= kind < Life.TYPE_MAX) ==> errcode == -ERANGE && pendings == old(pendings)
      ensures 0 <= kind < Life.TYPE_MAX && !handler[kind] ==> errcode == -ENOENT && pendings == old(pendings)
      ensures 0 <= kind < Life.TYPE_MAX && handler[kind] ==> errcode == code && pendings == old(pendings) - 1
    {
      if kind < 0 || kind >= Life.TYPE_MAX {
        stranded := stranded + 1;
        return -ERANGE;
      }
      if !handler[kind] {
        stranded := stranded + 1;
        return -ENOENT;
      }
      pendings := pendings - 1;
      errcode := code;
    }

    /** `emit_destroy`. */
    method Destroy() returns (ret: int)
      requires Valid() && init != 0
      modifies this
      ensures Valid() && Alone() == Life.Do(old(Alone()), Life.Destroy(0))
      ensures ret == if old(pendings) == 0 then 0 else -EINVAL
      ensures pendings == old(pendings) && (ret != 0 ==> init == old(init))
      ensures ret == 0 <==> !Abs().alive
    {
      if pendings != 0 {
        return -EINVAL;
      }
      init := 0;
      ret := 0;
    }
  }
}
