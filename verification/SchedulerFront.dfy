/**
 Order across whole runs for the stages that splice in front: the events of such a priority start in
 enqueue order, now and in every continuation, exactly as long as no batch met leftovers of its priority.
 */
module SchedulerFront {
  import opened Scheduler
  import opened SchedulerInvariants
  import opened SchedulerOrder

  predicate NoMeeting(s: State, acts: seq<Action>, p: Priority) {
    acts == []
    || (var before := acts[..|acts| - 1];
        NoMeeting(s, before, p) && !Meets(Exec(s, before), acts[|acts| - 1], p))
  }

  /** Tickets, hence enqueue order, go up. */
  predicate Rising(xs: seq<Item>) {
    forall i, j :: 0 <= i < j < |xs| ==> xs[i].ticket < xs[j].ticket
  }

  lemma {:induction false} LaneHas(xs: seq<Item>, p: Priority, x: Item)
    requires x in xs && x.prio == p
    ensures x in Lane(xs, p)
  {
    if xs[0] != x {
      LaneHas(xs[1..], p, x);
    }
  }

  lemma {:induction false} LaneRising(xs: seq<Item>, p: Priority)
    requires Rising(xs)
    ensures Rising(Lane(xs, p))
  {
    if xs != [] {
      assert forall i :: 0 < i < |xs| ==> xs[1..][i - 1] == xs[i];
      LaneRising(xs[1..], p);
      LaneFrom(xs[1..], p);
      assert forall x :: x in xs[1..] ==> xs[0].ticket < x.ticket;
    }
  }

  /** In a line whose events of `p` are in order, what comes first was enqueued first. */
  lemma {:induction false} BeforeInLine(a: seq<Item>, b: seq<Item>, p: Priority, x: Item, y: Item)
    requires Rising(Lane(a + b, p))
    requires x in a && y in b && x.prio == p && y.prio == p
    ensures x.ticket < y.ticket
  {
    LaneConcat(a, b, p);
    LaneHas(a, p, x);
    LaneHas(b, p, y);
    var i :| 0 <= i < |Lane(a, p)| && Lane(a, p)[i] == x;
    var j :| 0 <= j < |Lane(b, p)| && Lane(b, p)[j] == y;
    assert Lane(a + b, p)[i] == x && Lane(a + b, p)[|Lane(a, p)| + j] == y;
  }

  /** What has started and what the private list holds: nothing in it changes places any more. */
  function Front(s: State): seq<Item> {
    s.started + s.local
  }

  ghost predicate Inverted(s: State, p: Priority) {
    exists i, j :: 0 <= i < j < |Front(s)| && Overtakes(Front(s)[i], Front(s)[j], p)
  }

  /** `x` goes first although `y` was enqueued first. */
  predicate Overtakes(x: Item, y: Item, p: Priority) {
    x.prio == p && y.prio == p && x.ticket > y.ticket
  }

  lemma {:induction false} InvertedHere(s: State, p: Priority, i: nat, j: nat)
    requires i < j < |Front(s)| && Overtakes(Front(s)[i], Front(s)[j], p)
    ensures Inverted(s, p)
  {
  }

  lemma {:induction false} InversionSpliced(s: State, q: Priority, p: Priority)
    requires Inverted(s, p)
    ensures Inverted(SpliceStep(s, q), p)
  {
    var i, j :| 0 <= i < j < |Front(s)| && Overtakes(Front(s)[i], Front(s)[j], p);
    var n := |s.started|;
    var k := if q == Norm || q == Idle then 0 else |s.queues.At(q)|;
    var t := SpliceStep(s, q);
    var i', j' := if i < n then i else i + k, if j < n then j else j + k;
    assert Front(t)[i'] == Front(s)[i] && Front(t)[j'] == Front(s)[j];
    InvertedHere(t, p, i', j');
  }

  lemma {:induction false} FrontStays(s: State, a: Action)
    requires !(a.Step? && s.pc.Splice?)
    ensures Front(Apply(s, a)) == Front(s)
  {
    if a.Step? && !s.pc.Loop? && !s.pc.Run? {
      StillStep(s);
    }
  }

  lemma {:induction false} InversionStays(s: State, a: Action, p: Priority)
    requires Inverted(s, p)
    ensures Inverted(Apply(s, a), p)
  {
    if a.Step? && s.pc.Splice? {
      InversionSpliced(s, s.pc.stage, p);
    } else {
      FrontStays(s, a);
    }
  }

  /** A batch that meets leftovers goes in front of them. */
  lemma {:induction false} MeetingInverts(s: State, a: Action, p: Priority)
    requires Meets(s, a, p) && InOrder(s, p) && Pure(s) && Rising(s.accepted)
    ensures Inverted(Apply(s, a), p)
  {
    var f, b := s.queues.At(p)[0], Lane(s.local, p)[0];
    assert b in Lane(s.local, p);
    LaneFrom(s.local, p);
    LanePrio(s.local, p);
    assert PureLane(s.queues.At(p), p) && f in s.queues.At(p);
    LaneRising(s.accepted, p);
    BeforeInLine(s.started + s.local, s.queues.At(p), p, b, f);
    var m :| 0 <= m < |s.local| && s.local[m] == b;
    var t := SpliceStep(s, p);
    var n, k := |s.started|, |s.queues.At(p)|;
    assert Front(t)[n] == f && Front(t)[n + k + m] == b;
    InvertedHere(t, p, n, n + k + m);
  }

  lemma {:induction false} LanePrio(xs: seq<Item>, p: Priority)
    ensures forall x :: x in Lane(xs, p) ==> x.prio == p
  {
    if xs != [] {
      LanePrio(xs[1..], p);
    }
  }

  lemma {:induction false} InvertedIsNotInOrder(s: State, p: Priority)
    requires Inverted(s, p) && Rising(s.accepted)
    ensures !InOrder(s, p)
  {
    if InOrder(s, p) {
      LaneRising(s.accepted, p);
      var i, j :| 0 <= i < j < |Front(s)| && Overtakes(Front(s)[i], Front(s)[j], p);
      var a, b := Front(s)[..j], Front(s)[j..] + s.queues.At(p);
      assert a + b == Line(s, p);
      assert a[i] == Front(s)[i] && b[0] == Front(s)[j];
      BeforeInLine(a, b, p, a[i], b[0]);
    }
  }

  lemma {:induction false} MeetingRun(s0: State, acts: seq<Action>, p: Priority)
    requires Initial(s0)
    ensures var t := Exec(s0, acts);
            && Pure(t) && Rising(t.accepted)
            && (if NoMeeting(s0, acts, p) then InOrder(t, p) else Inverted(t, p))
  {
    Always(s0, acts);
    if acts != [] {
      var before := acts[..|acts| - 1];
      var a := acts[|acts| - 1];
      var s := Exec(s0, before);
      MeetingRun(s0, before, p);
      PureStep(s, a);
      if !NoMeeting(s0, before, p) {
        InversionStays(s, a, p);
      } else if Meets(s, a, p) {
        MeetingInverts(s, a, p);
      } else {
        InOrderStep(s, a, p);
      }
    }
  }

  /** Over every run, of any priority: what has started, then the private list, then the queue hold its
      events in enqueue order if and only if no splice of that queue found both a batch and leftovers. Then
      the events of the priority start in enqueue order. */
  lemma {:induction false} FrontOrderIff(s0: State, acts: seq<Action>, p: Priority)
    requires Initial(s0)
    ensures var t := Exec(s0, acts);
            && (InOrder(t, p) <==> NoMeeting(s0, acts, p))
            && (NoMeeting(s0, acts, p) ==> Lane(t.started, p) <= Lane(t.accepted, p))
  {
    MeetingRun(s0, acts, p);
    var t := Exec(s0, acts);
    if NoMeeting(s0, acts, p) {
      StartedPrefix(t, p);
    } else {
      InvertedIsNotInOrder(t, p);
    }
  }
}
