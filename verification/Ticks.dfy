/** Throttling of cron ticks: from the internal queue through the external queue to the pending requests. */
module Ticks {
  import opened Common

  /** A tick request on its way through the external queue. */
  datatype Tick = Tick(component: nat, seqNum: nat)

  /** The generator's own tables, the external queue, and the requests registered as pending. */
  datatype State = State(
    pendingTickRequests: map<nat, nat>,
    pendingTicksInExtQueue: set<nat>,
    extQueue: seq<Tick>,
    pendingRequests: map<nat, nat>,
    nextSeqNum: nat)

  datatype Event = InternalTick(component: nat) | PopAndRegister(index: nat) | Execute(seqNum: nat)

  /** sendClientRequestMsgTick; the client numbers its requests upwards. */
  function Send(s: State, c: nat): State {
    s.(extQueue := s.extQueue + [Tick(c, s.nextSeqNum)],
       pendingTickRequests := s.pendingTickRequests[c := s.nextSeqNum],
       pendingTicksInExtQueue := s.pendingTicksInExtQueue + {c},
       nextSeqNum := s.nextSeqNum + 1)
  }

  /** onInternalTick sends unless the component's last tick is queued or pending. */
  predicate Sends(s: State, c: nat) {
    && c !in s.pendingTicksInExtQueue
    && (c in s.pendingTickRequests ==> s.pendingTickRequests[c] !in s.pendingRequests)
  }

  function Step(s: State, e: Event): State {
    match e
    case InternalTick(c) => if Sends(s, c) then Send(s, c) else s
    case PopAndRegister(i) =>
      if i >= |s.extQueue| then s
      else
        var t := s.extQueue[i];
        s.(extQueue := s.extQueue[..i] + s.extQueue[i + 1..],
           pendingTicksInExtQueue := s.pendingTicksInExtQueue - {t.component},
           pendingRequests := s.pendingRequests[t.seqNum := t.component])
    case Execute(n) => s.(pendingRequests := s.pendingRequests - {n})
  }

  function Run(s: State, events: seq<Event>): State
    decreases |events|
  {
    if events == [] then s else Run(Step(s, events[0]), events[1..])
  }

  // ---------- how many ticks of a component are on their way ----------

  function Queued(queue: seq<Tick>, c: nat): nat {
    if queue == [] then 0 else (if queue[0].component == c then 1 else 0) + Queued(queue[1..], c)
  }

  function Pending(s: State, c: nat): set<nat> {
    set n | n in s.pendingRequests && s.pendingRequests[n] == c
  }

  function Outstanding(s: State, c: nat): nat {
    Queued(s.extQueue, c) + |Pending(s, c)|
  }

  lemma {:induction false} QueuedConcat(a: seq<Tick>, b: seq<Tick>, c: nat)
    ensures Queued(a + b, c) == Queued(a, c) + Queued(b, c)
  {
    if a == [] {
      assert a + b == b;
    } else {
      assert (a + b)[1..] == a[1..] + b;
      QueuedConcat(a[1..], b, c);
    }
  }

  lemma {:induction false} QueuedNone(queue: seq<Tick>, c: nat)
    ensures Queued(queue, c) == 0 <==> forall i :: 0 <= i < |queue| ==> queue[i].component != c
  {
    if queue != [] {
      QueuedNone(queue[1..], c);
      assert forall i :: 0 < i < |queue| ==> queue[i] == queue[1..][i - 1];
    }
  }

  /** Every tick on its way is the last one sent for its component, and either queued or pending. */
  ghost predicate Throttled(s: State) {
    && (forall i :: 0 <= i < |s.extQueue| ==> Latest(s.pendingTickRequests, s.extQueue[i].component, s.extQueue[i].seqNum))
    && (forall n :: n in s.pendingRequests ==> Latest(s.pendingTickRequests, s.pendingRequests[n], n))
    && (forall c :: Queued(s.extQueue, c) == if c in s.pendingTicksInExtQueue then 1 else 0)
    && (forall n :: n in s.pendingRequests ==> s.pendingRequests[n] !in s.pendingTicksInExtQueue)
    && (forall c :: c in s.pendingTickRequests ==> s.pendingTickRequests[c] < s.nextSeqNum)
    && (forall c, d, n :: Latest(s.pendingTickRequests, c, n) && Latest(s.pendingTickRequests, d, n) ==> c == d)
  }

  /** The last tick sent for a component has this number. */
  predicate Latest(requests: map<nat, nat>, c: nat, n: nat) {
    c in requests && requests[c] == n
  }

  lemma {:induction false} SendKeeps(s: State, c: nat)
    requires Throttled(s) && Sends(s, c)
    ensures Throttled(Send(s, c))
  {
    var s' := Send(s, c);
    forall d
      ensures Queued(s'.extQueue, d) == if d in s'.pendingTicksInExtQueue then 1 else 0
    {
      QueuedConcat(s.extQueue, [Tick(c, s.nextSeqNum)], d);
      assert [Tick(c, s.nextSeqNum)][1..] == [];
    }
    QueuedNone(s.extQueue, c);
    forall a, b, n | Latest(s'.pendingTickRequests, a, n) && Latest(s'.pendingTickRequests, b, n)
      ensures a == b
    {
      if a != c && b != c {
        assert Latest(s.pendingTickRequests, a, n) && Latest(s.pendingTickRequests, b, n);
      }
    }
    assert forall n :: n in s.pendingRequests ==> Latest(s.pendingTickRequests, s.pendingRequests[n], n) && s.pendingRequests[n] != c;
    assert forall i :: 0 <= i < |s.extQueue| ==> Latest(s.pendingTickRequests, s.extQueue[i].component, s.extQueue[i].seqNum);
  }

  lemma {:induction false} PopKeeps(s: State, i: nat)
    requires Throttled(s) && i < |s.extQueue|
    ensures Throttled(Step(s, PopAndRegister(i)))
  {
    var s', t := Step(s, PopAndRegister(i)), s.extQueue[i];
    var front, back := s.extQueue[..i], s.extQueue[i + 1..];
    assert s.extQueue == front + ([t] + back);
    forall d
      ensures Queued(s'.extQueue, d) == if d in s'.pendingTicksInExtQueue then 1 else 0
    {
      QueuedConcat(front, [t] + back, d);
      QueuedConcat([t], back, d);
      QueuedConcat(front, back, d);
      assert [t][1..] == [];
    }
    assert Latest(s.pendingTickRequests, t.component, t.seqNum);
    forall j | 0 <= j < |s'.extQueue|
      ensures Latest(s'.pendingTickRequests, s'.extQueue[j].component, s'.extQueue[j].seqNum)
    {
      assert s'.extQueue[j] == s.extQueue[if j < i then j else j + 1];
    }
  }

  lemma {:induction false} StepKeeps(s: State, e: Event)
    requires Throttled(s)
    ensures Throttled(Step(s, e))
  {
    match e
    case InternalTick(c) => if Sends(s, c) { SendKeeps(s, c); }
    case PopAndRegister(i) => if i < |s.extQueue| { PopKeeps(s, i); }
    case Execute(n) => assert forall m :: m in s.pendingRequests ==> Latest(s.pendingTickRequests, s.pendingRequests[m], m);
  }

  /** A throttled component has at most one tick on its way, and an internal tick sends exactly when it has none. */
  lemma {:induction false} AtMostOne(s: State, c: nat)
    requires Throttled(s)
    ensures Outstanding(s, c) <= 1
    ensures Sends(s, c) <==> Outstanding(s, c) == 0
  {
    var p := Pending(s, c);
    forall n | n in s.pendingRequests && Latest(s.pendingTickRequests, c, n)
      ensures n in p
    {
      assert Latest(s.pendingTickRequests, s.pendingRequests[n], n);
    }
    forall n | n in p
      ensures Latest(s.pendingTickRequests, c, n)
    {
      assert Latest(s.pendingTickRequests, s.pendingRequests[n], n);
    }
    assert Sends(s, c) <==> c !in s.pendingTicksInExtQueue && p == {};
    if n :| n in p {
      assert p == {n};
      assert Queued(s.extQueue, c) == 0;
    } else {
      assert p == {};
    }
  }

  predicate IsNew(s: State) {
    s == State(map[], {}, [], map[], s.nextSeqNum)
  }

  /** Over every interleaving of internal ticks, queue pops and executions. */
  lemma {:induction false} NeverTwoTicks(s: State, events: seq<Event>, c: nat)
    requires IsNew(s)
    ensures Outstanding(Run(s, events), c) <= 1
  {
    RunKeeps(s, events);
    AtMostOne(Run(s, events), c);
  }

  lemma {:induction false} RunKeeps(s: State, events: seq<Event>)
    requires Throttled(s)
    ensures Throttled(Run(s, events))
    decreases |events|
  {
    if events != [] {
      StepKeeps(s, events[0]);
      RunKeeps(Step(s, events[0]), events[1..]);
    }
  }

  // ---------- no tick is lost ----------

  /** Whether an event sends, or finishes, a tick of a component. */
  predicate SendsTick(s: State, e: Event, c: nat) {
    e == InternalTick(c) && Outstanding(s, c) == 0
  }

  predicate FinishesTick(s: State, e: Event, c: nat) {
    e.Execute? && e.seqNum in Pending(s, c)
  }

  lemma {:induction false} QueuedWithout(queue: seq<Tick>, i: nat, c: nat)
    requires i < |queue|
    ensures Queued(queue[..i] + queue[i + 1..], c) == Queued(queue, c) - (if queue[i].component == c then 1 else 0)
  {
    var front, t, back := queue[..i], queue[i], queue[i + 1..];
    assert queue == front + ([t] + back);
    QueuedConcat(front, [t] + back, c);
    QueuedConcat([t], back, c);
    QueuedConcat(front, back, c);
    assert [t][1..] == [];
  }

  /** A tick in the queue is not among the pending requests. */
  lemma {:induction false} QueuedIsNotPending(s: State, i: nat)
    requires Throttled(s) && i < |s.extQueue|
    ensures s.extQueue[i].seqNum !in s.pendingRequests
  {
    var t := s.extQueue[i];
    QueuedThere(s.extQueue, i);
    assert Latest(s.pendingTickRequests, t.component, t.seqNum);
    forall n | n in s.pendingRequests
      ensures n != t.seqNum
    {
      assert Latest(s.pendingTickRequests, s.pendingRequests[n], n);
    }
  }

  /** Popping a tick moves it from the queue to the pending requests and changes nothing else. */
  lemma {:induction false} PopMoves(s: State, i: nat, c: nat)
    requires Throttled(s) && i < |s.extQueue|
    ensures var s', t := Step(s, PopAndRegister(i)), s.extQueue[i];
      && Queued(s'.extQueue, c) == Queued(s.extQueue, c) - (if t.component == c then 1 else 0)
      && Pending(s', c) == Pending(s, c) + (if t.component == c then {t.seqNum} else {})
      && |Pending(s', c)| == |Pending(s, c)| + (if t.component == c then 1 else 0)
      && Outstanding(s', c) == Outstanding(s, c)
  {
    hide Throttled, Queued, Pending;
    var s', t := Step(s, PopAndRegister(i)), s.extQueue[i];
    QueuedWithout(s.extQueue, i, c);
    QueuedIsNotPending(s, i);
    PendingAfter(s, s', t, c);
  }

  /** A request that is registered joins the pending ones of its component. */
  lemma {:induction false} PendingAfter(s: State, s': State, t: Tick, c: nat)
    requires t.seqNum !in s.pendingRequests
    requires s'.pendingRequests == s.pendingRequests[t.seqNum := t.component]
    ensures Pending(s', c) == Pending(s, c) + (if t.component == c then {t.seqNum} else {})
    ensures |Pending(s', c)| == |Pending(s, c)| + (if t.component == c then 1 else 0)
  {
    var before, after := Pending(s, c), Pending(s', c);
    if t.component == c {
      assert after == before + {t.seqNum};
      assert t.seqNum !in before;
    } else {
      assert after == before;
      assert before + {} == before;
    }
  }

  lemma {:induction false} QueuedThere(queue: seq<Tick>, i: nat)
    requires i < |queue|
    ensures Queued(queue, queue[i].component) > 0
  {
    QueuedNone(queue, queue[i].component);
  }

  /** One event: a tick is on its way from when it is sent until it is executed. */
  lemma {:induction false} StepCounts(s: State, e: Event, c: nat)
    requires Throttled(s)
    ensures Outstanding(Step(s, e), c)
         == Outstanding(s, c) + (if SendsTick(s, e, c) then 1 else 0) - (if FinishesTick(s, e, c) then 1 else 0)
  {
    match e
    case InternalTick(d) =>
      AtMostOne(s, d);
      if Sends(s, d) {
        QueuedConcat(s.extQueue, [Tick(d, s.nextSeqNum)], c);
        assert [Tick(d, s.nextSeqNum)][1..] == [];
        assert Pending(Step(s, e), c) == Pending(s, c);
      }
    case PopAndRegister(i) =>
      if i < |s.extQueue| {
        PopMoves(s, i, c);
      }
    case Execute(n) =>
      assert Pending(Step(s, e), c) == Pending(s, c) - {n};
  }

  function Sent(s: State, events: seq<Event>, c: nat): nat
    decreases |events|
  {
    if events == [] then 0
    else (if SendsTick(s, events[0], c) then 1 else 0) + Sent(Step(s, events[0]), events[1..], c)
  }

  function Finished(s: State, events: seq<Event>, c: nat): nat
    decreases |events|
  {
    if events == [] then 0
    else (if FinishesTick(s, events[0], c) then 1 else 0) + Finished(Step(s, events[0]), events[1..], c)
  }

  /**
   * Over every run, each internal tick of a component that has none on its way sends one, and every tick sent is
   * executed or still on its way.
   */
  lemma {:induction false} NoTickIsLost(s: State, events: seq<Event>, c: nat)
    requires Throttled(s)
    ensures Outstanding(s, c) + Sent(s, events, c) == Finished(s, events, c) + Outstanding(Run(s, events), c)
    decreases |events|
  {
    hide Throttled, Outstanding, Step;
    if events != [] {
      StepCounts(s, events[0], c);
      StepKeeps(s, events[0]);
      NoTickIsLost(Step(s, events[0]), events[1..], c);
    }
  }

  /** An internal tick leaves its component with exactly one tick on its way, and the others with what they had. */
  lemma {:induction false} TickLeavesOne(s: State, c: nat, d: nat)
    requires Throttled(s)
    ensures Outstanding(Step(s, InternalTick(c)), d) == if d == c then 1 else Outstanding(s, d)
  {
    StepCounts(s, InternalTick(c), d);
    AtMostOne(s, c);
  }

  // ---------- the generator ----------

  class TicksGenerator {
    var pendingTickRequests: map<nat, nat>
    var pendingTicksInExtQueue: set<nat>
    // The client's queue and the replica's table of pending requests, which the generator calls into.
    var extQueue: seq<Tick>
    var pendingRequests: map<nat, nat>
    var nextSeqNum: nat

    function Current(): State
      reads this
    {
      State(pendingTickRequests, pendingTicksInExtQueue, extQueue, pendingRequests, nextSeqNum)
    }

    constructor ()
      ensures IsNew(Current())
    {
      pendingTickRequests, pendingTicksInExtQueue := map[], {};
      extQueue, pendingRequests, nextSeqNum := [], map[], 0;
    }

    method OnInternalTick(component: nat)
      modifies this
      ensures Current() == Step(old(Current()), InternalTick(component))
    {
      if component !in pendingTicksInExtQueue && component !in pendingTickRequests {
        SendClientRequestMsgTick(component);
      } else if component !in pendingTicksInExtQueue {
        if pendingTickRequests[component] !in pendingRequests {
          SendClientRequestMsgTick(component);
        }
      }
    }

    method SendClientRequestMsgTick(component: nat)
      modifies this
      ensures Current() == Send(old(Current()), component)
    {
      var seqNum := nextSeqNum;
      nextSeqNum := nextSeqNum + 1;
      extQueue := extQueue + [Tick(component, seqNum)];
      pendingTickRequests := pendingTickRequests[component := seqNum];
      pendingTicksInExtQueue := pendingTicksInExtQueue + {component};
    }

    method OnTickPoppedFromExtQueue(component: nat)
      modifies `pendingTicksInExtQueue
      ensures pendingTicksInExtQueue == old(pendingTicksInExtQueue) - {component}
    {
      pendingTicksInExtQueue := pendingTicksInExtQueue - {component};
    }

    /** The messaging thread pops a tick and registers its request. */
    method PopTick(i: nat)
      requires i < |extQueue|
      modifies this
      ensures Current() == Step(old(Current()), PopAndRegister(i))
    {
      var t := extQueue[i];
      extQueue := extQueue[..i] + extQueue[i + 1..];
      OnTickPoppedFromExtQueue(t.component);
      pendingRequests := pendingRequests[t.seqNum := t.component];
    }
  }
}
