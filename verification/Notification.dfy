/** The notification bus: listeners, and a queue that the first subscriber drains. */
module Notification {

  datatype Payload = Payload(title: string, description: string)

  type Listener = nat

  /** The call of a listener with the payload accepted as number `index`. */
  datatype Call = Call(index: nat, listener: Listener)

  /**
   * The module's two variables, and the history that the properties are about: the payloads accepted
   * so far, the listener calls made so far, and which accepted payloads had to wait in the queue.
   */
  datatype Bus = Bus(
    listeners: seq<Listener>, queue: seq<Payload>, accepted: seq<Payload>, calls: seq<Call>, waited: set<nat>)

  const EMPTY := Bus([], [], [], [], {})

  /** One payload to every listener, in subscription order. */
  function Fanout(listeners: seq<Listener>, index: nat): seq<Call> {
    seq(|listeners|, i requires 0 <= i < |listeners| => Call(index, listeners[i]))
  }

  /** Waiting payloads to one listener, in order. */
  function Drain(listener: Listener, first: nat, count: nat): seq<Call> {
    seq(count, i requires 0 <= i < count => Call(first + i, listener))
  }

  function Notify(b: Bus, p: Payload): Bus {
    if p.title == "" then b
    else if b.listeners == [] then
      b.(queue := b.queue + [p], accepted := b.accepted + [p], waited := b.waited + {|b.accepted|})
    else
      b.(accepted := b.accepted + [p], calls := b.calls + Fanout(b.listeners, |b.accepted|))
  }

  function Subscribe(b: Bus, l: Listener): Bus
    requires |b.queue| <= |b.accepted|
  {
    b.(listeners := if l in b.listeners then b.listeners else b.listeners + [l],
       queue := [],
       calls := b.calls + Drain(l, |b.accepted| - |b.queue|, |b.queue|))
  }

  function Without(listeners: seq<Listener>, l: Listener): seq<Listener> {
    if listeners == [] then []
    else if listeners[0] == l then Without(listeners[1..], l)
    else [listeners[0]] + Without(listeners[1..], l)
  }

  function Unsubscribe(b: Bus, l: Listener): Bus { b.(listeners := Without(b.listeners, l)) }

  // ---------------------------------------------------------------------------------------------
  // The invariant.
  // ---------------------------------------------------------------------------------------------

  ghost predicate Unique(s: seq<Listener>) { forall i, j :: 0 <= i < j < |s| ==> s[i] != s[j] }

  /** How many accepted payloads have left the queue. */
  function Out(b: Bus): int { |b.accepted| - |b.queue| }

  ghost predicate InOrder(calls: seq<Call>) {
    && (forall x, y :: 0 <= x < y < |calls| ==> calls[x].index <= calls[y].index)
    && (forall x, y :: 0 <= x < y < |calls| && calls[x].listener == calls[y].listener ==>
          calls[x].index < calls[y].index)
  }

  /** The payload numbers in the order of their first call. */
  function FirstSeen(calls: seq<Call>): seq<nat> {
    if calls == [] then []
    else
      var front, c := FirstSeen(calls[..|calls| - 1]), calls[|calls| - 1];
      if c.index in front then front else front + [c.index]
  }

  function Range(n: nat): seq<nat> { seq(n, i => i) }

  ghost predicate CalledOnce(calls: seq<Call>, n: nat) {
    forall x, y :: 0 <= x < y < |calls| ==> calls[x].index != n || calls[y].index != n
  }

  ghost predicate Below(calls: seq<Call>, n: nat) { forall c :: c in calls ==> c.index < n }

  ghost predicate From(calls: seq<Call>, n: nat) { forall c :: c in calls ==> c.index >= n }

  /** The queue is the end of what was accepted, and waits only while nobody listens. */
  ghost predicate QueueOk(b: Bus) {
    && Unique(b.listeners) && (b.queue != [] ==> b.listeners == [])
    && |b.queue| <= |b.accepted| && b.accepted[Out(b)..] == b.queue
  }

  /** Exactly the first n payloads have been delivered, in order. */
  ghost predicate CallsOk(calls: seq<Call>, n: nat) {
    InOrder(calls) && Below(calls, n) && FirstSeen(calls) == Range(n)
  }

  ghost predicate WaitedOk(b: Bus) {
    && (forall n :: n in b.waited ==> n < |b.accepted| && CalledOnce(b.calls, n))
    && (forall n :: Out(b) <= n < |b.accepted| ==> n in b.waited)
  }

  ghost predicate Inv(b: Bus) { QueueOk(b) && CallsOk(b.calls, Out(b)) && WaitedOk(b) }

  lemma EmptyInv()
    ensures Inv(EMPTY)
  {
  }

  /** Calling one more listener with the newest number. */
  lemma SeenAgain(calls: seq<Call>, n: nat, c: Call)
    requires FirstSeen(calls) == Range(n + 1) && c.index == n
    ensures FirstSeen(calls + [c]) == Range(n + 1)
  {
    assert (calls + [c])[..|calls|] == calls;
    assert Range(n + 1)[n] == n;
  }

  lemma SeenFirst(calls: seq<Call>, n: nat, c: Call)
    requires FirstSeen(calls) == Range(n) && c.index == n
    ensures FirstSeen(calls + [c]) == Range(n + 1)
  {
    assert (calls + [c])[..|calls|] == calls;
    assert n !in Range(n);
    assert Range(n + 1) == Range(n) + [n];
  }

  lemma {:induction false} FanoutSeen(calls: seq<Call>, listeners: seq<Listener>, n: nat)
    requires FirstSeen(calls) == Range(n) && listeners != []
    ensures FirstSeen(calls + Fanout(listeners, n)) == Range(n + 1)
  {
    var k := |listeners| - 1;
    var front, c := Fanout(listeners[..k], n), Call(n, listeners[k]);
    assert Fanout(listeners, n) == front + [c];
    assert calls + (front + [c]) == (calls + front) + [c];
    if k == 0 {
      assert calls + front == calls;
      SeenFirst(calls, n, c);
    } else {
      FanoutSeen(calls, listeners[..k], n);
      SeenAgain(calls + front, n, c);
    }
  }

  lemma {:induction false} DrainSeen(calls: seq<Call>, l: Listener, n: nat, count: nat)
    requires FirstSeen(calls) == Range(n)
    ensures FirstSeen(calls + Drain(l, n, count)) == Range(n + count)
    decreases count
  {
    if count == 0 {
      assert calls + Drain(l, n, count) == calls;
    } else {
      var front, c := Drain(l, n, count - 1), Call(n + count - 1, l);
      assert Drain(l, n, count) == front + [c];
      assert calls + (front + [c]) == (calls + front) + [c];
      DrainSeen(calls, l, n, count - 1);
      SeenFirst(calls + front, n + count - 1, c);
    }
  }

  /** Later calls with larger numbers keep the order. */
  lemma AppendInOrder(calls: seq<Call>, more: seq<Call>, n: nat)
    requires InOrder(calls) && InOrder(more) && Below(calls, n) && From(more, n)
    ensures InOrder(calls + more)
  {
    var all := calls + more;
    forall x, y | 0 <= x < y < |all|
      ensures all[x].index <= all[y].index && (all[x].listener == all[y].listener ==> all[x].index < all[y].index)
    {
      if y < |calls| {
        assert all[x] == calls[x] && all[y] == calls[y];
      } else if x >= |calls| {
        assert all[x] == more[x - |calls|] && all[y] == more[y - |calls|];
      } else {
        assert all[x] in calls && all[y] in more;
      }
    }
  }

  lemma AppendCalledOnce(calls: seq<Call>, more: seq<Call>, n: nat, m: nat)
    requires Below(calls, n) && From(more, n) && if m < n then CalledOnce(calls, m) else CalledOnce(more, m)
    ensures CalledOnce(calls + more, m)
  {
    var all := calls + more;
    forall x, y | 0 <= x < y < |all| ensures all[x].index != m || all[y].index != m {
      if y < |calls| {
        assert all[x] == calls[x] && all[y] == calls[y] && calls[x] in calls;
      } else if x >= |calls| {
        assert all[x] == more[x - |calls|] && all[y] == more[y - |calls|] && more[x - |calls|] in more;
      } else {
        assert all[x] in calls && all[y] in more;
      }
    }
  }

  // ---------------------------------------------------------------------------------------------
  // Every step and every run.
  // ---------------------------------------------------------------------------------------------

  lemma FanoutCalls(calls: seq<Call>, listeners: seq<Listener>, n: nat)
    requires CallsOk(calls, n) && Unique(listeners) && listeners != []
    ensures CallsOk(calls + Fanout(listeners, n), n + 1) && From(Fanout(listeners, n), n)
  {
    FanoutSeen(calls, listeners, n);
    AppendInOrder(calls, Fanout(listeners, n), n);
  }

  lemma DrainCalls(calls: seq<Call>, l: Listener, n: nat, count: nat)
    requires CallsOk(calls, n)
    ensures CallsOk(calls + Drain(l, n, count), n + count) && From(Drain(l, n, count), n)
    ensures forall m: nat :: CalledOnce(Drain(l, n, count), m)
  {
    DrainSeen(calls, l, n, count);
    AppendInOrder(calls, Drain(l, n, count), n);
  }

  lemma NotifyKeepsInv(b: Bus, p: Payload)
    requires Inv(b)
    ensures Inv(Notify(b, p))
  {
    var b1, n := Notify(b, p), |b.accepted|;
    if p.title != "" && b.listeners == [] {
      assert b1.accepted[Out(b)..] == b.accepted[Out(b)..] + [p];
    } else if p.title != "" {
      assert Out(b1) == n + 1 && b1.accepted[n + 1..] == [];
      FanoutCalls(b.calls, b.listeners, n);
      forall m: nat | m in b.waited ensures CalledOnce(b1.calls, m) {
        AppendCalledOnce(b.calls, Fanout(b.listeners, n), n, m);
      }
    }
  }

  lemma SubscribeKeepsInv(b: Bus, l: Listener)
    requires Inv(b)
    ensures Inv(Subscribe(b, l))
  {
    var b1, n := Subscribe(b, l), Out(b);
    assert Out(b1) == n + |b.queue| && b1.accepted[Out(b1)..] == [];
    DrainCalls(b.calls, l, n, |b.queue|);
    forall m: nat | m in b.waited ensures CalledOnce(b1.calls, m) {
      AppendCalledOnce(b.calls, Drain(l, n, |b.queue|), n, m);
    }
  }

  lemma {:induction false} WithoutUnique(listeners: seq<Listener>, l: Listener)
    requires Unique(listeners)
    ensures Unique(Without(listeners, l)) && forall x :: x in Without(listeners, l) <==> x in listeners && x != l
  {
    if listeners != [] {
      var rest := listeners[1..];
      WithoutUnique(rest, l);
      assert listeners == [listeners[0]] + rest;
      assert listeners[0] !in rest;
      if listeners[0] != l {
        assert listeners[0] !in Without(rest, l);
      }
    }
  }

  lemma UnsubscribeKeepsInv(b: Bus, l: Listener)
    requires Inv(b)
    ensures Inv(Unsubscribe(b, l))
  {
    WithoutUnique(b.listeners, l);
  }

  datatype Op = OpNotify(p: Payload) | OpSubscribe(l: Listener) | OpUnsubscribe(l: Listener)

  function Step(b: Bus, op: Op): Bus
    requires |b.queue| <= |b.accepted|
  {
    match op
    case OpNotify(p) => Notify(b, p)
    case OpSubscribe(l) => Subscribe(b, l)
    case OpUnsubscribe(l) => Unsubscribe(b, l)
  }

  /** The bus after a run from the start, last operation last. */
  function Run(ops: seq<Op>): (b: Bus)
    ensures |b.queue| <= |b.accepted|
  {
    if ops == [] then EMPTY else Step(Run(ops[..|ops| - 1]), ops[|ops| - 1])
  }

  /** The payloads that a run offers with a title. */
  function Offered(ops: seq<Op>): seq<Payload> {
    if ops == [] then []
    else
      var op := ops[|ops| - 1];
      Offered(ops[..|ops| - 1]) + if op.OpNotify? && op.p.title != "" then [op.p] else []
  }

  lemma {:induction false} RunInv(ops: seq<Op>)
    ensures Inv(Run(ops)) && Run(ops).accepted == Offered(ops)
  {
    if ops == [] {
      EmptyInv();
    } else {
      var front, op := ops[..|ops| - 1], ops[|ops| - 1];
      RunInv(front);
      match op
      case OpNotify(p) => NotifyKeepsInv(Run(front), p);
      case OpSubscribe(l) => SubscribeKeepsInv(Run(front), l);
      case OpUnsubscribe(l) => UnsubscribeKeepsInv(Run(front), l);
    }
  }

  function Pick(payloads: seq<Payload>, numbers: seq<nat>): seq<Payload>
    requires forall i :: 0 <= i < |numbers| ==> numbers[i] < |payloads|
  {
    seq(|numbers|, i requires 0 <= i < |numbers| => payloads[numbers[i]])
  }

  /**
   * Main result, over every run: nobody listens while something waits; the offered payloads are those
   * delivered, in the order of first delivery, followed by the queue; every listener gets payloads in
   * order and none twice; and a payload that had to wait is delivered at most once, exactly once when
   * it has left the queue.
   */
  lemma RunLosesNothing(ops: seq<Op>)
    ensures var b := Run(ops);
            var seen := FirstSeen(b.calls);
            && (b.queue != [] ==> b.listeners == [])
            && (forall i :: 0 <= i < |seen| ==> seen[i] < |b.accepted|)
            && Pick(b.accepted, seen) + b.queue == Offered(ops)
            && InOrder(b.calls)
            && (forall n :: n in b.waited ==> CalledOnce(b.calls, n) && (n in seen || n >= |b.accepted| - |b.queue|))
  {
    RunInv(ops);
    DeliveredThenQueued(Run(ops));
  }

  lemma DeliveredThenQueued(b: Bus)
    requires Inv(b)
    ensures var seen := FirstSeen(b.calls);
            && (forall i :: 0 <= i < |seen| ==> seen[i] < |b.accepted|)
            && Pick(b.accepted, seen) + b.queue == b.accepted
            && (forall n :: 0 <= n < Out(b) ==> n in seen)
  {
    var seen := FirstSeen(b.calls);
    assert seen == Range(Out(b));
    assert Pick(b.accepted, seen) == b.accepted[..Out(b)];
    forall n | 0 <= n < Out(b) ensures n in seen {
      assert seen[n] == n;
    }
  }

  /** The listener's last subscription or unsubscription in the run is a subscription. */
  ghost predicate LastSubscribes(ops: seq<Op>, l: Listener) {
    exists i :: 0 <= i < |ops| && SubscribesLast(ops, l, i)
  }

  ghost predicate SubscribesLast(ops: seq<Op>, l: Listener, i: nat)
    requires i < |ops|
  {
    ops[i] == OpSubscribe(l) && forall j :: i < j < |ops| ==> ops[j] != OpUnsubscribe(l)
  }

  lemma {:induction false} WithoutMembers(listeners: seq<Listener>, l: Listener)
    ensures forall x :: x in Without(listeners, l) <==> x in listeners && x != l
  {
    if listeners != [] {
      assert listeners == [listeners[0]] + listeners[1..];
      WithoutMembers(listeners[1..], l);
    }
  }

  lemma LastSubscribesStep(ops: seq<Op>, l: Listener)
    requires ops != []
    ensures var front, op := ops[..|ops| - 1], ops[|ops| - 1];
            LastSubscribes(ops, l) <==> op == OpSubscribe(l) || (op != OpUnsubscribe(l) && LastSubscribes(front, l))
  {
    var n := |ops| - 1;
    var front, op := ops[..n], ops[n];
    if op == OpSubscribe(l) {
      assert SubscribesLast(ops, l, n);
    }
    if op != OpUnsubscribe(l) && LastSubscribes(front, l) {
      var i :| 0 <= i < n && SubscribesLast(front, l, i);
      assert SubscribesLast(ops, l, i) by {
        forall j | i < j < |ops| ensures ops[j] != OpUnsubscribe(l) {
          assert j < n ==> front[j] == ops[j];
        }
      }
    }
    if LastSubscribes(ops, l) && op != OpSubscribe(l) {
      var i :| 0 <= i < |ops| && SubscribesLast(ops, l, i);
      assert SubscribesLast(front, l, i);
    }
  }

  /** Who listens after a run: those whose last word was a subscription. */
  lemma {:induction false} ListensIff(ops: seq<Op>, l: Listener)
    ensures l in Run(ops).listeners <==> LastSubscribes(ops, l)
  {
    if ops != [] {
      var front, op := ops[..|ops| - 1], ops[|ops| - 1];
      ListensIff(front, l);
      LastSubscribesStep(ops, l);
      if op.OpUnsubscribe? {
        WithoutMembers(Run(front).listeners, op.l);
      }
    }
  }

  /** When a listener began to listen: the subscription before which it was not listening. */
  function Since(ops: seq<Op>, l: Listener): nat {
    if ops == [] then 0
    else
      var front := ops[..|ops| - 1];
      if ops[|ops| - 1] == OpSubscribe(l) && l !in Run(front).listeners then |ops| else Since(front, l)
  }

  lemma {:induction false} SinceWithin(ops: seq<Op>, l: Listener)
    ensures Since(ops, l) <= |ops|
  {
    if ops != [] {
      SinceWithin(ops[..|ops| - 1], l);
    }
  }

  ghost predicate ByAge(ops: seq<Op>, listeners: seq<Listener>) {
    forall x, y :: 0 <= x < y < |listeners| ==> Since(ops, listeners[x]) < Since(ops, listeners[y])
  }

  lemma {:induction false} WithoutByAge(ops: seq<Op>, listeners: seq<Listener>, l: Listener)
    requires ByAge(ops, listeners)
    ensures ByAge(ops, Without(listeners, l))
  {
    if listeners != [] {
      var rest := listeners[1..];
      assert ByAge(ops, rest);
      WithoutByAge(ops, rest, l);
      WithoutMembers(rest, l);
      if listeners[0] != l {
        forall y | 0 <= y < |Without(rest, l)| ensures Since(ops, listeners[0]) < Since(ops, Without(rest, l)[y]) {
          assert Without(rest, l)[y] in rest;
          var z :| 0 <= z < |rest| && rest[z] == Without(rest, l)[y];
          assert rest[z] == listeners[z + 1];
        }
      }
    }
  }

  /** The listeners stand in the order in which they began to listen. */
  lemma {:induction false} ListenersByAge(ops: seq<Op>)
    ensures ByAge(ops, Run(ops).listeners)
  {
    if ops != [] {
      var front, op := ops[..|ops| - 1], ops[|ops| - 1];
      var before := Run(front).listeners;
      ListenersByAge(front);
      if op.OpSubscribe? && op.l !in before {
        forall x | 0 <= x < |before| ensures Since(ops, before[x]) < |ops| {
          assert before[x] in before;
          SinceWithin(front, before[x]);
        }
        assert forall x, y :: 0 <= x < y < |before| ==> Since(ops, before[x]) < Since(ops, before[y]);
      } else {
        assert forall l :: l in before ==> Since(ops, l) == Since(front, l);
        assert ByAge(ops, before);
        if op.OpUnsubscribe? {
          WithoutByAge(ops, before, op.l);
        }
      }
    }
  }

  /**
   * A titled notification that finds listeners is called at once, exactly once with each of them, in the order
   * in which they began to listen, and with nobody else.
   */
  lemma NotifyCallsEachListener(ops: seq<Op>, p: Payload)
    requires p.title != "" && Run(ops).listeners != []
    ensures var before, after := Run(ops), Run(ops + [OpNotify(p)]);
            && after.accepted == before.accepted + [p] && after.queue == before.queue == []
            && |after.calls| == |before.calls| + |before.listeners| && after.calls[..|before.calls|] == before.calls
            && forall x :: 0 <= x < |before.listeners| ==>
                 after.calls[|before.calls| + x] == Call(|before.accepted|, before.listeners[x])
    ensures forall x, y :: 0 <= x < y < |Run(ops).listeners| ==> Run(ops).listeners[x] != Run(ops).listeners[y]
  {
    assert (ops + [OpNotify(p)])[..|ops|] == ops;
    RunInv(ops);
  }

  /** The x-th call is to this listener with this payload. */
  predicate Delivers(b: Bus, x: nat, l: Listener, p: Payload) {
    && x < |b.calls| && b.calls[x].listener == l
    && b.calls[x].index < |b.accepted| && b.accepted[b.calls[x].index] == p
  }

  lemma QueueIsTail(b: Bus, x: nat)
    requires QueueOk(b) && x < |b.queue|
    ensures 0 <= Out(b) + x < |b.accepted| && b.accepted[Out(b) + x] == b.queue[x]
  {
    assert b.accepted[Out(b)..][x] == b.queue[x];
  }

  lemma DrainAt(l: Listener, first: nat, count: nat, x: nat)
    requires x < count
    ensures Drain(l, first, count)[x] == Call(first + x, l)
  {
  }

  lemma SubscribeDelivers(b: Bus, l: Listener, x: nat)
    requires QueueOk(b) && x < |b.queue|
    ensures Delivers(Subscribe(b, l), |b.calls| + x, l, b.queue[x])
  {
    QueueIsTail(b, x);
    DrainAt(l, Out(b), |b.queue|, x);
    assert Subscribe(b, l).calls[|b.calls| + x] == Drain(l, Out(b), |b.queue|)[x];
  }

  lemma RunStep(ops: seq<Op>, op: Op)
    ensures Run(ops + [op]) == Step(Run(ops), op)
  {
    assert (ops + [op])[..|ops|] == ops;
  }

  /** The listener listens, nothing waits, and the new calls are the queue's payloads to it, in order. */
  ghost predicate Drains(before: Bus, after: Bus, l: Listener) {
    && l in after.listeners && after.queue == [] && after.accepted == before.accepted
    && |after.calls| == |before.calls| + |before.queue| && after.calls[..|before.calls|] == before.calls
    && forall x :: 0 <= x < |before.queue| ==> Delivers(after, |before.calls| + x, l, before.queue[x])
  }

  lemma SubscribeDrains(b: Bus, l: Listener)
    requires QueueOk(b)
    ensures Drains(b, Subscribe(b, l), l)
  {
    forall x | 0 <= x < |b.queue| ensures Delivers(Subscribe(b, l), |b.calls| + x, l, b.queue[x]) {
      SubscribeDelivers(b, l, x);
    }
  }

  lemma RunQueueOk(ops: seq<Op>)
    ensures QueueOk(Run(ops))
  {
    RunInv(ops);
  }

  /** A subscriber is called at once, in order, with all that waits, and nobody else is called. */
  lemma SubscriberGetsTheQueue(ops: seq<Op>, l: Listener)
    ensures Drains(Run(ops), Run(ops + [OpSubscribe(l)]), l)
  {
    RunStep(ops, OpSubscribe(l));
    RunQueueOk(ops);
    SubscribeDrains(Run(ops), l);
  }

  // ---------------------------------------------------------------------------------------------
  // The module as it runs.
  // ---------------------------------------------------------------------------------------------

  class NotificationBus {
    var listeners: seq<Listener>
    var pendingQueue: seq<Payload>
    ghost var accepted: seq<Payload>
    ghost var calls: seq<Call>
    ghost var waited: set<nat>

    ghost function State(): Bus
      reads this
    {
      Bus(listeners, pendingQueue, accepted, calls, waited)
    }

    constructor ()
      ensures State() == EMPTY
    {
      listeners, pendingQueue := [], [];
      accepted, calls, waited := [], [], {};
    }

    method Notify(payload: Payload)
      requires Inv(State())
      modifies this
      ensures State() == Step(old(State()), OpNotify(payload)) && Inv(State())
    {
      NotifyKeepsInv(State(), payload);
      if payload.title == "" {
        return;
      }
      ghost var index := |accepted|;
      accepted := accepted + [payload];
      if |listeners| == 0 {
        pendingQueue := pendingQueue + [payload];
        waited := waited + {index};
        return;
      }
      for i := 0 to |listeners|
        invariant unchanged(this`listeners) && unchanged(this`pendingQueue) && unchanged(this`waited)
        invariant accepted == old(accepted) + [payload]
        invariant calls == old(calls) + Fanout(listeners, index)[..i]
      {
        calls := calls + [Call(index, listeners[i])];
      }
      assert Fanout(listeners, index)[..|listeners|] == Fanout(listeners, index);
    }

    /** The calls that drain the queue. */
    method CallEach(listener: Listener, queued: seq<Payload>, ghost first: nat)
      modifies this`calls
      ensures calls == old(calls) + Drain(listener, first, |queued|)
    {
      for i := 0 to |queued|
        invariant calls == old(calls) + Drain(listener, first, |queued|)[..i]
      {
        calls := calls + [Call(first + i, listener)];
      }
      assert Drain(listener, first, |queued|)[..|queued|] == Drain(listener, first, |queued|);
    }

    method Subscribe(listener: Listener)
      requires Inv(State())
      modifies this
      ensures State() == Step(old(State()), OpSubscribe(listener)) && Inv(State())
    {
      SubscribeKeepsInv(State(), listener);
      ghost var first := |accepted| - |pendingQueue|;
      if listener !in listeners {
        listeners := listeners + [listener];
      }
      if |pendingQueue| > 0 {
        var queued := pendingQueue;
        pendingQueue := [];
        CallEach(listener, queued, first);
      } else {
        assert calls + Drain(listener, first, 0) == calls;
      }
    }

    method Unsubscribe(listener: Listener)
      requires Inv(State())
      modifies this`listeners
      ensures State() == Step(old(State()), OpUnsubscribe(listener)) && Inv(State())
    {
      UnsubscribeKeepsInv(State(), listener);
      listeners := Without(listeners, listener);
    }
  }
}
