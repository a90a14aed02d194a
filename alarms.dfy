/**
 * The deadline-ordered alarm scheduler (`Alarm` and the second
 * `AlarmCallbackSystem`).  The registry is a binary min-heap ordered by
 * `Alarm::operator>`, exactly what `std::priority_queue` with
 * `std::greater<Alarm>` keeps; one iteration of the scheduling loop either
 * fires the earliest alarm, when it is due, or fires nothing.
 */
module Alarms {
  import opened Common

  /** A callback and the steady-clock instant at which it becomes due. */
  datatype Alarm = Alarm(cb: CallbackId, scheduledTime: int)

  /** `Alarm::operator>`: alarms compare by their scheduled time only, so
      two alarms due at the same instant (an alarm and itself among them)
      never compare greater either way. */
  predicate Greater(a: Alarm, b: Alarm): (r: bool)
    ensures r ==> a.scheduledTime != b.scheduledTime
  {
    a.scheduledTime > b.scheduledTime
  }

  /** `std::greater<Alarm>` is a strict weak ordering, as
      `std::priority_queue` requires of its comparator: irreflexive,
      asymmetric, transitive, and alarms that are mutually not greater are
      due at the same instant. */
  lemma GreaterIsStrictWeakOrder(a: Alarm, b: Alarm, c: Alarm)
    ensures !Greater(a, a)
    ensures Greater(a, b) ==> !Greater(b, a)
    ensures Greater(a, b) && Greater(b, c) ==> Greater(a, c)
    ensures !Greater(a, b) && !Greater(b, a) <==> a.scheduledTime == b.scheduledTime
  {
  }

  /** Index of the parent of heap slot `i`. */
  function Parent(i: nat): nat
    requires i > 0
  {
    (i - 1) / 2
  }

  /** The layout `std::priority_queue<…, std::greater<Alarm>>` maintains:
      no slot is greater than any of its children. */
  ghost predicate IsMinHeap(h: seq<Alarm>) {
    forall i :: 0 < i < |h| ==> !Greater(h[Parent(i)], h[i])
  }

  /** Scheduled times that never decrease along `s`. */
  ghost predicate NonDecreasing(s: seq<Alarm>) {
    forall i, j :: 0 <= i < j < |s| ==> !Greater(s[i], s[j])
  }

  /** The top of a heap is no later than any slot of it. */
  lemma {:induction false} TopIsEarliestAt(h: seq<Alarm>, i: nat)
    requires IsMinHeap(h) && i < |h|
    ensures !Greater(h[0], h[i])
    decreases i
  {
    if i > 0 {
      TopIsEarliestAt(h, Parent(i));
    }
  }

  /** `top()` is a minimum of the pending alarms: no pending alarm is due earlier. */
  lemma TopIsEarliest(h: seq<Alarm>)
    requires IsMinHeap(h) && |h| > 0
    ensures forall a :: a in multiset(h) ==> !Greater(h[0], a)
  {
    forall a | a in multiset(h)
      ensures !Greater(h[0], a)
    {
      var i :| 0 <= i < |h| && h[i] == a;
      TopIsEarliestAt(h, i);
    }
  }

  /** `s` with slots `i` and `j` exchanged. */
  function Swap(s: seq<Alarm>, i: nat, j: nat): (r: seq<Alarm>)
    requires i < |s| && j < |s|
    ensures |r| == |s| && r[i] == s[j] && r[j] == s[i]
    ensures forall m :: 0 <= m < |s| && m != i && m != j ==> r[m] == s[m]
    ensures multiset(r) == multiset(s)
  {
    s[i := s[j]][j := s[i]]
  }

  /** Heap order holds on every edge except the one into slot `k`. */
  ghost predicate HeapExceptInto(h: seq<Alarm>, k: nat) {
    forall i :: 0 < i < |h| && i != k ==> !Greater(h[Parent(i)], h[i])
  }

  /** Heap order holds on every edge except those out of slot `k`. */
  ghost predicate HeapExceptOutOf(h: seq<Alarm>, k: nat) {
    forall i :: 0 < i < |h| && Parent(i) != k ==> !Greater(h[Parent(i)], h[i])
  }

  /** The parent of slot `k` is no later than the children of `k`. */
  ghost predicate Bridged(h: seq<Alarm>, k: nat) {
    forall c :: 0 < k && 0 < c < |h| && Parent(c) == k ==> !Greater(h[Parent(k)], h[c])
  }

  /** One sift-up exchange moves the single possible violation one level up. */
  lemma SiftUpStep(h: seq<Alarm>, k: nat)
    requires 0 < k < |h| && HeapExceptInto(h, k) && Bridged(h, k)
    requires Greater(h[Parent(k)], h[k])
    ensures HeapExceptInto(Swap(h, Parent(k), k), Parent(k))
    ensures Bridged(Swap(h, Parent(k), k), Parent(k))
  {
    var p := Parent(k);
    var r := Swap(h, p, k);
    forall i | 0 < i < |r| && i != p
      ensures !Greater(r[Parent(i)], r[i])
    {
      if i == k {
      } else if Parent(i) == k {
        assert r[Parent(i)] == h[p];
      } else if Parent(i) == p {
        assert r[Parent(i)] == h[k] && r[i] == h[i];
      } else {
        assert r[Parent(i)] == h[Parent(i)] && r[i] == h[i];
      }
    }
    forall c | 0 < p && 0 < c < |r| && Parent(c) == p
      ensures !Greater(r[Parent(p)], r[c])
    {
      assert Parent(p) != k && Parent(p) < p;
      assert r[Parent(p)] == h[Parent(p)];
      if c == k {
        assert r[c] == h[p];
      } else {
        assert r[c] == h[c] && !Greater(h[p], h[c]);
      }
    }
  }

  /** One sift-down exchange with the earlier child moves the single possible
      violation one level down. */
  lemma SiftDownStep(h: seq<Alarm>, k: nat, m: nat)
    requires k < m < |h| && Parent(m) == k
    requires HeapExceptOutOf(h, k) && Bridged(h, k)
    requires Greater(h[k], h[m])
    requires forall c :: 0 < c < |h| && Parent(c) == k ==> !Greater(h[m], h[c])
    ensures HeapExceptOutOf(Swap(h, k, m), m)
    ensures Bridged(Swap(h, k, m), m)
  {
    var r := Swap(h, k, m);
    forall i | 0 < i < |r| && Parent(i) != m
      ensures !Greater(r[Parent(i)], r[i])
    {
      if i == m {
      } else if Parent(i) == k {
        assert r[Parent(i)] == h[m] && r[i] == h[i];
      } else if i == k {
        assert r[Parent(i)] == h[Parent(i)];
      } else {
        assert r[Parent(i)] == h[Parent(i)] && r[i] == h[i];
      }
    }
    forall c | 0 < c < |r| && Parent(c) == m
      ensures !Greater(r[Parent(m)], r[c])
    {
      assert c != k && c != m && r[c] == h[c];
    }
  }

  /** `callback_registry.push`: adds exactly one alarm and keeps the heap order. */
  method HeapPush(h: seq<Alarm>, a: Alarm) returns (r: seq<Alarm>)
    requires IsMinHeap(h)
    ensures IsMinHeap(r)
    ensures multiset(r) == multiset(h) + multiset{a}
    ensures |r| == |h| + 1
  {
    r := h + [a];
    var k: nat := |h|;
    while k > 0 && Greater(r[Parent(k)], r[k])
      invariant k < |r| == |h| + 1
      invariant multiset(r) == multiset(h) + multiset{a}
      invariant HeapExceptInto(r, k) && Bridged(r, k)
    {
      SiftUpStep(r, k);
      r := Swap(r, Parent(k), k);
      k := Parent(k);
    }
  }

  /** `callback_registry.pop` after `top`: removes exactly the earliest alarm
      and keeps the heap order of the rest. */
  method HeapPop(h: seq<Alarm>) returns (top: Alarm, r: seq<Alarm>)
    requires IsMinHeap(h) && |h| > 0
    ensures top == h[0]
    ensures IsMinHeap(r)
    ensures multiset(r) == multiset(h) - multiset{top}
    ensures |r| == |h| - 1
  {
    top := h[0];
    var last := h[|h| - 1];
    r := h[..|h| - 1];
    assert h == r + [last];
    if |r| > 0 {
      PopMovesLastToTop(h);
      r := SiftDown(r[0 := last]);
    }
  }

  /** After the top is removed and the last slot moved into its place, only the
      edges out of the top can be out of order. */
  lemma PopMovesLastToTop(h: seq<Alarm>)
    requires IsMinHeap(h) && |h| > 1
    ensures HeapExceptOutOf(h[..|h| - 1][0 := h[|h| - 1]], 0)
  {
    var r := h[..|h| - 1][0 := h[|h| - 1]];
    forall i | 0 < i < |r| && Parent(i) != 0
      ensures !Greater(r[Parent(i)], r[i])
    {
      assert r[Parent(i)] == h[Parent(i)] && r[i] == h[i];
    }
  }

  /** Restores the heap order when only the edges out of the top may be violated. */
  method SiftDown(h: seq<Alarm>) returns (r: seq<Alarm>)
    requires |h| > 0 && HeapExceptOutOf(h, 0)
    ensures IsMinHeap(r)
    ensures multiset(r) == multiset(h)
    ensures |r| == |h|
  {
    r := h;
    var k: nat := 0;
    while true
      invariant k < |r| == |h|
      invariant multiset(r) == multiset(h)
      invariant HeapExceptOutOf(r, k) && Bridged(r, k)
      decreases |r| - k
    {
      var left := 2 * k + 1;
      if left >= |r| {
        SiftDownDone(r, k);
        break;
      }
      var m := EarlierChild(r, k);
      if !Greater(r[k], r[m]) {
        SiftDownDone(r, k);
        break;
      }
      SiftDownStep(r, k, m);
      r := Swap(r, k, m);
      k := m;
    }
  }

  /** The child of slot `k` that sift-down exchanges with: the earlier one,
      the left one on a tie. */
  function EarlierChild(h: seq<Alarm>, k: nat): (m: nat)
    requires 2 * k + 1 < |h|
    ensures k < m < |h| && Parent(m) == k
    ensures forall c :: 0 < c < |h| && Parent(c) == k ==> !Greater(h[m], h[c])
  {
    if 2 * k + 2 < |h| && Greater(h[2 * k + 1], h[2 * k + 2]) then 2 * k + 2 else 2 * k + 1
  }

  /** Sift-down may stop once slot `k` is no later than its children. */
  lemma SiftDownDone(h: seq<Alarm>, k: nat)
    requires k < |h| && HeapExceptOutOf(h, k)
    requires 2 * k + 1 < |h| ==> !Greater(h[k], h[2 * k + 1])
    requires 2 * k + 2 < |h| ==> !Greater(h[k], h[2 * k + 2])
    ensures IsMinHeap(h)
  {
    forall i | 0 < i < |h| && Parent(i) == k
      ensures !Greater(h[Parent(i)], h[i])
    {
      assert i == 2 * k + 1 || i == 2 * k + 2;
    }
  }

  /** What one iteration of `loop` does. */
  datatype StepOutcome =
    | Exited                    // `stopped` was set: the loop ends
    | Idle                      // nothing pending: `cv.wait(lock)`
    | Fired(alarm: Alarm)       // the earliest alarm was due and went to the pool
    | SleepUntil(deadline: int) // the earliest alarm is not due: `cv.wait_until`

  class AlarmCallbackSystem {
    /** `callback_registry`, a binary min-heap. */
    var registry: seq<Alarm>
    /** `stopped`, set by `shutdown`. */
    var stopped: bool
    /** Callbacks handed to `threadPool.enqueue`, in the order they were handed over. */
    var dispatched: seq<CallbackId>
    /** Alarms fired since the last `pushEvent`, in firing order. */
    ghost var firedSincePush: seq<Alarm>

    ghost predicate Valid()
      reads this
    {
      && IsMinHeap(registry)
      && NonDecreasing(firedSincePush)
      && (forall f, a :: f in firedSincePush && a in registry ==> !Greater(f, a))
    }

    constructor ()
      ensures Valid() && fresh(this)
      ensures registry == [] && !stopped && dispatched == []
    {
      registry := [];
      stopped := false;
      dispatched := [];
      firedSincePush := [];
    }

    /** `pushEvent(cb, delay)` with the clock reading `now`: one new alarm due at
        `now + delay`; every alarm already pending stays pending. */
    method PushEvent(cb: CallbackId, delay: int, now: int)
      requires Valid()
      modifies this
      ensures Valid()
      ensures multiset(registry) == multiset(old(registry)) + multiset{Alarm(cb, now + delay)}
      ensures stopped == old(stopped) && dispatched == old(dispatched)
    {
      registry := HeapPush(registry, Alarm(cb, now + delay));
      firedSincePush := [];
    }

    /** One iteration of `loop` at clock reading `now`. */
    method LoopStep(now: int) returns (outcome: StepOutcome)
      requires Valid()
      modifies this
      ensures Valid() && stopped == old(stopped)
      // after shutdown the loop exits and nothing pending is ever fired
      ensures old(stopped) <==> outcome == Exited
      // a wait with no deadline exactly when nothing is pending
      ensures outcome == Idle <==> !old(stopped) && old(registry) == []
      // the earliest pending alarm fires exactly when it is due
      ensures outcome.Fired? <==> !old(stopped) && old(registry) != [] && now >= old(registry)[0].scheduledTime
      ensures outcome.Fired? ==>
        && outcome.alarm.scheduledTime <= now
        && outcome.alarm in multiset(old(registry))
        && (forall a :: a in multiset(old(registry)) ==> !Greater(outcome.alarm, a))
        && multiset(registry) == multiset(old(registry)) - multiset{outcome.alarm}
        && dispatched == old(dispatched) + [outcome.alarm.cb]
        && firedSincePush == old(firedSincePush) + [outcome.alarm]
      // waiting: the deadline is the earliest pending one, still in the future
      ensures outcome.SleepUntil? ==>
        && !old(stopped) && old(registry) != [] && now < outcome.deadline
        && outcome.deadline == old(registry)[0].scheduledTime
        && (forall a :: a in multiset(old(registry)) ==> outcome.deadline <= a.scheduledTime)
      ensures !outcome.Fired? ==>
        registry == old(registry) && dispatched == old(dispatched) && firedSincePush == old(firedSincePush)
    {
      if stopped {
        return Exited;
      }
      if registry == [] {
        return Idle;
      }
      TopIsEarliest(registry);
      var next := registry[0];
      if now >= next.scheduledTime {
        var top, rest := HeapPop(registry);
        FiringKeepsOrder(firedSincePush, registry, top, rest);
        registry := rest;
        dispatched := dispatched + [top.cb];
        firedSincePush := firedSincePush + [top];
        outcome := Fired(top);
      } else {
        outcome := SleepUntil(next.scheduledTime);
      }
    }

    /** `shutdown`: sets `stopped`; pending alarms stay where they are. */
    method Shutdown()
      requires Valid()
      modifies this
      ensures Valid() && stopped
      ensures registry == old(registry) && dispatched == old(dispatched)
    {
      stopped := true;
    }
  }

  /** Firing the top keeps the fired alarms in order and no later than any
      alarm still pending. */
  lemma FiringKeepsOrder(fired: seq<Alarm>, h: seq<Alarm>, top: Alarm, rest: seq<Alarm>)
    requires NonDecreasing(fired)
    requires forall f, a :: f in fired && a in h ==> !Greater(f, a)
    requires top in multiset(h) && forall a :: a in multiset(h) ==> !Greater(top, a)
    requires multiset(rest) == multiset(h) - multiset{top}
    ensures NonDecreasing(fired + [top])
    ensures forall f, a :: f in fired + [top] && a in rest ==> !Greater(f, a)
  {
    forall f, a | f in fired + [top] && a in rest
      ensures !Greater(f, a)
    {
      assert a in multiset(rest);
      assert a in multiset(h);
    }
  }

  /** Two successive firings with no `pushEvent` between them come in
      non-decreasing order of scheduled time. */
  lemma SuccessiveFiringsInOrder(h: seq<Alarm>, first: Alarm, rest: seq<Alarm>)
    requires IsMinHeap(h) && IsMinHeap(rest) && |h| > 0 && |rest| > 0
    requires first == h[0] && multiset(rest) == multiset(h) - multiset{first}
    ensures first.scheduledTime <= rest[0].scheduledTime
  {
    assert rest[0] in multiset(rest);
    TopIsEarliest(h);
  }
}
