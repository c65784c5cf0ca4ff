/**
 The bounded ring of data-queue-concurrent/static.c (mutex and condition variable
 build) with one producer and one consumer, as its main uses it. What a thread does
 between taking the lock and releasing it or waiting is one step.
 */
module RingQueue {
  import opened Arith
  import opened TestData

  datatype Slot = Slot(inUse: bool, data: Item)

  // head and tail are uint32_t.
  datatype Ring = Ring(limit: nat, slots: seq<Slot>, head: nat, tail: nat)

  predicate WellFormed(q: Ring) {
    0 < q.limit == |q.slots| && q.head < W32 && q.tail < W32
  }

  // A thread outside its queue operation, blocked in pthread_cond_wait with the indices
  // it computed before, or woken from there and about to take the lock again.
  datatype Thread = Running | Waiting(hidx: nat, tidx: nat) | Woken(hidx: nat, tidx: nat)

  // The producer enqueues items in order; enq of them are in, deq have come out.
  datatype Sys = Sys(q: Ring, items: seq<Item>, enq: nat, deq: seq<Item>, prod: Thread, cons: Thread)

  datatype Step = ProdEnter | ProdResume | ProdSpurious | ConsEnter | ConsResume | ConsSpurious

  // The slot of a head or tail count.
  function Idx(k: nat, limit: nat): (i: nat)
    requires limit > 0
    ensures i < limit
  {
    k % limit
  }

  function HeadIdx(q: Ring): (i: nat)
    requires WellFormed(q)
    ensures i < q.limit
  {
    Idx(q.head, q.limit)
  }

  function TailIdx(q: Ring): (i: nat)
    requires WellFormed(q)
    ensures i < q.limit
  {
    Idx(q.tail, q.limit)
  }

  // The tests of enqueue and dequeue, on whatever indices the caller has.
  predicate LooksFull(q: Ring, hidx: nat, tidx: nat)
    requires hidx < |q.slots|
  {
    hidx == tidx && q.slots[hidx].inUse
  }

  predicate LooksEmpty(q: Ring, hidx: nat, tidx: nat)
    requires hidx < |q.slots|
  {
    hidx == tidx && !q.slots[hidx].inUse
  }

  // k + 1 on uint32_t.
  function Bump(k: nat): (r: nat)
    ensures r < W32
  {
    (k + 1) % W32
  }

  lemma BumpSmall(k: nat)
    requires k + 1 < W32
    ensures Bump(k) == k + 1
  {
  }

  function Put(q: Ring, tidx: nat, item: Item): Ring
    requires tidx < |q.slots|
  {
    q.(slots := q.slots[tidx := Slot(true, item)], tail := Bump(q.tail))
  }

  function Take(q: Ring, hidx: nat): Ring
    requires hidx < |q.slots|
  {
    q.(slots := q.slots[hidx := q.slots[hidx].(inUse := false)], head := Bump(q.head))
  }

  function Signalled(t: Thread, signal: bool): Thread {
    if signal && t.Waiting? then Woken(t.hidx, t.tidx) else t
  }

  predicate Shaped(s: Sys) {
    && WellFormed(s.q)
    && s.enq <= |s.items|
    && (!s.prod.Running? ==> s.enq < |s.items| && s.prod.hidx < s.q.limit && s.prod.tidx < s.q.limit)
    && (!s.cons.Running? ==> s.cons.hidx < s.q.limit && s.cons.tidx < s.q.limit)
  }

  function DoEnqueue(s: Sys, hidx: nat, tidx: nat): Sys
    requires Shaped(s) && s.enq < |s.items| && hidx < s.q.limit && tidx < s.q.limit
  {
    s.(q := Put(s.q, tidx, s.items[s.enq]), enq := s.enq + 1, prod := Running,
       cons := Signalled(s.cons, LooksEmpty(s.q, hidx, tidx)))
  }

  function DoDequeue(s: Sys, hidx: nat, tidx: nat): Sys
    requires Shaped(s) && hidx < s.q.limit && tidx < s.q.limit
  {
    s.(q := Take(s.q, hidx), deq := s.deq + [s.q.slots[hidx].data], cons := Running,
       prod := Signalled(s.prod, LooksFull(s.q, hidx, tidx)))
  }

  // do_enqueue and do_dequeue stop after one pass over the items.
  predicate Enabled(s: Sys, step: Step) {
    match step
    case ProdEnter => s.prod.Running? && s.enq < |s.items|
    case ProdResume => s.prod.Woken?
    case ProdSpurious => s.prod.Waiting?
    case ConsEnter => s.cons.Running? && |s.deq| < |s.items|
    case ConsResume => s.cons.Woken?
    case ConsSpurious => s.cons.Waiting?
  }

  function Apply(s: Sys, step: Step): (s': Sys)
    requires Shaped(s) && Enabled(s, step)
    ensures Shaped(s')
  {
    match step
    case ProdEnter =>
      var h, t := HeadIdx(s.q), TailIdx(s.q);
      if LooksFull(s.q, h, t) then s.(prod := Waiting(h, t)) else DoEnqueue(s, h, t)
    case ProdResume =>
      var h, t := s.prod.hidx, s.prod.tidx;
      if LooksFull(s.q, h, t) then s.(prod := Running) else DoEnqueue(s, h, t)
    case ProdSpurious => s.(prod := Woken(s.prod.hidx, s.prod.tidx))
    case ConsEnter =>
      var h, t := HeadIdx(s.q), TailIdx(s.q);
      if LooksEmpty(s.q, h, t) then s.(cons := Waiting(h, t)) else DoDequeue(s, h, t)
    case ConsResume =>
      var h, t := s.cons.hidx, s.cons.tidx;
      if LooksEmpty(s.q, h, t) then s.(cons := Running) else DoDequeue(s, h, t)
    case ConsSpurious => s.(cons := Woken(s.cons.hidx, s.cons.tidx))
  }

  // make_queue and two threads about to start.
  predicate Init(s: Sys, limit: nat, items: seq<Item>) {
    && 0 < limit == |s.q.slots|
    && (forall i | 0 <= i < limit :: !s.q.slots[i].inUse)
    && s.q == Ring(limit, s.q.slots, 0, 0)
    && s == Sys(s.q, items, 0, [], Running, Running)
  }

  predicate CanExec(s: Sys, steps: seq<Step>)
    requires Shaped(s)
    decreases |steps|
  {
    steps == [] || (Enabled(s, steps[0]) && CanExec(Apply(s, steps[0]), steps[1..]))
  }

  predicate NoSpurious(steps: seq<Step>) {
    forall i | 0 <= i < |steps| :: !steps[i].ProdSpurious? && !steps[i].ConsSpurious?
  }

  function Exec(s: Sys, steps: seq<Step>): (s': Sys)
    requires Shaped(s) && CanExec(s, steps)
    ensures Shaped(s')
    decreases |steps|
  {
    if steps == [] then s else Exec(Apply(s, steps[0]), steps[1..])
  }

  // ---------- when limit divides 2^32, or at most 2^32 items go through ----------

  // The counters head and tail stay in step with the slots.
  predicate InStep(limit: nat, count: nat)
    requires limit > 0
  {
    4294967296 % limit == 0 || count <= 4294967296
  }

  // The ring holds items[d..n] in the slots from head to tail, and no other slot is in use.
  ghost predicate Holds(q: Ring, items: seq<Item>, d: nat, n: nat) {
    && WellFormed(q)
    && d <= n <= |items| && n <= d + q.limit
    && q.head == d % W32 && q.tail == n % W32
    && (forall k | d <= k < n :: q.slots[Idx(k, q.limit)] == Slot(true, items[k]))
    && (forall k | n <= k < d + q.limit :: !q.slots[Idx(k, q.limit)].inUse)
  }

  ghost predicate Inv(s: Sys) {
    var d, n := |s.deq|, s.enq;
    && Shaped(s)
    && Holds(s.q, s.items, d, n)
    && s.deq == s.items[..d]
    && (!s.prod.Running? ==> s.prod.hidx == s.prod.tidx == Idx(n, s.q.limit))
    && (!s.cons.Running? ==> s.cons.hidx == s.cons.tidx == Idx(d, s.q.limit) && d < |s.items|)
    && (s.prod.Waiting? ==> n == d + s.q.limit)
    && (s.cons.Waiting? ==> n == d)
  }

  // The index that a wrapped counter gives.
  lemma FreshIndex(k: nat, limit: nat)
    requires limit > 0 && (W32 % limit == 0 || k < W32)
    ensures Idx(k % W32, limit) == Idx(k, limit)
  {
    if k >= W32 {
      ModMod(k, W32, limit);
    }
  }

  lemma SlotTests(q: Ring, items: seq<Item>, d: nat, n: nat)
    requires Holds(q, items, d, n)
    ensures Idx(d, q.limit) == Idx(n, q.limit) <==> n == d || n == d + q.limit
    ensures q.slots[Idx(n, q.limit)].inUse <==> n == d + q.limit
    ensures q.slots[Idx(d, q.limit)].inUse <==> n != d
  {
    ModShift(d, q.limit, 1);
    if d < n < d + q.limit {
      ModDistinct(d, n, q.limit);
    }
    if n < d + q.limit {
      assert !q.slots[Idx(n, q.limit)].inUse;
    } else {
      assert Idx(n, q.limit) == Idx(d, q.limit) && q.slots[Idx(d, q.limit)] == Slot(true, items[d]);
    }
  }

  lemma PutHolds(q: Ring, items: seq<Item>, d: nat, n: nat)
    requires Holds(q, items, d, n) && n < |items| && n < d + q.limit
    ensures Holds(Put(q, Idx(n, q.limit), items[n]), items, d, n + 1)
  {
    var q' := Put(q, Idx(n, q.limit), items[n]);
    forall k | d <= k < n + 1 ensures q'.slots[Idx(k, q.limit)] == Slot(true, items[k]) {
      if k < n {
        ModDistinct(k, n, q.limit);
      }
    }
    forall k | n + 1 <= k < d + q.limit ensures !q'.slots[Idx(k, q.limit)].inUse {
      ModDistinct(n, k, q.limit);
    }
    WrapNext(n);
  }

  lemma TakeHolds(q: Ring, items: seq<Item>, d: nat, n: nat)
    requires Holds(q, items, d, n) && d < n
    ensures Holds(Take(q, Idx(d, q.limit)), items, d + 1, n)
  {
    var q' := Take(q, Idx(d, q.limit));
    forall k | d + 1 <= k < n ensures q'.slots[Idx(k, q.limit)] == Slot(true, items[k]) {
      ModDistinct(d, k, q.limit);
    }
    forall k | n <= k < d + 1 + q.limit ensures !q'.slots[Idx(k, q.limit)].inUse {
      if k < d + q.limit {
        ModDistinct(d, k, q.limit);
      } else {
        ModShift(d, q.limit, 1);
      }
    }
    WrapNext(d);
  }

  lemma WrapNext(x: nat)
    ensures Bump(x % W32) == (x + 1) % W32
  {
  }

  lemma EnqueueInv(s: Sys, h: nat)
    requires Inv(s) && s.enq < |s.items| && h < s.q.limit && !LooksFull(s.q, h, Idx(s.enq, s.q.limit))
    requires h == Idx(|s.deq|, s.q.limit) || h == Idx(s.enq, s.q.limit)
    ensures Inv(DoEnqueue(s, h, Idx(s.enq, s.q.limit)))
  {
    SlotTests(s.q, s.items, |s.deq|, s.enq);
    PutHolds(s.q, s.items, |s.deq|, s.enq);
  }

  // When all items are in, nobody waits for the signal.
  lemma DequeueInv(s: Sys, t: nat)
    requires Inv(s) && |s.deq| < |s.items| && t < s.q.limit && !LooksEmpty(s.q, Idx(|s.deq|, s.q.limit), t)
    requires t == Idx(s.enq, s.q.limit) || t == Idx(|s.deq|, s.q.limit) || s.enq == |s.items|
    ensures Inv(DoDequeue(s, Idx(|s.deq|, s.q.limit), t))
  {
    SlotTests(s.q, s.items, |s.deq|, s.enq);
    TakeHolds(s.q, s.items, |s.deq|, s.enq);
    assert s.q.slots[Idx(|s.deq|, s.q.limit)] == Slot(true, s.items[|s.deq|]);
  }

  lemma ProdEnterInv(s: Sys)
    requires Inv(s) && InStep(s.q.limit, s.enq + 1) && Enabled(s, ProdEnter)
    ensures Inv(Apply(s, ProdEnter))
    ensures s.enq < |s.deq| + s.q.limit ==> Apply(s, ProdEnter) == DoEnqueue(s, Idx(|s.deq|, s.q.limit), Idx(s.enq, s.q.limit))
  {
    FreshIndex(|s.deq|, s.q.limit);
    FreshIndex(s.enq, s.q.limit);
    SlotTests(s.q, s.items, |s.deq|, s.enq);
    if !LooksFull(s.q, HeadIdx(s.q), TailIdx(s.q)) {
      EnqueueInv(s, HeadIdx(s.q));
    }
  }

  lemma ConsEnterInv(s: Sys)
    requires Inv(s) && InStep(s.q.limit, |s.deq| + 1) && Enabled(s, ConsEnter)
    requires InStep(s.q.limit, s.enq + 1) || s.enq == |s.items|
    ensures Inv(Apply(s, ConsEnter))
    ensures |s.deq| < s.enq ==> Apply(s, ConsEnter) == DoDequeue(s, Idx(|s.deq|, s.q.limit), TailIdx(s.q))
  {
    FreshIndex(|s.deq|, s.q.limit);
    SlotTests(s.q, s.items, |s.deq|, s.enq);
    if InStep(s.q.limit, s.enq + 1) {
      FreshIndex(s.enq, s.q.limit);
    }
    if !LooksEmpty(s.q, HeadIdx(s.q), TailIdx(s.q)) {
      DequeueInv(s, TailIdx(s.q));
    }
  }

  // Every step keeps the invariant, also with the stale indices that a thread carries
  // over a wait, and also when it was woken for no reason.
  lemma StepInv(s: Sys, step: Step)
    requires Inv(s) && InStep(s.q.limit, |s.items|) && Enabled(s, step)
    ensures Inv(Apply(s, step))
  {
    SlotTests(s.q, s.items, |s.deq|, s.enq);
    match step
    case ProdEnter => ProdEnterInv(s);
    case ProdResume =>
      if !LooksFull(s.q, s.prod.hidx, s.prod.tidx) {
        EnqueueInv(s, s.prod.hidx);
      }
    case ConsEnter => ConsEnterInv(s);
    case ConsResume =>
      if !LooksEmpty(s.q, s.cons.hidx, s.cons.tidx) {
        DequeueInv(s, s.cons.tidx);
      }
    case _ =>
  }

  lemma InitInv(s: Sys, limit: nat, items: seq<Item>)
    requires Init(s, limit, items)
    ensures Inv(s)
  {
  }

  lemma {:induction false} ExecInv(s: Sys, steps: seq<Step>)
    requires Inv(s) && InStep(s.q.limit, |s.items|) && CanExec(s, steps)
    ensures Inv(Exec(s, steps)) && Exec(s, steps).items == s.items && Exec(s, steps).q.limit == s.q.limit
    decreases |steps|
  {
    if steps != [] {
      StepInv(s, steps[0]);
      ExecInv(Apply(s, steps[0]), steps[1..]);
    }
  }

  // Every slot belongs to exactly one of the next limit items.
  lemma SlotOwner(d: nat, i: nat, limit: nat) returns (k: nat)
    requires i < limit
    ensures d <= k < d + limit && Idx(k, limit) == i
  {
    var r := d % limit;
    assert d == limit * (d / limit) + r;
    if r <= i {
      k := d + (i - r);
      DivModUnique(k, limit, d / limit, i);
    } else {
      k := d + (i + limit - r);
      assert limit * (d / limit + 1) == limit * (d / limit) + limit;
      DivModUnique(k, limit, d / limit + 1, i);
    }
  }

  // What a caller of the queue relies on: first in first out, bounded, and in_use set on
  // exactly the slots from head to tail.
  ghost predicate Fifo(s: Sys) {
    && s.deq <= s.items
    && |s.deq| <= s.enq <= |s.deq| + s.q.limit
    && |s.q.slots| == s.q.limit
    && forall i | 0 <= i < s.q.limit ::
         s.q.slots[i].inUse <==> exists k :: |s.deq| <= k < s.enq && k % s.q.limit == i
  }

  // In every run, with any spurious wakeups, past any wraparound of head and tail when
  // limit divides 2^32.
  lemma RingIsFifo(s: Sys, limit: nat, items: seq<Item>, steps: seq<Step>)
    requires Init(s, limit, items) && InStep(limit, |items|) && CanExec(s, steps)
    ensures Fifo(Exec(s, steps))
  {
    InitInv(s, limit, items);
    ExecInv(s, steps);
    var t := Exec(s, steps);
    var d := |t.deq|;
    forall i | 0 <= i < limit ensures t.q.slots[i].inUse <==> exists k :: d <= k < t.enq && k % limit == i {
      var k := SlotOwner(d, i, limit);
      forall l | d <= l < t.enq && l % limit == i ensures l == k {
        if l < k {
          ModDistinct(l, k, limit);
        } else if k < l {
          ModDistinct(k, l, limit);
        }
      }
      assert k < t.enq ==> k % limit == i && t.q.slots[Idx(k, limit)].inUse;
      assert k >= t.enq ==> !t.q.slots[Idx(k, limit)].inUse;
    }
  }

  // A thread that can go no further without another thread's signal or a spurious wakeup.
  predicate Blocked(s: Sys) {
    && (s.prod.Waiting? || (s.prod.Running? && s.enq == |s.items|))
    && (s.cons.Waiting? || (s.cons.Running? && |s.deq| == |s.items|))
  }

  // No wakeup is lost: an unsignalled waiting producer means a full ring, an unsignalled
  // waiting consumer an empty one; both never wait together; and when neither thread can
  // go on, every item has been delivered.
  predicate Awake(s: Sys) {
    && (s.prod.Waiting? ==> s.enq - |s.deq| == s.q.limit)
    && (s.cons.Waiting? ==> s.enq == |s.deq|)
    && !(s.prod.Waiting? && s.cons.Waiting?)
    && (Blocked(s) ==> s.deq == s.items)
  }

  lemma NoLostWakeup(s: Sys, limit: nat, items: seq<Item>, steps: seq<Step>)
    requires Init(s, limit, items) && InStep(limit, |items|) && CanExec(s, steps)
    ensures Awake(Exec(s, steps))
  {
    InitInv(s, limit, items);
    ExecInv(s, steps);
  }

  // ---------- every run can be finished ----------

  // A step without spurious wakeup that brings the items nearer their delivery.
  lemma Goes(s: Sys) returns (step: Step, s': Sys)
    requires Inv(s) && InStep(s.q.limit, |s.items|) && |s.deq| < |s.items|
    ensures Enabled(s, step) && s' == Apply(s, step) && !step.ProdSpurious? && !step.ConsSpurious?
    ensures Inv(s') && s'.items == s.items && s'.q.limit == s.q.limit
    ensures if |s.deq| < s.enq then |s'.deq| == |s.deq| + 1 && s'.enq == s.enq else |s'.deq| == |s.deq| && s'.enq == s.enq + 1
  {
    SlotTests(s.q, s.items, |s.deq|, s.enq);
    if |s.deq| < s.enq {
      step := if s.cons.Running? then ConsEnter else ConsResume;
      if s.cons.Running? {
        ConsEnterInv(s);
      }
    } else {
      step := if s.prod.Running? then ProdEnter else ProdResume;
      if s.prod.Running? {
        ProdEnterInv(s);
      }
    }
    StepInv(s, step);
    s' := Apply(s, step);
  }

  lemma {:induction false} Delivers(s: Sys) returns (steps: seq<Step>)
    requires Inv(s) && InStep(s.q.limit, |s.items|)
    ensures CanExec(s, steps) && NoSpurious(steps) && Exec(s, steps).deq == s.items
    decreases 2 * (|s.items| - |s.deq|) + (|s.items| - s.enq)
  {
    if |s.deq| == |s.items| {
      steps := [];
    } else {
      var step, s' := Goes(s);
      var rest := Delivers(s');
      steps := [step] + rest;
      assert steps[1..] == rest;
    }
  }

  // From wherever a run has got to it can go on, without spurious wakeups, until every item
  // has been delivered.
  lemma CanDeliver(s: Sys, limit: nat, items: seq<Item>, before: seq<Step>) returns (steps: seq<Step>)
    requires Init(s, limit, items) && InStep(limit, |items|) && CanExec(s, before)
    ensures CanExec(s, before + steps) && NoSpurious(steps) && Exec(s, before + steps).deq == items
  {
    InitInv(s, limit, items);
    ExecInv(s, before);
    steps := Delivers(Exec(s, before));
    ExecAppend(s, before, steps);
  }

  // ---------- when limit does not divide 2^32 and more items go through ----------

  lemma {:induction false} ExecAppend(s: Sys, a: seq<Step>, b: seq<Step>)
    requires Shaped(s) && CanExec(s, a) && CanExec(Exec(s, a), b)
    ensures CanExec(s, a + b) && Exec(s, a + b) == Exec(Exec(s, a), b)
    decreases |a|
  {
    if a == [] {
      assert a + b == b;
    } else {
      assert (a + b)[1..] == a[1..] + b;
      ExecAppend(Apply(s, a[0]), a[1..], b);
    }
  }

  // The run steps of s leads to t, without spurious wakeups.
  ghost predicate LeadsTo(s: Sys, steps: seq<Step>, t: Sys)
    requires Shaped(s)
  {
    CanExec(s, steps) && NoSpurious(steps) && t == Exec(s, steps)
  }

  // The run goes on with one more step to t'.
  lemma ExecNext(s: Sys, steps: seq<Step>, t: Sys, step: Step, t': Sys)
    requires Shaped(s) && LeadsTo(s, steps, t) && Enabled(t, step) && t' == Apply(t, step) && NoSpurious([step])
    ensures LeadsTo(s, steps + [step], t')
  {
    Singleton(t, step);
    ExecAppend(s, steps, [step]);
  }

  lemma Singleton(s: Sys, step: Step)
    requires Shaped(s) && Enabled(s, step)
    ensures CanExec(s, [step]) && Exec(s, [step]) == Apply(s, step)
  {
    assert [step][1..] == [];
    assert CanExec(Apply(s, step), []);
  }

  // Both threads outside the queue, with n items in and d of them out again.
  ghost predicate Between(s: Sys, limit: nat, items: seq<Item>, d: nat, n: nat) {
    Inv(s) && s.q.limit == limit && s.items == items && s.enq == n && |s.deq| == d && s.prod == s.cons == Running
  }

  lemma PutOne(s: Sys, limit: nat, items: seq<Item>, d: nat, n: nat) returns (s': Sys)
    requires Between(s, limit, items, d, n) && n < |items| && n < W32 && n < d + limit
    ensures Enabled(s, ProdEnter) && s' == Apply(s, ProdEnter) && Between(s', limit, items, d, n + 1)
  {
    ProdEnterInv(s);
    s' := Apply(s, ProdEnter);
  }

  lemma TakeOne(s: Sys, limit: nat, items: seq<Item>, d: nat, n: nat) returns (s': Sys)
    requires Between(s, limit, items, d, n) && d < n < W32
    ensures Enabled(s, ConsEnter) && s' == Apply(s, ConsEnter) && Between(s', limit, items, d + 1, n)
  {
    ConsEnterInv(s);
    s' := Apply(s, ConsEnter);
  }

  lemma {:induction false} PassMany(s: Sys, limit: nat, items: seq<Item>, n: nat) returns (steps: seq<Step>, t: Sys)
    requires Between(s, limit, items, 0, 0) && limit > 0 && n <= |items| && n < W32
    ensures LeadsTo(s, steps, t) && Between(t, limit, items, n, n)
  {
    if n == 0 {
      steps, t := [], s;
    } else {
      steps, t := PassMany(s, limit, items, n - 1);
      var t1 := PutOne(t, limit, items, n - 1, n - 1);
      ExecNext(s, steps, t, ProdEnter, t1);
      var t2 := TakeOne(t1, limit, items, n - 1, n);
      ExecNext(s, steps + [ProdEnter], t1, ConsEnter, t2);
      steps, t := steps + [ProdEnter] + [ConsEnter], t2;
    }
  }

  // d items have gone through and the others before the nth are in the ring.
  lemma {:induction false} FillMany(s: Sys, limit: nat, items: seq<Item>, d: nat, n: nat) returns (steps: seq<Step>, t: Sys)
    requires Init(s, limit, items) && d <= n <= |items| && n <= W32 && d < W32 && n <= d + limit
    ensures Shaped(s) && LeadsTo(s, steps, t) && Between(t, limit, items, d, n)
    decreases n
  {
    InitInv(s, limit, items);
    if n == d {
      steps, t := PassMany(s, limit, items, d);
    } else {
      steps, t := FillMany(s, limit, items, d, n - 1);
      var t' := PutOne(t, limit, items, d, n - 1);
      ExecNext(s, steps, t, ProdEnter, t');
      steps, t := steps + [ProdEnter], t';
    }
  }

  // Where the wraparound leaves the slots out of step: the count r + 1 before it maps to
  // slot 0, the one before that to the last slot, and count w itself to slot r + 1.
  lemma WrapGap(w: nat, limit: nat) returns (r: nat, m: nat)
    requires 0 < limit < w && w % limit != 0
    ensures r + 2 <= limit && m + r + 2 == w
    ensures Idx(m, limit) == limit - 1 && Idx(m + 1, limit) == 0 && Idx(w, limit) == r + 1
  {
    r := (w - 1) % limit;
    var q := (w - 1) / limit;
    assert w - 1 == limit * q + r;
    if r == limit - 1 {
      assert limit * (q + 1) == limit * q + limit;
      DivModUnique(w, limit, q + 1, 0);
    }
    m := w - 2 - r;
    assert q >= 1;
    assert limit * (q - 1) == limit * q - limit;
    DivModUnique(m, limit, q - 1, limit - 1);
    DivModUnique(m + 1, limit, q, 0);
    DivModUnique(w, limit, q, r + 1);
  }

  // ---------- the producer waits at a ring that is not full ----------

  lemma WaitsEarly(s: Sys, limit: nat, items: seq<Item>) returns (steps: seq<Step>, t: Sys)
    requires Init(s, limit, items) && limit < W32 && !InStep(limit, |items|)
    ensures Shaped(s) && LeadsTo(s, steps, t) && t.prod.Waiting? && t.enq - |t.deq| < limit == t.q.limit
  {
    var r, m := WrapGap(W32, limit);
    var before, s2 := FillMany(s, limit, items, m + 1, W32);
    t := SeesFull(s2, limit, items, m + 1);
    ExecNext(s, before, s2, ProdEnter, t);
    steps := before + [ProdEnter];
  }

  // The tail has wrapped to slot 0, which is where the head is.
  lemma SeesFull(s: Sys, limit: nat, items: seq<Item>, d: nat) returns (s': Sys)
    requires Between(s, limit, items, d, W32) && d < W32 < |items| && limit > 0 && Idx(d, limit) == 0
    ensures Enabled(s, ProdEnter) && s' == Apply(s, ProdEnter) == s.(prod := Waiting(0, 0))
  {
    SlotTests(s.q, items, d, W32);
    assert s.q.head == d && s.q.tail == 0;
    s' := s.(prod := Waiting(0, 0));
  }

  // ---------- the producer overwrites an item ----------

  // At the wraparound the producer goes on in slot 0, whose item was never taken.
  lemma PutPast(s: Sys, limit: nat, items: seq<Item>, d: nat) returns (s': Sys)
    requires Between(s, limit, items, d, W32) && d < W32 < |items| && limit > 1 && Idx(d, limit) == limit - 1
    ensures Enabled(s, ProdEnter) && s' == Apply(s, ProdEnter) == DoEnqueue(s, limit - 1, 0)
  {
    assert s.q.head == d && s.q.tail == 0;
    s' := DoEnqueue(s, limit - 1, 0);
  }

  // A run to where the item after the first m + 1 was overwritten by the one 2^32 counts on.
  lemma Overwrites(s: Sys, limit: nat, items: seq<Item>, r: nat, m: nat) returns (steps: seq<Step>, t: Sys, t': Sys)
    requires Init(s, limit, items) && 1 < limit < W32 < |items|
    requires r + 2 <= limit && m + r + 2 == W32 && Idx(m, limit) == limit - 1
    ensures Shaped(s) && LeadsTo(s, steps, t') && Between(t, limit, items, m, W32) && t' == DoEnqueue(t, limit - 1, 0)
  {
    steps, t := FillMany(s, limit, items, m, W32);
    t' := PutPast(t, limit, items, m);
    ExecNext(s, steps, t, ProdEnter, t');
    steps := steps + [ProdEnter];
  }

  // Then the slots in use are not those from head to tail, or too many items are in.
  lemma NotFifo(t: Sys, limit: nat, items: seq<Item>, r: nat, m: nat)
    requires Between(t, limit, items, m, W32) && W32 < |items| && 1 < limit
    requires r + 2 <= limit && m + r + 2 == W32 && Idx(W32, limit) == r + 1
    ensures !Fifo(DoEnqueue(t, limit - 1, 0))
  {
    var t' := DoEnqueue(t, limit - 1, 0);
    if r + 2 < limit {
      assert !t.q.slots[Idx(W32, limit)].inUse;
      assert m <= W32 < t'.enq && W32 % limit == r + 1;
      assert !t'.q.slots[r + 1].inUse;
    }
  }

  lemma OtherBreaks(s: Sys, limit: nat, items: seq<Item>) returns (steps: seq<Step>)
    requires Init(s, limit, items) && limit < W32 && !InStep(limit, |items|)
    ensures Shaped(s) && CanExec(s, steps) && NoSpurious(steps) && !Fifo(Exec(s, steps))
  {
    var r, m := WrapGap(W32, limit);
    var run, t, t' := Overwrites(s, limit, items, r, m);
    NotFifo(t, limit, items, r, m);
    steps := run;
  }

  // The consumer takes the item of slot h.
  lemma TakeAt(s: Sys, steps: seq<Step>, t: Sys, head: nat, h: nat) returns (t': Sys)
    requires Shaped(s) && LeadsTo(s, steps, t) && head < W32
    requires t.cons.Running? && |t.deq| < |t.items| && t.q.head == head && Idx(head, t.q.limit) == h && t.q.slots[h].inUse
    ensures LeadsTo(s, steps + [ConsEnter], t')
    ensures t'.items == t.items && t'.q.limit == t.q.limit && t'.cons.Running?
    ensures t'.deq == t.deq + [t.q.slots[h].data] && (head + 1 < W32 ==> t'.q.head == head + 1)
    ensures forall i | 0 <= i < t.q.limit && i != h :: t'.q.slots[i] == t.q.slots[i]
  {
    if head + 1 < W32 {
      BumpSmall(head);
    }
    t' := DoDequeue(t, h, TailIdx(t.q));
    assert Enabled(t, ConsEnter) && Apply(t, ConsEnter) == t';
    ExecNext(s, steps, t, ConsEnter, t');
  }

  lemma TakeTwo(s: Sys, steps: seq<Step>, t: Sys, m: nat) returns (t': Sys)
    requires Shaped(s) && LeadsTo(s, steps, t) && m + 2 <= W32 && m + 1 < |t.items| && t.q.limit > 1
    requires Shaped(t) && t.cons.Running? && t.q.head == m && t.deq == t.items[..m]
    requires Idx(m, t.q.limit) == t.q.limit - 1 && Idx(m + 1, t.q.limit) == 0
    requires t.q.slots[t.q.limit - 1] == Slot(true, t.items[m]) && t.q.slots[0].inUse
    ensures LeadsTo(s, steps + [ConsEnter] + [ConsEnter], t')
    ensures t'.deq == t.items[..m] + [t.items[m]] + [t.q.slots[0].data]
  {
    var t1 := TakeAt(s, steps, t, m, t.q.limit - 1);
    t' := TakeAt(s, steps + [ConsEnter], t1, m + 1, 0);
  }

  // In a run without any spurious wakeup an item that was never dequeued is overwritten
  // and the consumer gets a later one in its place. The items have the form that the test
  // program gives them.
  lemma BreaksOnWrap(s: Sys, limit: nat, count: nat) returns (steps: seq<Step>)
    requires Init(s, limit, TestItems(count)) && limit < W32 && !InStep(limit, count)
    ensures Shaped(s) && CanExec(s, steps) && NoSpurious(steps) && !(Exec(s, steps).deq <= TestItems(count))
  {
    var items := TestItems(count);
    var r, m := WrapGap(W32, limit);
    var run, t, t' := Overwrites(s, limit, items, r, m);
    FirstWaiting(t, limit, items, m);
    var t2 := TakeTwo(s, run, t', m);
    steps := run + [ConsEnter] + [ConsEnter];
    NotPrefix(count, t2.deq, m);
  }

  lemma FirstWaiting(t: Sys, limit: nat, items: seq<Item>, m: nat)
    requires Between(t, limit, items, m, W32) && m < W32 < |items| && 1 < limit && Idx(m, limit) == limit - 1
    ensures var t' := DoEnqueue(t, limit - 1, 0);
            && t'.q.slots[limit - 1] == Slot(true, items[m]) && t'.q.slots[0] == Slot(true, items[W32])
            && t'.q.head == m && t'.deq == items[..m]
  {
    assert t.q.slots[Idx(m, limit)] == Slot(true, items[m]);
  }

  lemma NotPrefix(count: nat, deq: seq<Item>, m: nat)
    requires count > W32 && m + 2 <= W32
    requires deq == TestItems(count)[..m] + [TestItems(count)[m]] + [TestItems(count)[W32]]
    ensures !(deq <= TestItems(count))
  {
    assert deq[m + 1] == TestItem(W32) != TestItem(m + 1) == TestItems(count)[m + 1];
  }

  // ---------- exactly when ----------

  ghost predicate AlwaysFifo(limit: nat, items: seq<Item>) {
    forall s, steps | Init(s, limit, items) && CanExec(s, steps) :: Fifo(Exec(s, steps))
  }

  ghost predicate AlwaysAwake(limit: nat, items: seq<Item>) {
    forall s, steps | Init(s, limit, items) && CanExec(s, steps) :: Awake(Exec(s, steps))
  }

  lemma Initial(limit: nat, items: seq<Item>) returns (s: Sys)
    requires limit > 0
    ensures Init(s, limit, items)
  {
    s := Sys(Ring(limit, seq(limit, _ => Slot(false, Item(0, 0))), 0, 0), items, 0, [], Running, Running);
  }

  // Whatever the items are, every run is first in first out exactly when limit divides
  // 2^32 or there are at most 2^32 of them.
  lemma FifoExactly(limit: nat, items: seq<Item>)
    requires 0 < limit < W32
    ensures AlwaysFifo(limit, items) <==> InStep(limit, |items|)
  {
    if InStep(limit, |items|) {
      forall s, steps | Init(s, limit, items) && CanExec(s, steps) ensures Fifo(Exec(s, steps)) {
        RingIsFifo(s, limit, items, steps);
      }
    } else {
      var s := Initial(limit, items);
      var steps := OtherBreaks(s, limit, items);
      assert !Fifo(Exec(s, steps));
    }
  }

  // And no wakeup is lost in any run exactly then.
  lemma NoLostWakeupExactly(limit: nat, items: seq<Item>)
    requires 0 < limit < W32
    ensures AlwaysAwake(limit, items) <==> InStep(limit, |items|)
  {
    if InStep(limit, |items|) {
      forall s, steps | Init(s, limit, items) && CanExec(s, steps) ensures Awake(Exec(s, steps)) {
        NoLostWakeup(s, limit, items, steps);
      }
    } else {
      var s := Initial(limit, items);
      var steps, t := WaitsEarly(s, limit, items);
      assert !Awake(Exec(s, steps));
    }
  }
}
