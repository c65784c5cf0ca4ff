/**
 data-queue-concurrent/static.c as code: make_queue, the two halves of enqueue and
 dequeue between which a thread may wait, and its test program.
 */
module RingCode {
  import opened RingQueue
  import opened TestData

  class Bucket {
    const limit: nat
    const arr: array<Slot>
    var head: nat
    var tail: nat

    ghost function View(): Ring
      reads this, arr
    {
      Ring(limit, arr[..], head, tail)
    }

    constructor (max: nat)
      requires 0 < max
      ensures WellFormed(View()) && limit == max && head == tail == 0 && fresh(arr)
      ensures forall i | 0 <= i < max :: !arr[i].inUse
    {
      limit := max;
      head, tail := 0, 0;
      var n := new Slot[max](_ => Slot(false, Item(0, 0)));
      arr := n;
    }

    // The indices a caller computes when it takes the lock.
    method Indices() returns (hidx: nat, tidx: nat)
      requires WellFormed(View())
      ensures hidx == HeadIdx(View()) && tidx == TailIdx(View())
    {
      hidx, tidx := head % limit, tail % limit;
    }

    // The rest of enqueue, with whatever indices the caller still has.
    method FinishEnqueue(hidx: nat, tidx: nat, item: Item) returns (signal: bool)
      requires WellFormed(View()) && hidx < limit && tidx < limit
      modifies this`tail, arr
      ensures View() == Put(old(View()), tidx, item)
      ensures signal == LooksEmpty(old(View()), hidx, tidx)
    {
      arr[tidx] := arr[tidx].(data := item);
      signal := hidx == tidx && !arr[hidx].inUse;
      arr[tidx] := arr[tidx].(inUse := true);
      tail := (tail + 1) % W32;
    }

    // The rest of dequeue.
    method FinishDequeue(hidx: nat, tidx: nat) returns (item: Item, signal: bool)
      requires WellFormed(View()) && hidx < limit && tidx < limit
      modifies this`head, arr
      ensures View() == Take(old(View()), hidx) && item == old(arr[hidx].data)
      ensures signal == LooksFull(old(View()), hidx, tidx)
    {
      item := arr[hidx].data;
      signal := hidx == tidx && arr[hidx].inUse;
      arr[hidx] := arr[hidx].(inUse := false);
      head := (head + 1) % W32;
    }
  }

  // do_enqueue and do_dequeue on one ring, scheduled from outside: each method runs one
  // of the two threads from where it took the lock to where it gives it up.
  class Program {
    const q: Bucket
    const items: seq<Item>
    var enq: nat
    var deq: seq<Item>
    var prod: Thread
    var cons: Thread

    ghost function View(): Sys
      reads this, q, q.arr
    {
      Sys(q.View(), items, enq, deq, prod, cons)
    }

    constructor (max: nat, items: seq<Item>)
      requires 0 < max
      ensures Init(View(), max, items) && fresh(q) && fresh(q.arr)
    {
      var ring := new Bucket(max);
      q, this.items, enq, deq, prod, cons := ring, items, 0, [], Running, Running;
    }

    method Enqueue(hidx: nat, tidx: nat)
      requires Shaped(View()) && enq < |items| && hidx < q.limit && tidx < q.limit
      modifies this`enq, this`prod, this`cons, q, q.arr
      ensures View() == DoEnqueue(old(View()), hidx, tidx)
    {
      var signal := q.FinishEnqueue(hidx, tidx, items[enq]);
      if signal && cons.Waiting? {
        cons := Woken(cons.hidx, cons.tidx);
      }
      enq, prod := enq + 1, Running;
    }

    method Dequeue(hidx: nat, tidx: nat)
      requires Shaped(View()) && hidx < q.limit && tidx < q.limit
      modifies this`deq, this`prod, this`cons, q, q.arr
      ensures View() == DoDequeue(old(View()), hidx, tidx)
    {
      var item, signal := q.FinishDequeue(hidx, tidx);
      if signal && prod.Waiting? {
        prod := Woken(prod.hidx, prod.tidx);
      }
      deq, cons := deq + [item], Running;
    }

    method ProducerEnter()
      requires Shaped(View()) && Enabled(View(), ProdEnter)
      modifies this, q, q.arr
      ensures View() == Apply(old(View()), ProdEnter)
    {
      var hidx, tidx := q.Indices();
      if hidx == tidx && q.arr[hidx].inUse {
        prod := Waiting(hidx, tidx);
      } else {
        Enqueue(hidx, tidx);
      }
    }

    // After its wait the producer looks again, with the indices from before it.
    method ProducerResume()
      requires Shaped(View()) && Enabled(View(), ProdResume)
      modifies this, q, q.arr
      ensures View() == Apply(old(View()), ProdResume)
    {
      var hidx, tidx := prod.hidx, prod.tidx;
      if hidx == tidx && q.arr[hidx].inUse {
        prod := Running;
      } else {
        Enqueue(hidx, tidx);
      }
    }

    method ConsumerEnter()
      requires Shaped(View()) && Enabled(View(), ConsEnter)
      modifies this, q, q.arr
      ensures View() == Apply(old(View()), ConsEnter)
    {
      var hidx, tidx := q.Indices();
      if hidx == tidx && !q.arr[hidx].inUse {
        cons := Waiting(hidx, tidx);
      } else {
        Dequeue(hidx, tidx);
      }
    }

    // After its wait the consumer looks again, with the indices from before it.
    method ConsumerResume()
      requires Shaped(View()) && Enabled(View(), ConsResume)
      modifies this, q, q.arr
      ensures View() == Apply(old(View()), ConsResume)
    {
      var hidx, tidx := cons.hidx, cons.tidx;
      if hidx == tidx && !q.arr[hidx].inUse {
        cons := Running;
      } else {
        Dequeue(hidx, tidx);
      }
    }

    method Perform(step: Step)
      requires Shaped(View()) && Enabled(View(), step)
      modifies this, q, q.arr
      ensures View() == Apply(old(View()), step)
    {
      match step {
        case ProdEnter => ProducerEnter();
        case ProdResume => ProducerResume();
        case ProdSpurious => prod := Woken(prod.hidx, prod.tidx);
        case ConsEnter => ConsumerEnter();
        case ConsResume => ConsumerResume();
        case ConsSpurious => cons := Woken(cons.hidx, cons.tidx);
      }
    }

    // Any schedule of the two threads.
    method Run(steps: seq<Step>)
      requires Shaped(View()) && CanExec(View(), steps)
      modifies this, q, q.arr
      ensures View() == Exec(old(View()), steps)
    {
      var i := 0;
      while i < |steps|
        invariant 0 <= i <= |steps| && Shaped(View()) && CanExec(View(), steps[i..])
        invariant Exec(View(), steps[i..]) == Exec(old(View()), steps)
      {
        assert steps[i..][0] == steps[i] && steps[i..][1..] == steps[i + 1..];
        Perform(steps[i]);
        i := i + 1;
      }
    }
  }

  // What the consumer has received is what was sent, at every moment of every run.
  lemma ReceivedInOrder(s: Sys, limit: nat, count: nat, steps: seq<Step>)
    requires Init(s, limit, TestItems(count)) && InStep(limit, count) && CanExec(s, steps)
    ensures Exec(s, steps).deq == TestItems(|Exec(s, steps).deq|)
  {
    InitInv(s, limit, TestItems(count));
    ExecInv(s, steps);
    RingIsFifo(s, limit, TestItems(count), steps);
    var d := |Exec(s, steps).deq|;
    assert TestItems(count)[..d] == TestItems(d);
  }

  // The test program under any schedule: stopped at any moment, its check passes.
  method TestProgram(program: Program, ghost limit: nat, ghost count: nat, steps: seq<Step>) returns (outcome: Outcome)
    requires Init(program.View(), limit, TestItems(count)) && InStep(limit, count) && CanExec(program.View(), steps)
    modifies program, program.q, program.q.arr
    ensures outcome == Passed
  {
    ReceivedInOrder(program.View(), limit, count, steps);
    program.Run(steps);
    outcome := CheckReceived(program.deq);
  }
}
