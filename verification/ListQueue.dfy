/**
 The linked queue of data-queue-concurrent/dynamic.c: its list operations on the heap,
 and one producer and one consumer that share it through one mutex and one condition
 variable.
 */
module ListQueue {
  import opened TestData

  class Node {
    const data: Item
    var prev: Node?
    var next: Node?

    constructor (data: Item, next: Node?)
      ensures this.data == data && this.prev == null && this.next == next
    {
      this.data := data;
      this.prev := null;
      this.next := next;
    }
  }

  class Queue {
    const limit: nat
    var len: nat
    var qhead: Node?
    var qtail: Node?
    // The nodes from qtail to qhead, oldest first.
    ghost var nodes: seq<Node>

    // len is exact, qhead and qtail are the ends, and prev and next mirror each other.
    ghost predicate Valid()
      reads this, nodes
    {
      && len == |nodes|
      && (forall i, j | 0 <= i < j < |nodes| :: nodes[i] != nodes[j])
      && (len == 0 ==> qhead == null && qtail == null)
      && (len > 0 ==> qtail == nodes[0] && qhead == nodes[len - 1] && qtail.next == null && qhead.prev == null)
      && (forall i, j | 0 <= i < j < |nodes| && j == i + 1 :: nodes[j].next == nodes[i] && nodes[i].prev == nodes[j])
    }

    ghost function Contents(): (s: seq<Item>)
      reads this, nodes
    {
      seq(|nodes|, i requires 0 <= i < |nodes| reads this, nodes => nodes[i].data)
    }

    constructor (max: nat)
      ensures Valid() && Contents() == [] && limit == max
    {
      limit := max;
      len, qhead, qtail, nodes := 0, null, null, [];
    }

    // enqueue after its wait: one more node at the head end.
    method Enqueue(item: Item) returns (signal: bool)
      requires Valid()
      modifies this, nodes
      ensures Valid() && Contents() == old(Contents()) + [item]
      ensures signal == (old(len) == 0)
      ensures |nodes| == |old(nodes)| + 1 && nodes[..|old(nodes)|] == old(nodes) && fresh(nodes[|old(nodes)|])
    {
      ghost var ns := nodes;
      assert len > 0 ==> qhead == ns[|ns| - 1] && ns[|ns| - 1] in ns;
      var newd := new Node(item, qhead);
      signal := false;
      if len == 0 {
        qtail := newd;
        signal := true;
      } else {
        qhead.prev := newd;
      }
      qhead := newd;
      len := len + 1;
      nodes := nodes + [newd];
    }

    // dequeue after its wait: the oldest node leaves at the tail end. Without a node the
    // source follows the null qtail; that is a crash.
    method Dequeue() returns (taken: Taken)
      requires Valid()
      modifies this, nodes
      ensures Valid()
      ensures old(len) == 0 ==> taken == Crash && nodes == old(nodes) && Contents() == old(Contents())
      ensures old(len) > 0 ==> taken == Got(old(Contents())[0], old(len) != 1 && old(len) == limit)
      ensures old(len) > 0 ==> Contents() == old(Contents())[1..] && nodes == old(nodes)[1..]
    {
      ghost var ns := nodes;
      if qtail == null {
        return Crash;
      }
      assert qtail == ns[0];
      assert len > 1 ==> ns[0].prev == ns[1] && ns[1] in ns;
      var d := qtail;
      var signal := false;
      qtail := d.prev;
      if len == 1 {
        qhead, qtail := null, null;
      } else {
        qtail.next := null;
        if len == limit {
          signal := true;
        }
      }
      len := len - 1;
      nodes := nodes[1..];
      taken := Got(d.data, signal);
    }
  }

  datatype Taken = Crash | Got(item: Item, signal: bool)

  // ---------- the two threads ----------

  datatype Thread = Running | Waiting | Woken

  // contents is what the list holds, oldest first. crashed: a dequeue followed a null qtail.
  datatype Sys = Sys(limit: nat, items: seq<Item>, enq: nat, contents: seq<Item>, deq: seq<Item>,
                     prod: Thread, cons: Thread, crashed: bool)

  datatype Step = ProdEnter | ProdResume | ProdSpurious | ConsEnter | ConsResume | ConsSpurious

  function Signalled(t: Thread, signal: bool): Thread {
    if signal && t.Waiting? then Woken else t
  }

  function DoEnqueue(s: Sys): Sys
    requires s.enq < |s.items|
  {
    s.(contents := s.contents + [s.items[s.enq]], enq := s.enq + 1, prod := Running,
       cons := Signalled(s.cons, |s.contents| == 0))
  }

  function DoDequeue(s: Sys): Sys {
    if s.contents == [] then s.(crashed := true)
    else
      s.(contents := s.contents[1..], deq := s.deq + [s.contents[0]], cons := Running,
         prod := Signalled(s.prod, |s.contents| != 1 && |s.contents| == s.limit))
  }

  predicate Enabled(s: Sys, step: Step) {
    && !s.crashed
    && match step
       case ProdEnter => s.prod.Running? && s.enq < |s.items|
       case ProdResume => s.prod.Woken? && s.enq < |s.items|
       case ProdSpurious => s.prod.Waiting?
       case ConsEnter => s.cons.Running? && |s.deq| < |s.items|
       case ConsResume => s.cons.Woken?
       case ConsSpurious => s.cons.Waiting?
  }

  // Neither operation looks again after its wait.
  function Apply(s: Sys, step: Step): Sys
    requires Enabled(s, step)
  {
    match step
    case ProdEnter => if |s.contents| == s.limit then s.(prod := Waiting) else DoEnqueue(s)
    case ProdResume => DoEnqueue(s)
    case ProdSpurious => s.(prod := Woken)
    case ConsEnter => if |s.contents| == 0 then s.(cons := Waiting) else DoDequeue(s)
    case ConsResume => DoDequeue(s)
    case ConsSpurious => s.(cons := Woken)
  }

  function Init(limit: nat, items: seq<Item>): Sys {
    Sys(limit, items, 0, [], [], Running, Running, false)
  }

  predicate CanExec(s: Sys, steps: seq<Step>)
    decreases |steps|
  {
    steps == [] || (Enabled(s, steps[0]) && CanExec(Apply(s, steps[0]), steps[1..]))
  }

  function Exec(s: Sys, steps: seq<Step>): Sys
    requires CanExec(s, steps)
    decreases |steps|
  {
    if steps == [] then s else Exec(Apply(s, steps[0]), steps[1..])
  }

  predicate NoSpurious(steps: seq<Step>) {
    forall i | 0 <= i < |steps| :: !steps[i].ProdSpurious? && !steps[i].ConsSpurious?
  }

  ghost predicate Inv(s: Sys) {
    && !s.crashed
    && |s.deq| <= s.enq <= |s.items|
    && s.deq == s.items[..|s.deq|]
    && s.contents == s.items[|s.deq|..s.enq]
    && |s.contents| <= s.limit
    && (s.prod.Waiting? ==> |s.contents| == s.limit)
    && (s.prod.Woken? ==> |s.contents| < s.limit)
    && (s.cons.Waiting? ==> |s.contents| == 0)
    && (s.cons.Woken? ==> |s.contents| > 0)
    && (!s.prod.Running? ==> s.enq < |s.items|)
    && (!s.cons.Running? ==> |s.deq| < |s.items|)
  }

  lemma EnqueueInv(s: Sys)
    requires Inv(s) && s.limit >= 2 && s.enq < |s.items| && |s.contents| < s.limit && !s.prod.Waiting?
    ensures Inv(DoEnqueue(s))
  {
    assert s.items[|s.deq|..s.enq + 1] == s.items[|s.deq|..s.enq] + [s.items[s.enq]];
  }

  lemma DequeueInv(s: Sys)
    requires Inv(s) && s.limit >= 2 && |s.contents| > 0 && |s.deq| < |s.items| && !s.cons.Waiting?
    ensures Inv(DoDequeue(s))
  {
    var d := |s.deq|;
    assert s.items[..d + 1] == s.items[..d] + [s.items[d]];
    assert s.contents[0] == s.items[d] && s.contents[1..] == s.items[d + 1..s.enq];
  }

  lemma StepInv(s: Sys, step: Step)
    requires Inv(s) && s.limit >= 2 && Enabled(s, step) && !step.ProdSpurious? && !step.ConsSpurious?
    ensures Inv(Apply(s, step))
  {
    if (step.ProdEnter? && |s.contents| < s.limit) || step.ProdResume? {
      EnqueueInv(s);
    } else if (step.ConsEnter? && |s.contents| > 0) || step.ConsResume? {
      DequeueInv(s);
    }
  }

  lemma {:induction false} ExecInv(s: Sys, steps: seq<Step>)
    requires Inv(s) && s.limit >= 2 && CanExec(s, steps) && NoSpurious(steps)
    ensures Inv(Exec(s, steps)) && Exec(s, steps).limit == s.limit && Exec(s, steps).items == s.items
    decreases |steps|
  {
    if steps != [] {
      StepInv(s, steps[0]);
      ExecInv(Apply(s, steps[0]), steps[1..]);
    }
  }

  // Neither thread can go on without a signal.
  predicate Blocked(s: Sys) {
    && (s.prod.Waiting? || (s.prod.Running? && s.enq == |s.items|))
    && (s.cons.Waiting? || (s.cons.Running? && |s.deq| == |s.items|))
  }

  ghost predicate Safe(s: Sys) {
    && !s.crashed
    && s.deq + s.contents <= s.items
    && |s.contents| <= s.limit
    && !(s.prod.Waiting? && s.cons.Waiting?)
    && (Blocked(s) ==> s.deq == s.items)
  }

  // With limit >= 2 and no spurious wakeup, every run is first in first out, never passes
  // limit, never dequeues from the empty list, and never leaves both threads waiting; when
  // neither can go on, everything has been delivered.
  lemma SafeRuns(limit: nat, items: seq<Item>, steps: seq<Step>)
    requires limit >= 2 && CanExec(Init(limit, items), steps) && NoSpurious(steps)
    ensures Safe(Exec(Init(limit, items), steps))
  {
    ExecInv(Init(limit, items), steps);
  }

  // ---------- every such run can be finished ----------

  // A step without spurious wakeup that brings the items nearer their delivery.
  lemma Goes(s: Sys) returns (step: Step, s': Sys)
    requires Inv(s) && s.limit >= 2 && |s.deq| < |s.items|
    ensures Enabled(s, step) && s' == Apply(s, step) && !step.ProdSpurious? && !step.ConsSpurious?
    ensures Inv(s') && s'.items == s.items && s'.limit == s.limit
    ensures if s.contents != [] then |s'.deq| == |s.deq| + 1 && s'.enq == s.enq else |s'.deq| == |s.deq| && s'.enq == s.enq + 1
  {
    if s.contents != [] {
      step := if s.cons.Running? then ConsEnter else ConsResume;
    } else {
      step := if s.prod.Running? then ProdEnter else ProdResume;
    }
    StepInv(s, step);
    s' := Apply(s, step);
  }

  lemma {:induction false} Delivers(s: Sys) returns (steps: seq<Step>)
    requires Inv(s) && s.limit >= 2
    ensures CanExec(s, steps) && NoSpurious(steps) && Exec(s, steps).deq == s.items
    decreases 2 * (|s.items| - |s.deq|) + (|s.items| - s.enq)
  {
    if |s.deq| == |s.items| {
      steps := [];
    } else {
      var step, s' := Goes(s);
      var rest := Delivers(s');
      steps := [step] + rest;
      assert steps[1..] == rest;
    }
  }

  lemma {:induction false} ExecAppend(s: Sys, a: seq<Step>, b: seq<Step>)
    requires CanExec(s, a) && CanExec(Exec(s, a), b)
    ensures CanExec(s, a + b) && Exec(s, a + b) == Exec(Exec(s, a), b)
    decreases |a|
  {
    if a == [] {
      assert a + b == b;
    } else {
      assert (a + b)[1..] == a[1..] + b;
      ExecAppend(Apply(s, a[0]), a[1..], b);
    }
  }

  // From wherever such a run has got to it can go on until every item has been delivered.
  lemma CanDeliver(limit: nat, items: seq<Item>, before: seq<Step>) returns (steps: seq<Step>)
    requires limit >= 2 && CanExec(Init(limit, items), before) && NoSpurious(before)
    ensures CanExec(Init(limit, items), before + steps) && NoSpurious(steps)
    ensures Exec(Init(limit, items), before + steps).deq == items
  {
    ExecInv(Init(limit, items), before);
    steps := Delivers(Exec(Init(limit, items), before));
    ExecAppend(Init(limit, items), before, steps);
  }

  // What the consumer has received is what was sent, at every moment of every such run.
  lemma ReceivedInOrder(limit: nat, count: nat, steps: seq<Step>)
    requires limit >= 2 && CanExec(Init(limit, TestItems(count)), steps) && NoSpurious(steps)
    ensures var deq := Exec(Init(limit, TestItems(count)), steps).deq;
            deq == TestItems(|deq|)
  {
    SafeRuns(limit, TestItems(count), steps);
    ExecInv(Init(limit, TestItems(count)), steps);
    var d := |Exec(Init(limit, TestItems(count)), steps).deq|;
    assert TestItems(count)[..d] == TestItems(d);
  }

  ghost predicate AlwaysSafe(limit: nat) {
    forall items, steps | CanExec(Init(limit, items), steps) && NoSpurious(steps) :: Safe(Exec(Init(limit, items), steps))
  }

  // The bound is exact: at limit 0 both threads wait at once, and at limit 1 the dequeue
  // that empties the full list signals nobody.
  lemma SafeExactly(limit: nat)
    ensures AlwaysSafe(limit) <==> limit >= 2
  {
    if limit >= 2 {
      forall items, steps | CanExec(Init(limit, items), steps) && NoSpurious(steps)
        ensures Safe(Exec(Init(limit, items), steps))
      {
        SafeRuns(limit, items, steps);
      }
    } else {
      var items := [Item(1, 0), Item(2, 0)];
      var steps;
      if limit == 0 {
        steps := BothWait(items);
      } else {
        steps := NobodySignalled(items);
      }
      assert CanExec(Init(limit, items), steps) && NoSpurious(steps) && !Safe(Exec(Init(limit, items), steps));
    }
  }

  lemma BothWait(items: seq<Item>) returns (steps: seq<Step>)
    requires |items| == 2
    ensures CanExec(Init(0, items), steps) && NoSpurious(steps) && !Safe(Exec(Init(0, items), steps))
  {
    var s0 := Init(0, items);
    var s1 := Apply(s0, ProdEnter);
    var s2 := Apply(s1, ConsEnter);
    ExecNext(s0, [], s0, ProdEnter, s1);
    ExecNext(s0, [] + [ProdEnter], s1, ConsEnter, s2);
    steps := [] + [ProdEnter] + [ConsEnter];
  }

  lemma NobodySignalled(items: seq<Item>) returns (steps: seq<Step>)
    requires |items| == 2
    ensures CanExec(Init(1, items), steps) && NoSpurious(steps) && !Safe(Exec(Init(1, items), steps))
  {
    var s0 := Init(1, items);
    var s1 := Apply(s0, ProdEnter);
    var s2 := Apply(s1, ProdEnter);
    var s3 := Apply(s2, ConsEnter);
    var s4 := Apply(s3, ConsEnter);
    ExecNext(s0, [], s0, ProdEnter, s1);
    ExecNext(s0, [] + [ProdEnter], s1, ProdEnter, s2);
    ExecNext(s0, [] + [ProdEnter] + [ProdEnter], s2, ConsEnter, s3);
    ExecNext(s0, [] + [ProdEnter] + [ProdEnter] + [ConsEnter], s3, ConsEnter, s4);
    steps := [] + [ProdEnter] + [ProdEnter] + [ConsEnter] + [ConsEnter];
  }

  // Without the recheck, a spurious wakeup breaks it at every limit: the consumer goes on
  // to dequeue from the empty list.
  lemma SpuriousCrash(limit: nat, items: seq<Item>)
    requires items != []
    ensures CanExec(Init(limit, items), [ConsEnter, ConsSpurious, ConsResume])
    ensures Exec(Init(limit, items), [ConsEnter, ConsSpurious, ConsResume]).crashed
  {
    var s0 := Init(limit, items);
    var s1 := Apply(s0, ConsEnter);
    var s2 := Apply(s1, ConsSpurious);
    ExecNext(s0, [], s0, ConsEnter, s1);
    ExecNext(s0, [] + [ConsEnter], s1, ConsSpurious, s2);
    ExecNext(s0, [] + [ConsEnter] + [ConsSpurious], s2, ConsResume, Apply(s2, ConsResume));
    assert [] + [ConsEnter] + [ConsSpurious] + [ConsResume] == [ConsEnter, ConsSpurious, ConsResume];
  }

  lemma {:induction false} FillTo(limit: nat, items: seq<Item>, n: nat) returns (steps: seq<Step>, t: Sys)
    requires n <= limit && n <= |items|
    ensures CanExec(Init(limit, items), steps) && t == Exec(Init(limit, items), steps)
    ensures t == Init(limit, items).(enq := n, contents := items[..n])
    decreases n
  {
    if n == 0 {
      steps, t := [], Init(limit, items);
    } else {
      steps, t := FillTo(limit, items, n - 1);
      var t' := Apply(t, ProdEnter);
      ExecNext(Init(limit, items), steps, t, ProdEnter, t');
      assert items[..n] == items[..n - 1] + [items[n - 1]];
      steps, t := steps + [ProdEnter], t';
    }
  }

  // The run steps of s ends in t, and goes on with one more step to t'.
  lemma {:induction false} ExecNext(s: Sys, steps: seq<Step>, t: Sys, step: Step, t': Sys)
    requires CanExec(s, steps) && t == Exec(s, steps) && Enabled(t, step) && t' == Apply(t, step)
    ensures CanExec(s, steps + [step]) && Exec(s, steps + [step]) == t'
    decreases |steps|
  {
    if steps == [] {
      assert steps + [step] == [step] && [step][1..] == [];
      assert CanExec(t', []);
    } else {
      assert (steps + [step])[1..] == steps[1..] + [step];
      ExecNext(Apply(s, steps[0]), steps[1..], t, step, t');
    }
  }

  // And the producer goes on to exceed any limit.
  lemma SpuriousOverfill(limit: nat, items: seq<Item>) returns (steps: seq<Step>)
    requires |items| > limit
    ensures CanExec(Init(limit, items), steps) && |Exec(Init(limit, items), steps).contents| == limit + 1
  {
    var s, t;
    s := Init(limit, items);
    steps, t := FillTo(limit, items, limit);
    var t1 := Apply(t, ProdEnter);
    ExecNext(s, steps, t, ProdEnter, t1);
    steps := steps + [ProdEnter];
    var t2 := Apply(t1, ProdSpurious);
    ExecNext(s, steps, t1, ProdSpurious, t2);
    steps := steps + [ProdSpurious];
    ExecNext(s, steps, t2, ProdResume, Apply(t2, ProdResume));
    steps := steps + [ProdResume];
  }

  // ---------- the program ----------

  // do_enqueue and do_dequeue on one list, scheduled from outside: each method runs one of
  // the two threads from where it took the lock to where it gives it up.
  class Program {
    const q: Queue
    const items: seq<Item>
    var enq: nat
    var deq: seq<Item>
    var prod: Thread
    var cons: Thread
    var crashed: bool

    ghost function View(): Sys
      reads this, q, q.nodes
    {
      Sys(q.limit, items, enq, q.Contents(), deq, prod, cons, crashed)
    }

    constructor (max: nat, items: seq<Item>)
      ensures q.Valid() && View() == Init(max, items) && fresh(q) && q.nodes == []
    {
      var list := new Queue(max);
      q, this.items, enq, deq, prod, cons, crashed := list, items, 0, [], Running, Running, false;
    }

    method Enqueue()
      requires q.Valid() && enq < |items|
      modifies this`enq, this`prod, this`cons, q, q.nodes
      ensures forall k | 0 <= k < |q.nodes| :: q.nodes[k] in old(q.nodes) || fresh(q.nodes[k])
      ensures q.Valid() && View() == DoEnqueue(old(View()))
    {
      var signal := q.Enqueue(items[enq]);
      if signal && cons.Waiting? {
        cons := Woken;
      }
      enq, prod := enq + 1, Running;
    }

    method Dequeue()
      requires q.Valid()
      modifies this`deq, this`prod, this`cons, this`crashed, q, q.nodes
      ensures forall k | 0 <= k < |q.nodes| :: q.nodes[k] in old(q.nodes) || fresh(q.nodes[k])
      ensures q.Valid() && View() == DoDequeue(old(View()))
    {
      var taken := q.Dequeue();
      if taken.Crash? {
        crashed := true;
      } else {
        if taken.signal && prod.Waiting? {
          prod := Woken;
        }
        deq, cons := deq + [taken.item], Running;
      }
    }

    method Perform(step: Step)
      requires q.Valid() && Enabled(View(), step)
      modifies this, q, q.nodes
      ensures forall k | 0 <= k < |q.nodes| :: q.nodes[k] in old(q.nodes) || fresh(q.nodes[k])
      ensures q.Valid() && View() == Apply(old(View()), step)
    {
      match step {
        case ProdEnter =>
          if q.len == q.limit {
            prod := Waiting;
          } else {
            Enqueue();
          }
        case ProdResume => Enqueue();
        case ProdSpurious => prod := Woken;
        case ConsEnter =>
          if q.len == 0 {
            cons := Waiting;
          } else {
            Dequeue();
          }
        case ConsResume => Dequeue();
        case ConsSpurious => cons := Woken;
      }
    }

    // Any schedule of the two threads.
    method Run(steps: seq<Step>)
      requires q.Valid() && CanExec(View(), steps)
      modifies this, q, q.nodes
      ensures q.Valid() && View() == Exec(old(View()), steps)
    {
      var i := 0;
      while i < |steps|
        invariant forall k | 0 <= k < |q.nodes| :: q.nodes[k] in old(q.nodes) || fresh(q.nodes[k])
        invariant 0 <= i <= |steps| && q.Valid() && CanExec(View(), steps[i..])
        invariant Exec(View(), steps[i..]) == Exec(old(View()), steps)
      {
        assert steps[i..][0] == steps[i] && steps[i..][1..] == steps[i + 1..];
        Perform(steps[i]);
        i := i + 1;
      }
    }
  }

  // The test program under any schedule without spurious wakeups: stopped at any moment,
  // its check passes.
  method TestProgram(program: Program, ghost limit: nat, ghost count: nat, steps: seq<Step>) returns (outcome: Outcome)
    requires limit >= 2 && program.q.Valid() && program.View() == Init(limit, TestItems(count))
    requires CanExec(program.View(), steps) && NoSpurious(steps)
    modifies program, program.q, program.q.nodes
    ensures outcome == Passed
  {
    ReceivedInOrder(limit, count, steps);
    program.Run(steps);
    outcome := CheckReceived(program.deq);
  }
}
