/**
 What holds of whole runs of the map of ksync-rcu-cmap/rcucmap.c, with any number
 of readers and writers in any interleaving. The statements over runs do not mention
 the auxiliary sets that readers carry in RcuSystem.
 */
module RcuRuns {
  import opened RcuMap
  import opened RcuSystem

  ghost predicate IsRun(states: seq<Sys>, steps: seq<Step>) {
    && |states| == |steps| + 1
    && Init(states[0])
    && forall i | 0 <= i < |steps| :: StepAt(states, steps, i)
  }

  ghost predicate StepAt(states: seq<Sys>, steps: seq<Step>, i: nat)
    requires |states| == |steps| + 1 && i < |steps|
  {
    Enabled(states[i], steps[i]) && states[i + 1] == Apply(states[i], steps[i])
  }

  lemma {:induction false} RunInv(states: seq<Sys>, steps: seq<Step>, i: nat)
    requires IsRun(states, steps) && i < |states|
    ensures Inv(states[i])
  {
    if i > 0 {
      RunInv(states, steps, i - 1);
      assert StepAt(states, steps, i - 1);
      StepInv(states[i - 1], steps[i - 1]);
    }
  }

  // The next k links from x lead only to allocated nodes.
  ghost predicate SafeWalk(heap: map<Ref, Node>, x: Ref, k: nat)
    decreases k
  {
    x == NIL || (x in heap && (k == 0 || SafeWalk(heap, heap[x].next, k - 1)))
  }

  lemma {:induction false} WalkableIsSafe(a: Snap, view: set<Ref>, x: Ref, k: nat)
    requires Walkable(a, view) && (x == NIL || x in view)
    ensures SafeWalk(a.heap, x, k)
    decreases k
  {
    if x != NIL && k > 0 {
      assert GoodLink(a, view, x);
      WalkableIsSafe(a, view, a.heap[x].next, k - 1);
    }
  }

  // No reader inside a critical section touches reclaimed memory: its walk never
  // faults, no node reachable from its cursor has been reclaimed, and the node a
  // lookup returned stays allocated until the section ends.
  lemma NoUseAfterFree(states: seq<Sys>, steps: seq<Step>, i: nat, r: Tid)
    requires IsRun(states, steps) && i < |states| && r in states[i].readers
    ensures !states[i].readers[r].lookup.Faulted?
    ensures states[i].readers[r].lookup.Walking? ==>
              forall k: nat :: SafeWalk(states[i].m.heap, states[i].readers[r].lookup.cur, k)
    ensures states[i].readers[r].lookup.Returned? && states[i].readers[r].lookup.node != NIL ==>
              states[i].readers[r].lookup.node in states[i].m.heap
  {
    var s := states[i];
    RunInv(states, steps, i);
    assert SectionOk(s, r);
    if s.readers[r].lookup.Walking? {
      forall k: nat ensures SafeWalk(s.m.heap, s.readers[r].lookup.cur, k) {
        WalkableIsSafe(Of(s.m), s.readers[r].lookup.seen, s.readers[r].lookup.cur, k);
      }
    }
  }

  ghost predicate Retires(s: Sys, step: Step, x: Ref) {
    step.CallRcu? && step.w in s.pending && s.pending[step.w] == x
  }

  ghost predicate Allocates(step: Step, x: Ref) {
    step.UpdateStep? && step.n == x
  }

  // Only an update allocates, and only a reclaim frees.
  lemma HeapStep(s: Sys, step: Step, x: Ref)
    requires Inv(s) && Enabled(s, step)
    ensures step == Reclaim(x) ==> x in s.m.heap && x !in Apply(s, step).m.heap
    ensures x !in s.m.heap && !Allocates(step, x) ==> x !in Apply(s, step).m.heap
  {
    match step
    case UpdateStep(w, key, value, n) => UpdateEffect(s.m, key, value, n, Update(s.m, key, value, n));
    case RemoveStep(w, key) => RemoveEffect(s.m, key, Remove(s.m, key));
    case _ =>
  }

  lemma HeapStepAt(states: seq<Sys>, steps: seq<Step>, x: Ref, k: nat)
    requires IsRun(states, steps) && k < |steps|
    ensures steps[k] == Reclaim(x) ==> x in states[k].m.heap && x !in states[k + 1].m.heap
    ensures x !in states[k].m.heap && !Allocates(steps[k], x) ==> x !in states[k + 1].m.heap
  {
    RunInv(states, steps, k);
    assert StepAt(states, steps, k);
    HeapStep(states[k], steps[k], x);
  }

  lemma {:induction false} StaysFree(states: seq<Sys>, steps: seq<Step>, x: Ref, i: nat, j: nat)
    requires IsRun(states, steps) && i <= j < |states| && x !in states[i].m.heap
    requires forall k | i <= k < j :: !Allocates(steps[k], x)
    ensures x !in states[j].m.heap
    decreases j
  {
    if i < j {
      StaysFree(states, steps, x, i, j - 1);
      HeapStepAt(states, steps, x, j - 1);
    }
  }

  lemma {:induction false} StaysRetired(states: seq<Sys>, steps: seq<Step>, x: Ref, i: nat, j: nat)
    requires IsRun(states, steps) && i <= j < |states| && x in states[i].retired
    requires forall k | i <= k < j :: steps[k] != Reclaim(x)
    ensures x in states[j].retired
    decreases j
  {
    if i < j {
      StaysRetired(states, steps, x, i, j - 1);
      assert StepAt(states, steps, j - 1);
    }
  }

  lemma AllocatedAgain(states: seq<Sys>, steps: seq<Step>, x: Ref, k: nat, j: nat)
    requires IsRun(states, steps) && k < j < |states| && steps[k] == Reclaim(x) && x in states[j].m.heap
    ensures exists l :: k < l < j && Allocates(steps[l], x)
  {
    HeapStepAt(states, steps, x, k);
    if !exists l :: k < l < j && Allocates(steps[l], x) {
      StaysFree(states, steps, x, k + 1, j);
    }
  }

  // A node is reclaimed at most once in its life: between two reclaims of the same
  // address it was allocated again.
  lemma ReclaimedOnce(states: seq<Sys>, steps: seq<Step>, x: Ref, i: nat, j: nat)
    requires IsRun(states, steps) && i < j < |steps| && steps[i] == Reclaim(x) && steps[j] == Reclaim(x)
    ensures exists k :: i < k < j && Allocates(steps[k], x)
  {
    HeapStepAt(states, steps, x, j);
    AllocatedAgain(states, steps, x, i, j);
  }

  lemma RetireStep(s: Sys, step: Step, x: Ref)
    requires Inv(s) && Enabled(s, step) && Retires(s, step, x)
    ensures x !in s.retired && x in s.m.heap && x in Apply(s, step).retired
  {
  }

  lemma RetiresAt(states: seq<Sys>, steps: seq<Step>, x: Ref, i: nat)
    requires IsRun(states, steps) && i < |steps| && Retires(states[i], steps[i], x)
    ensures x !in states[i].retired && x in states[i].m.heap && x in states[i + 1].retired
  {
    RunInv(states, steps, i);
    assert StepAt(states, steps, i);
    RetireStep(states[i], steps[i], x);
  }

  // A node is handed to call_rcu at most once in its life: between two calls for
  // the same address it was reclaimed and allocated again.
  lemma RetiredOnce(states: seq<Sys>, steps: seq<Step>, x: Ref, i: nat, j: nat)
    requires IsRun(states, steps) && i < j < |steps| && Retires(states[i], steps[i], x) && Retires(states[j], steps[j], x)
    ensures exists k, l :: i < k < l < j && steps[k] == Reclaim(x) && Allocates(steps[l], x)
  {
    RetiresAt(states, steps, x, i);
    RetiresAt(states, steps, x, j);
    if !exists k :: i < k < j && steps[k] == Reclaim(x) {
      StaysRetired(states, steps, x, i + 1, j);
    }
    var k :| i < k < j && steps[k] == Reclaim(x);
    AllocatedAgain(states, steps, x, k, j);
  }

  lemma EntriesKept(s: Sys, step: Step, x: Ref)
    requires Inv(s) && Enabled(s, step) && x in s.m.heap && x in Apply(s, step).m.heap
    ensures SameEntry(s.m.heap[x], Apply(s, step).m.heap[x])
  {
    match step
    case UpdateStep(w, key, value, n) => UpdateEffect(s.m, key, value, n, Update(s.m, key, value, n));
    case RemoveStep(w, key) => RemoveEffect(s.m, key, Remove(s.m, key));
    case _ =>
  }

  // The step does not end reader r's current lookup.
  ghost predicate Continues(step: Step, r: Tid) {
    !(step.BeginLookup? && step.r == r) && step != ReadUnlock(r)
  }

  ghost predicate Looking(s: Sys, r: Tid, key: int) {
    r in s.readers && (s.readers[r].lookup.Walking? || s.readers[r].lookup.Returned?) && s.readers[r].lookup.key == key
  }

  // A lookup of key goes on, and takes in at most the nodes and the absence of this moment.
  ghost predicate Follows(look: Lookup, look': Lookup, key: int, live: set<Ref>, absent: bool) {
    && (look.Walking? || look.Returned?) && (look'.Walking? || look'.Returned?)
    && look.key == key == look'.key
    && look'.seen <= look.seen + live
    && (look'.missed ==> look.missed || absent)
  }

  ghost predicate LookupFollows(s: Sys, t: Sys, r: Tid, key: int)
    requires Valid(t.m)
  {
    && r in s.readers && r in t.readers
    && Follows(s.readers[r].lookup, t.readers[r].lookup, key, LiveSet(t.m), Absent(Of(t.m), key))
  }

  lemma WrittenLookup(s: Sys, w: Tid, m': Map, unlinked: Ref, r: Tid, key: int)
    requires Valid(m') && Looking(s, r, key)
    ensures LookupFollows(s, Written(s, w, m', unlinked), r, key)
  {
    assert Written(s, w, m', unlinked).readers[r] == Observe(Of(m'), s.readers[r]);
  }

  lemma AdvanceFollows(heap: map<Ref, Node>, look: Lookup, live: set<Ref>, absent: bool)
    requires look.Walking? && !Advance(heap, look).Faulted?
    ensures Follows(look, Advance(heap, look), look.key, live, absent)
  {
  }

  lemma LookupStep(s: Sys, step: Step, r: Tid, key: int)
    requires Enabled(s, step) && Looking(s, r, key) && Continues(step, r)
    requires Valid(Apply(s, step).m) && r in Apply(s, step).readers && !Apply(s, step).readers[r].lookup.Faulted?
    ensures LookupFollows(s, Apply(s, step), r, key)
  {
    match step
    case UpdateStep(w, k, value, n) => WrittenLookup(s, w, Update(s.m, k, value, n), Holder(s.m, k), r, key);
    case RemoveStep(w, k) => WrittenLookup(s, w, Remove(s.m, k), Holder(s.m, k), r, key);
    case Visit(t) =>
      if t == r {
        AdvanceFollows(s.m.heap, s.readers[r].lookup, LiveSet(s.m), Absent(Of(s.m), key));
      }
    case _ => assert Apply(s, step).readers[r] == s.readers[r];
  }

  lemma StaysReading(s: Sys, step: Step, r: Tid)
    requires Inv(s) && Enabled(s, step) && r in s.readers && step != ReadUnlock(r)
    ensures r in Apply(s, step).readers && !Apply(s, step).readers[r].lookup.Faulted?
  {
    StepInv(s, step);
    assert SectionOk(Apply(s, step), r);
  }

  // x was linked at some moment in (i, j], with the key and value it has at j.
  ghost predicate WasLinked(states: seq<Sys>, i: nat, j: nat, x: Ref)
    requires i <= j < |states|
  {
    exists m :: i < m <= j && LinkedAt(states[m], states[j], x)
  }

  ghost predicate LinkedAt(s: Sys, t: Sys, x: Ref) {
    Valid(s.m) && x in LiveSet(s.m) && x in t.m.heap && SameEntry(s.m.heap[x], t.m.heap[x])
  }

  ghost predicate WasAbsent(states: seq<Sys>, i: nat, j: nat, key: int)
    requires i <= j < |states|
  {
    exists m :: i < m <= j && AbsentAt(states[m], key)
  }

  ghost predicate AbsentAt(s: Sys, key: int) {
    Valid(s.m) && Absent(Of(s.m), key)
  }

  // The lookup that r began at step i is still the current one, and what it has
  // recorded since is true of the run.
  ghost predicate Recorded(states: seq<Sys>, r: Tid, key: int, i: nat, j: nat)
    requires i <= j < |states|
  {
    && Looking(states[j], r, key)
    && (forall x | x in states[j].readers[r].lookup.seen :: WasLinked(states, i, j, x))
    && (states[j].readers[r].lookup.missed ==> WasAbsent(states, i, j, key))
  }

  lemma RecordBegins(states: seq<Sys>, steps: seq<Step>, r: Tid, key: int, i: nat)
    requires IsRun(states, steps) && i < |steps| && steps[i] == BeginLookup(r, key) && Inv(states[i + 1])
    ensures Recorded(states, r, key, i, i + 1)
  {
    var s := states[i + 1];
    assert StepAt(states, steps, i);
    forall x | x in s.readers[r].lookup.seen ensures WasLinked(states, i, i + 1, x) {
      assert LinkedAt(s, s, x);
    }
    assert s.readers[r].lookup.missed ==> AbsentAt(s, key);
  }

  lemma LinkedBefore(states: seq<Sys>, steps: seq<Step>, i: nat, j: nat, x: Ref)
    requires IsRun(states, steps) && i <= j < |steps| && Inv(states[j]) && WasLinked(states, i, j, x)
    requires x in states[j + 1].m.heap
    ensures WasLinked(states, i, j + 1, x)
  {
    var m :| i < m <= j && LinkedAt(states[m], states[j], x);
    assert StepAt(states, steps, j);
    EntriesKept(states[j], steps[j], x);
    assert LinkedAt(states[m], states[j + 1], x);
  }

  lemma AbsentBefore(states: seq<Sys>, i: nat, j: nat, key: int)
    requires i <= j && j + 1 < |states| && (WasAbsent(states, i, j, key) || AbsentAt(states[j + 1], key))
    ensures WasAbsent(states, i, j + 1, key)
  {
  }

  lemma RecordGrows(states: seq<Sys>, steps: seq<Step>, r: Tid, key: int, i: nat, j: nat)
    requires IsRun(states, steps) && i <= j < |steps| && Inv(states[j]) && Valid(states[j + 1].m)
    requires LookupFollows(states[j], states[j + 1], r, key) && Recorded(states, r, key, i, j)
    requires states[j + 1].readers[r].lookup.seen <= states[j + 1].m.heap.Keys
    ensures Recorded(states, r, key, i, j + 1)
  {
    var t := states[j + 1];
    forall x | x in t.readers[r].lookup.seen ensures WasLinked(states, i, j + 1, x) {
      if x in LiveSet(t.m) {
        assert LinkedAt(t, t, x);
      } else {
        LinkedBefore(states, steps, i, j, x);
      }
    }
    if t.readers[r].lookup.missed {
      AbsentBefore(states, i, j, key);
    }
  }

  lemma FollowsAt(states: seq<Sys>, steps: seq<Step>, r: Tid, key: int, j: nat)
    requires IsRun(states, steps) && j < |steps| && Inv(states[j]) && Inv(states[j + 1])
    requires Looking(states[j], r, key) && Continues(steps[j], r)
    ensures LookupFollows(states[j], states[j + 1], r, key)
    ensures states[j + 1].readers[r].lookup.seen <= states[j + 1].m.heap.Keys
  {
    assert StepAt(states, steps, j);
    StaysReading(states[j], steps[j], r);
    LookupStep(states[j], steps[j], r, key);
    assert SectionOk(states[j + 1], r);
  }

  lemma RecordStep(states: seq<Sys>, steps: seq<Step>, r: Tid, key: int, i: nat, j: nat)
    requires IsRun(states, steps) && i <= j < |steps| && Recorded(states, r, key, i, j) && Continues(steps[j], r)
    ensures Recorded(states, r, key, i, j + 1)
  {
    RunInv(states, steps, j);
    RunInv(states, steps, j + 1);
    FollowsAt(states, steps, r, key, j);
    RecordGrows(states, steps, r, key, i, j);
  }

  lemma {:induction false} LookupHistory(states: seq<Sys>, steps: seq<Step>, r: Tid, key: int, i: nat, j: nat)
    requires IsRun(states, steps) && i < j < |states| && steps[i] == BeginLookup(r, key)
    requires forall t | i < t < j :: Continues(steps[t], r)
    ensures Recorded(states, r, key, i, j)
    decreases j
  {
    if j == i + 1 {
      RunInv(states, steps, j);
      RecordBegins(states, steps, r, key, i);
    } else {
      LookupHistory(states, steps, r, key, i, j - 1);
      RecordStep(states, steps, r, key, i, j - 1);
    }
  }

  // ---------- lookups end ----------

  // Each visit returns or lowers the cursor's insertion number.
  lemma VisitProgresses(s: Sys, r: Tid)
    requires Inv(s) && Enabled(s, Visit(r))
    ensures var cur, after := s.readers[r].lookup.cur, Advance(s.m.heap, s.readers[r].lookup);
            && Apply(s, Visit(r)).readers[r].lookup == after
            && (cur == NIL || cur in s.m.heap)
            && (after.Returned? ||
                (after.Walking? && (after.cur == NIL || after.cur in s.m.heap) &&
                 Rank(Of(s.m), after.cur) < Rank(Of(s.m), cur) < s.m.slots))
  {
    assert SectionOk(s, r);
    AdvanceOk(Of(s.m), s.readers[r].held, s.readers[r].lookup);
    if s.readers[r].lookup.cur != NIL {
      assert GoodLink(Of(s.m), s.readers[r].lookup.seen, s.readers[r].lookup.cur);
    }
  }

  // A bound on the visits that reader r's lookup can still make.
  ghost function Reach(s: Sys, r: Tid): nat {
    if r in s.readers && s.readers[r].lookup.Walking? then
      var cur := s.readers[r].lookup.cur;
      if cur in s.m.heap then s.m.heap[cur].slot + 2 else 1
    else 0
  }

  lemma VisitReach(s: Sys, r: Tid, s': Sys)
    requires Inv(s) && Enabled(s, Visit(r)) && s' == Apply(s, Visit(r))
    ensures Reach(s', r) + 1 <= Reach(s, r)
  {
    VisitProgresses(s, r);
  }

  // What any other step leaves of reader r's lookup.
  lemma CursorKept(s: Sys, step: Step, r: Tid, s': Sys)
    requires Enabled(s, step) && s' == Apply(s, step) && r in s.readers && Continues(step, r) && step != Visit(r)
    ensures r in s'.readers && (s'.readers[r].lookup.Walking? <==> s.readers[r].lookup.Walking?)
    ensures s.readers[r].lookup.Walking? ==> s'.readers[r].lookup.cur == s.readers[r].lookup.cur
  {
  }

  lemma OtherReach(s: Sys, step: Step, r: Tid, s': Sys)
    requires Inv(s) && Enabled(s, step) && s' == Apply(s, step)
    requires r in s.readers && Continues(step, r) && step != Visit(r)
    ensures Reach(s', r) <= Reach(s, r)
  {
    CursorKept(s, step, r, s');
    if s.readers[r].lookup.Walking? {
      var cur := s.readers[r].lookup.cur;
      assert SectionOk(s, r);
      if cur in s.m.heap && cur in s'.m.heap {
        EntriesKept(s, step, cur);
      } else if cur == NIL {
        StepInv(s, step);
      }
    }
  }

  lemma BeginReach(s: Sys, r: Tid, key: int, s': Sys)
    requires Inv(s) && Enabled(s, BeginLookup(r, key)) && s' == Apply(s, BeginLookup(r, key))
    ensures Reach(s', r) <= s'.m.slots + 1
  {
    var b := s.m.bucketOf(key);
    assert ValidChain(s.m.bucketOf, s.m.heap, s.m.heads[b], s.m.chains[b], b, s.m.slots);
  }

  lemma ReachBegins(states: seq<Sys>, steps: seq<Step>, r: Tid, key: int, i: nat)
    requires IsRun(states, steps) && i < |steps| && steps[i] == BeginLookup(r, key)
    ensures Reach(states[i + 1], r) <= states[i + 1].m.slots + 1
  {
    RunInv(states, steps, i);
    assert StepAt(states, steps, i);
    BeginReach(states[i], r, key, states[i + 1]);
  }

  // How many of the steps from a to b are visits of reader r.
  function Visits(steps: seq<Step>, r: Tid, a: nat, b: nat): nat
    requires a <= b <= |steps|
    decreases b
  {
    if a == b then 0 else Visits(steps, r, a, b - 1) + if steps[b - 1] == Visit(r) then 1 else 0
  }

  lemma ReachStep(states: seq<Sys>, steps: seq<Step>, r: Tid, j: nat, k: nat)
    requires IsRun(states, steps) && j < |steps| && k == j + 1 && r in states[j].readers && Continues(steps[j], r)
    ensures Reach(states[k], r) + (if steps[j] == Visit(r) then 1 else 0) <= Reach(states[j], r)
  {
    RunInv(states, steps, j);
    assert StepAt(states, steps, j);
    if steps[j] == Visit(r) {
      VisitReach(states[j], r, states[k]);
    } else {
      OtherReach(states[j], steps[j], r, states[k]);
    }
  }

  lemma {:induction false} ReachSpent(states: seq<Sys>, steps: seq<Step>, r: Tid, key: int, i: nat, a: nat, j: nat)
    requires IsRun(states, steps) && a == i + 1 <= j < |states| && steps[i] == BeginLookup(r, key)
    requires forall t | i < t < j :: Continues(steps[t], r)
    ensures Visits(steps, r, a, j) + Reach(states[j], r) <= Reach(states[a], r)
    decreases j
  {
    if j > a {
      ReachSpent(states, steps, r, key, i, a, j - 1);
      LookupHistory(states, steps, r, key, i, j - 1);
      ReachStep(states, steps, r, j - 1, j);
    }
  }

  // Whatever the writers do meanwhile, a lookup visits at most one node more than there
  // had been insertions when it began.
  lemma LookupEnds(states: seq<Sys>, steps: seq<Step>, r: Tid, key: int, i: nat, j: nat)
    requires IsRun(states, steps) && i < j < |states| && steps[i] == BeginLookup(r, key)
    requires forall t | i < t < j :: Continues(steps[t], r)
    ensures Visits(steps, r, i + 1, j) <= states[i + 1].m.slots + 1
  {
    var a := i + 1;
    ReachSpent(states, steps, r, key, i, a, j);
    ReachBegins(states, steps, r, key, i);
  }

  // At s the map gives the answer that a lookup of key answered with node at t.
  ghost predicate Answers(s: Sys, t: Sys, key: int, node: Ref) {
    && Valid(s.m)
    && if node == NIL then key !in Abs(s.m)
       else node in LiveSet(s.m) && node in t.m.heap && key in Abs(s.m) && Abs(s.m)[key] == t.m.heap[node].value
  }

  // Lookups are linearizable: whatever updates and removals ran meanwhile, there is a
  // moment after the lookup of key began and no later than its return at which the
  // map's answer for key was the one it returned.
  lemma Linearizable(states: seq<Sys>, steps: seq<Step>, r: Tid, key: int, i: nat, j: nat)
    requires IsRun(states, steps) && i < j < |states| && steps[i] == BeginLookup(r, key)
    requires forall t | i < t < j :: Continues(steps[t], r)
    requires r in states[j].readers && states[j].readers[r].lookup.Returned?
    ensures exists m :: i < m <= j && Answers(states[m], states[j], key, states[j].readers[r].lookup.node)
  {
    LookupHistory(states, steps, r, key, i, j);
    RunInv(states, steps, j);
    assert SectionOk(states[j], r);
    var node := states[j].readers[r].lookup.node;
    if node == NIL {
      var m :| i < m <= j && AbsentAt(states[m], key);
      LiveDistinct(states[m].m);
      BindingsFacts(states[m].m.heap, LiveSet(states[m].m));
      assert Answers(states[m], states[j], key, node);
    } else {
      assert WasLinked(states, i, j, node);
      var m :| i < m <= j && LinkedAt(states[m], states[j], node);
      LiveDistinct(states[m].m);
      BindingsFacts(states[m].m.heap, LiveSet(states[m].m));
      assert Answers(states[m], states[j], key, node);
    }
  }

  // Every step changes the represented map exactly as its operation on a plain finite map would.
  lemma StepRefines(s: Sys, step: Step)
    requires Inv(s) && Enabled(s, step)
    ensures Inv(Apply(s, step))
    ensures Abs(Apply(s, step).m) ==
            match step
            case UpdateStep(_, key, value, _) => Abs(s.m)[key := value]
            case RemoveStep(_, key) => Abs(s.m) - {key}
            case _ => Abs(s.m)
  {
    StepInv(s, step);
    match step
    case UpdateStep(w, key, value, n) => UpdateRefines(s.m, key, value, n, Update(s.m, key, value, n));
    case RemoveStep(w, key) => RemoveRefines(s.m, key, Remove(s.m, key));
    case Reclaim(x) => FreeAbs(s.m, x);
    case _ =>
  }

  // So at every step of every run.
  lemma RunRefines(states: seq<Sys>, steps: seq<Step>, i: nat, j: nat)
    requires IsRun(states, steps) && i < |steps| && j == i + 1
    ensures Valid(states[i].m) && Valid(states[j].m)
    ensures Abs(states[j].m) ==
            match steps[i]
            case UpdateStep(_, key, value, _) => Abs(states[i].m)[key := value]
            case RemoveStep(_, key) => Abs(states[i].m) - {key}
            case _ => Abs(states[i].m)
  {
    RunInv(states, steps, i);
    RunInv(states, steps, j);
    assert StepAt(states, steps, i);
    StepRefines(states[i], steps[i]);
  }

  lemma FreeAbs(m: Map, x: Ref)
    requires Valid(m) && x !in LiveSet(m)
    ensures Valid(m.(heap := m.heap - {x})) && Abs(m.(heap := m.heap - {x})) == Abs(m)
  {
    var m' := m.(heap := m.heap - {x});
    FreeValid(m, x);
    LiveDistinct(m);
    LiveDistinct(m');
    BindingsFacts(m.heap, LiveSet(m));
    forall k | k in Abs(m) ensures HasKey(m'.heap, LiveSet(m'), k) {
      var y :| y in LiveSet(m) && m.heap[y].key == k;
      assert y in LiveSet(m');
    }
    BindingsUnique(m'.heap, LiveSet(m'), Abs(m));
  }
}
