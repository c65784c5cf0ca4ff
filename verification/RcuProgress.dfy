/**
 What can always still happen on the map of ksync-rcu-cmap/rcucmap.c: a lookup can go on
 until it has returned, and every run can be continued until no reader is inside a
 critical section and every node that was unlinked has been freed.
 */
module RcuProgress {
  import opened RcuMap
  import opened RcuSystem
  import opened RcuRuns

  // A token: the predicates of each topic can be looked into only where one is mentioned.
  datatype Topic = State | Moving | Binding

  predicate Token(topic: Topic, u: nat) {
    true
  }

  datatype Shape = Sound | Broken

  ghost function GoodShape(s: Sys): Shape {
    if forall u: nat {:trigger Token(State, u)} | Token(State, u) :: Inv(s) then Sound else Broken
  }

  ghost predicate Good(s: Sys) {
    GoodShape(s) == Sound
  }

  ghost function GoesShape(s: Sys, step: Step, s': Sys): Shape {
    if forall u: nat {:trigger Token(Moving, u)} | Token(Moving, u) :: Enabled(s, step) && s' == Apply(s, step) then Sound else Broken
  }

  ghost predicate Goes(s: Sys, step: Step, s': Sys) {
    GoesShape(s, step, s') == Sound
  }

  ghost predicate Trace(states: seq<Sys>, steps: seq<Step>) {
    |states| == |steps| + 1 && forall i | 0 <= i < |steps| :: Goes(states[i], steps[i], states[i + 1])
  }

  ghost predicate Leads(states: seq<Sys>, steps: seq<Step>, s: Sys, s': Sys) {
    Trace(states, steps) && states[0] == s && states[|steps|] == s'
  }

  // The steps lead from s to s'.
  ghost predicate Path(s: Sys, steps: seq<Step>, s': Sys) {
    exists states :: Leads(states, steps, s, s')
  }

  lemma PathStep(s: Sys, step: Step, s': Sys)
    requires Inv(s) && Enabled(s, step) && s' == Apply(s, step)
    ensures Path(s, [step], s') && Good(s')
  {
    GoesOn(s, step, s');
    GoodNext(s, step, s');
    PathOne(s, step, s');
  }

  lemma GoesOn(s: Sys, step: Step, s': Sys)
    requires Enabled(s, step) && s' == Apply(s, step)
    ensures Goes(s, step, s')
  {
  }

  lemma GoodNext(s: Sys, step: Step, s': Sys)
    requires Inv(s) && Enabled(s, step) && s' == Apply(s, step)
    ensures Good(s')
  {
    StepInv(s, step);
  }

  lemma PathOne(s: Sys, step: Step, s': Sys)
    requires Goes(s, step, s')
    ensures Path(s, [step], s')
  {
    assert Leads([s, s'], [step], s, s');
  }

  lemma TraceJoin(xs: seq<Sys>, a: seq<Step>, ys: seq<Sys>, b: seq<Step>, s: Sys, s1: Sys, s2: Sys) returns (zs: seq<Sys>)
    requires Leads(xs, a, s, s1) && Leads(ys, b, s1, s2)
    ensures Leads(zs, a + b, s, s2)
  {
    zs := xs + ys[1..];
    forall i | 0 <= i < |a + b| ensures Goes(zs[i], (a + b)[i], zs[i + 1]) {
      if i < |a| {
        assert Goes(xs[i], a[i], xs[i + 1]);
      } else {
        assert Goes(ys[i - |a|], b[i - |a|], ys[i - |a| + 1]);
      }
    }
  }

  lemma PathJoin(s: Sys, a: seq<Step>, s1: Sys, b: seq<Step>, s2: Sys)
    requires Path(s, a, s1) && Path(s1, b, s2)
    ensures Path(s, a + b, s2)
  {
    var xs :| Leads(xs, a, s, s1);
    var ys :| Leads(ys, b, s1, s2);
    var zs := TraceJoin(xs, a, ys, b, s, s1, s2);
  }

  lemma PathNone(s: Sys)
    ensures Path(s, [], s)
  {
    assert Leads([s], [], s, s);
  }

  // The memory and the map are left as they were.
  ghost predicate SameMap(s: Sys, s': Sys) {
    s'.m == s.m && s'.pending == s.pending && s'.readers.Keys == s.readers.Keys
  }

  // ---------- lookups return ----------

  lemma VisitOnce(s: Sys, r: Tid) returns (s': Sys)
    requires Good(s) && r in s.readers && s.readers[r].lookup.Walking?
    ensures Path(s, [Visit(r)], s') && Good(s') && SameMap(s, s') && Reach(s', r) < Reach(s, r)
    ensures s'.readers[r].lookup.Walking? || s'.readers[r].lookup.Returned?
    ensures s'.readers[r].lookup.key == s.readers[r].lookup.key
  {
    assert Token(State, 0);
    s' := Apply(s, Visit(r));
    VisitFacts(s, r, s');
    PathStep(s, Visit(r), s');
  }

  lemma VisitFacts(s: Sys, r: Tid, s': Sys)
    requires Inv(s) && Enabled(s, Visit(r)) && s' == Apply(s, Visit(r))
    ensures SameMap(s, s') && Reach(s', r) < Reach(s, r)
    ensures s'.readers[r].lookup.Walking? || s'.readers[r].lookup.Returned?
    ensures s'.readers[r].lookup.key == s.readers[r].lookup.key
  {
    VisitProgresses(s, r);
    VisitReach(s, r, s');
  }

  function VisitsOf(r: Tid, n: nat): seq<Step> {
    if n == 0 then [] else [Visit(r)] + VisitsOf(r, n - 1)
  }

  // A lookup that is walking returns after some more of its own visits.
  lemma {:induction false} Returns(s: Sys, r: Tid) returns (n: nat, s': Sys)
    requires Good(s) && r in s.readers && s.readers[r].lookup.Walking?
    ensures Path(s, VisitsOf(r, n), s') && Good(s') && SameMap(s, s')
    ensures s'.readers[r].lookup.Returned? && s'.readers[r].lookup.key == s.readers[r].lookup.key
    decreases Reach(s, r)
  {
    var s1 := VisitOnce(s, r);
    if s1.readers[r].lookup.Returned? {
      n, s' := 1, s1;
      assert VisitsOf(r, 1) == [Visit(r)];
    } else {
      n, s' := Returns(s1, r);
      PathJoin(s, [Visit(r)], s1, VisitsOf(r, n), s');
      n := n + 1;
    }
  }

  // ---------- readers leave ----------

  lemma Unlocks(s: Sys, r: Tid) returns (s': Sys)
    requires Good(s) && r in s.readers && !s.readers[r].lookup.Walking?
    ensures Path(s, [ReadUnlock(r)], s') && Good(s') && s'.m == s.m && s'.readers.Keys == s.readers.Keys - {r}
  {
    assert Token(State, 0);
    assert SectionOk(s, r);
    s' := Apply(s, ReadUnlock(r));
    PathStep(s, ReadUnlock(r), s');
  }

  lemma Leaves(s: Sys, r: Tid) returns (steps: seq<Step>, s': Sys)
    requires Good(s) && r in s.readers
    ensures Path(s, steps, s') && Good(s') && s'.m == s.m && s'.readers.Keys == s.readers.Keys - {r}
  {
    if s.readers[r].lookup.Walking? {
      var n, s1 := Returns(s, r);
      s' := Unlocks(s1, r);
      PathJoin(s, VisitsOf(r, n), s1, [ReadUnlock(r)], s');
      steps := VisitsOf(r, n) + [ReadUnlock(r)];
    } else {
      s' := Unlocks(s, r);
      steps := [ReadUnlock(r)];
    }
  }

  lemma {:induction false} AllLeave(s: Sys, readers: set<Tid>) returns (steps: seq<Step>, s': Sys)
    requires Good(s) && readers == s.readers.Keys
    ensures Path(s, steps, s') && Good(s') && s'.m == s.m && s'.readers.Keys == {}
    decreases |readers|
  {
    if readers == {} {
      steps, s' := [], s;
      PathNone(s);
    } else {
      var r :| r in readers;
      var a, s1 := Leaves(s, r);
      var b;
      b, s' := AllLeave(s1, readers - {r});
      PathJoin(s, a, s1, b, s');
      steps := a + b;
    }
  }

  // ---------- writers hand over, and grace periods end ----------

  lemma HandsOver(s: Sys, w: Tid) returns (s': Sys)
    requires Good(s) && w in s.pending
    ensures Path(s, [CallRcu(w)], s') && Good(s') && s'.m == s.m && s'.readers == s.readers && s'.pending.Keys == s.pending.Keys - {w}
  {
    assert Token(State, 0);
    s' := Apply(s, CallRcu(w));
    PathStep(s, CallRcu(w), s');
  }

  lemma {:induction false} AllRetire(s: Sys, writers: set<Tid>) returns (steps: seq<Step>, s': Sys)
    requires Good(s) && writers == s.pending.Keys
    ensures Path(s, steps, s') && Good(s') && s'.m == s.m && s'.readers == s.readers && s'.pending.Keys == {}
    decreases |writers|
  {
    if writers == {} {
      steps, s' := [], s;
      PathNone(s);
    } else {
      var w :| w in writers;
      var s1 := HandsOver(s, w);
      var b;
      b, s' := AllRetire(s1, writers - {w});
      PathJoin(s, [CallRcu(w)], s1, b, s');
      steps := [CallRcu(w)] + b;
    }
  }

  // The map that a good state represents.
  ghost predicate Binds(s: Sys, f: map<int, int>) {
    BindsShape(s.m, f) == Sound
  }

  ghost function BindsShape(m: Map, f: map<int, int>): Shape {
    if forall u: nat {:trigger Token(Binding, u)} | Token(Binding, u) :: Valid(m) && Abs(m) == f then Sound else Broken
  }

  lemma Reclaims(s: Sys, x: Ref, f: map<int, int>) returns (s': Sys)
    requires Good(s) && s.readers.Keys == {} && x in s.retired && Binds(s, f)
    ensures Path(s, [Reclaim(x)], s') && Good(s') && Binds(s', f)
    ensures s'.readers == s.readers && s'.pending == s.pending && s'.retired.Keys == s.retired.Keys - {x}
  {
    assert Token(State, 0) && Token(Binding, 0);
    assert s.retired[x] == {};
    s' := Apply(s, Reclaim(x));
    StepRefines(s, Reclaim(x));
    PathStep(s, Reclaim(x), s');
  }

  lemma {:induction false} AllReclaimed(s: Sys, nodes: set<Ref>, f: map<int, int>) returns (steps: seq<Step>, s': Sys)
    requires Good(s) && s.readers.Keys == {} && nodes == s.retired.Keys && Binds(s, f)
    ensures Path(s, steps, s') && Good(s') && Binds(s', f)
    ensures s'.readers.Keys == {} && s'.pending == s.pending && s'.retired.Keys == {}
    decreases |nodes|
  {
    if nodes == {} {
      steps, s' := [], s;
      PathNone(s);
    } else {
      var x :| x in nodes;
      var s1 := Reclaims(s, x, f);
      var b;
      b, s' := AllReclaimed(s1, nodes - {x}, f);
      PathJoin(s, [Reclaim(x)], s1, b, s');
      steps := [Reclaim(x)] + b;
    }
  }

  lemma Settles(s: Sys, f: map<int, int>) returns (steps: seq<Step>, s': Sys)
    requires Good(s) && Binds(s, f)
    ensures Path(s, steps, s') && Good(s') && Binds(s', f)
    ensures s'.readers.Keys == {} && s'.pending.Keys == {} && s'.retired.Keys == {}
  {
    var a, s1 := AllLeave(s, s.readers.Keys);
    var b, s2 := AllRetire(s1, s1.pending.Keys);
    BindsSame(s, s2, f);
    var c;
    c, s' := AllReclaimed(s2, s2.retired.Keys, f);
    PathJoin(s, a, s1, b, s2);
    PathJoin(s, a + b, s2, c, s');
    steps := a + b + c;
  }

  lemma BindsSame(s: Sys, s': Sys, f: map<int, int>)
    requires Binds(s, f) && s'.m == s.m
    ensures Binds(s', f)
  {
  }

  // ---------- over runs ----------

  ghost function Last(states: seq<Sys>): Sys
    requires states != []
  {
    states[|states| - 1]
  }

  // The second run goes on where the first stopped.
  ghost predicate Extends(states: seq<Sys>, steps: seq<Step>, states': seq<Sys>, steps': seq<Step>) {
    IsRun(states', steps') && states <= states' && steps <= steps'
  }

  lemma TraceAt(states: seq<Sys>, steps: seq<Step>, i: nat)
    requires Trace(states, steps) && i < |steps|
    ensures StepAt(states, steps, i)
  {
    assert Token(Moving, 0);
    assert Goes(states[i], steps[i], states[i + 1]);
  }

  lemma RunOn(states: seq<Sys>, steps: seq<Step>, more: seq<Sys>, next: seq<Step>, s': Sys) returns (states': seq<Sys>)
    requires IsRun(states, steps) && Leads(more, next, Last(states), s')
    ensures Extends(states, steps, states', steps + next) && Last(states') == s'
  {
    states' := states + more[1..];
    forall i | 0 <= i < |steps + next| ensures StepAt(states', steps + next, i) {
      if i < |steps| {
        assert StepAt(states, steps, i);
      } else {
        TraceAt(more, next, i - |steps|);
      }
    }
  }

  lemma RunGood(states: seq<Sys>, steps: seq<Step>)
    requires IsRun(states, steps)
    ensures Good(Last(states)) && Valid(Last(states).m) && Binds(Last(states), Abs(Last(states).m))
  {
    RunInv(states, steps, |steps|);
  }

  lemma PathRuns(states: seq<Sys>, steps: seq<Step>, next: seq<Step>, s': Sys) returns (states': seq<Sys>)
    requires IsRun(states, steps) && Path(Last(states), next, s')
    ensures Extends(states, steps, states', steps + next) && Last(states') == s'
  {
    var more :| Leads(more, next, Last(states), s');
    states' := RunOn(states, steps, more, next, s');
  }

  // In every run, a lookup that is walking can go on by its own visits until it returns.
  lemma LookupReturns(states: seq<Sys>, steps: seq<Step>, r: Tid) returns (n: nat, states': seq<Sys>)
    requires IsRun(states, steps) && r in Last(states).readers && Last(states).readers[r].lookup.Walking?
    ensures Extends(states, steps, states', steps + VisitsOf(r, n)) && r in Last(states').readers
    ensures Last(states').readers[r].lookup.Returned? && Last(states').readers[r].lookup.key == Last(states).readers[r].lookup.key
  {
    RunGood(states, steps);
    var s';
    n, s' := Returns(Last(states), r);
    states' := PathRuns(states, steps, VisitsOf(r, n), s');
  }

  // From wherever a run has got to, it can go on without changing the represented map until
  // no reader is inside, nothing is retired, and exactly the linked nodes are allocated.
  lemma CanSettle(states: seq<Sys>, steps: seq<Step>) returns (states': seq<Sys>, steps': seq<Step>)
    requires IsRun(states, steps)
    ensures Extends(states, steps, states', steps')
    ensures Last(states').readers.Keys == {} && Last(states').pending.Keys == {} && Last(states').retired.Keys == {}
    ensures Valid(Last(states).m) && Valid(Last(states').m) && Abs(Last(states').m) == Abs(Last(states).m)
    ensures Last(states').m.heap.Keys == LiveSet(Last(states').m)
  {
    RunGood(states, steps);
    var more, s' := Settles(Last(states), Abs(Last(states).m));
    states' := PathRuns(states, steps, more, s');
    steps' := steps + more;
    Settled(s', Abs(Last(states).m));
  }

  lemma Settled(s: Sys, f: map<int, int>)
    requires Good(s) && Binds(s, f) && s.pending.Keys == {} && s.retired.Keys == {}
    ensures Valid(s.m) && Abs(s.m) == f && s.m.heap.Keys == LiveSet(s.m)
  {
    assert Token(State, 0) && Token(Binding, 0);
  }
}
