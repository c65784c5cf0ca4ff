/**
 What the two kernel threads of ksync-rcu-cmap/rcucmap.c come to: what the writer stores,
 what the reader adds up, and that the reader leaves its loop.
 */
module RcuTaskRuns {
  import opened RcuMap
  import opened RcuSystem
  import opened RcuRuns
  import opened RcuTasks

  // A token: the predicates of each topic can be looked into only where one is mentioned.
  datatype Topic = Program | Moving | Running | Binding | Storing

  predicate Token(topic: Topic, u: nat) {
    true
  }

  datatype Shape = Sound | Broken

  ghost function OkayShape(p: Prog): Shape {
    if forall u: nat {:trigger Token(Program, u)} | Token(Program, u) :: ProgOk(p) then Sound else Broken
  }

  ghost predicate Okay(p: Prog) {
    OkayShape(p) == Sound
  }

  ghost function MovesShape(p: Prog, mv: Move, p': Prog): Shape {
    if forall u: nat {:trigger Token(Moving, u)} | Token(Moving, u) :: CanMove(p, mv) && p' == MoveTo(p, mv) then Sound else Broken
  }

  ghost predicate Moves(p: Prog, mv: Move, p': Prog) {
    MovesShape(p, mv, p') == Sound
  }

  ghost function RanShape(progs: seq<Prog>, moves: seq<Move>): Shape {
    if forall u: nat {:trigger Token(Running, u)} | Token(Running, u) :: IsExecution(progs, moves) then Sound else Broken
  }

  ghost predicate Ran(progs: seq<Prog>, moves: seq<Move>) {
    |progs| == |moves| + 1 && RanShape(progs, moves) == Sound
  }

  lemma MovesAt(progs: seq<Prog>, moves: seq<Move>, k: nat, l: nat)
    requires Ran(progs, moves) && k < |moves| && l == k + 1
    ensures Okay(progs[k]) && Moves(progs[k], moves[k], progs[l])
  {
    assert Token(Running, 0);
    ExecutionOk(progs, moves, k);
    assert MoveAt(progs, moves, k);
  }

  // ---------- what the map holds ----------

  function Multiple(k: int, step: int): int {
    k * step
  }

  // The value of key k while the writer updates key i in its round step.
  function Current(k: int, step: int, i: int): int {
    Multiple(k, if k < i || step == 1 then step else step - 1)
  }

  // The map when no allocation has failed: the keys themselves at first, then the multiples
  // of the step that the writer has come to, and the keys still to be removed at last.
  function Stored(w: Writer): map<int, int> {
    match w
    case Inserting(i) => map k: int | 0 <= k < i :: Multiple(k, 1)
    case Updating(step, i) => map k: int | 0 <= k < 10 :: Current(k, step, i)
    case Removing(i) => map k: int | i <= k < 10 :: Multiple(k, 4)
    case Finished => map[]
  }

  lemma StoredAfter(w: Writer, ready: bool, mv: Move)
    requires WriterOk(w, ready) && WriterCan(w, mv) && !mv.WriterNoMemory?
    ensures MapAfter(w, mv, Stored(w)) == Stored(WriterAfter(w, mv))
  {
  }

  ghost function ExactShape(p: Prog): Shape {
    if forall u: nat {:trigger Token(Storing, u)} | Token(Storing, u) :: Valid(p.sys.m) && Abs(p.sys.m) == Stored(p.writer) then Sound else Broken
  }

  ghost predicate Exact(p: Prog) {
    ExactShape(p) == Sound
  }

  lemma ExactStep(p: Prog, mv: Move, p': Prog)
    requires Okay(p) && Moves(p, mv, p') && !mv.WriterNoMemory? && Exact(p)
    ensures Exact(p')
  {
    assert Token(Program, 0) && Token(Moving, 0) && Token(Storing, 0);
    MapMove(p, mv);
    StoredAfter(p.writer, p.ready, mv);
  }

  lemma {:induction false} ExactAt(progs: seq<Prog>, moves: seq<Move>, i: nat)
    requires Ran(progs, moves) && i < |progs| && forall k | 0 <= k < i :: !moves[k].WriterNoMemory?
    ensures Exact(progs[i])
    decreases i
  {
    if i == 0 {
      ExactStart(progs, moves);
    } else {
      ExactAt(progs, moves, i - 1);
      ExactNext(progs, moves, i - 1, i);
    }
  }

  lemma ExactNext(progs: seq<Prog>, moves: seq<Move>, k: nat, l: nat)
    requires Ran(progs, moves) && k < |moves| && l == k + 1 && Exact(progs[k]) && !moves[k].WriterNoMemory?
    ensures Exact(progs[l])
  {
    MovesAt(progs, moves, k, l);
    ExactStep(progs[k], moves[k], progs[l]);
  }

  lemma ExactStart(progs: seq<Prog>, moves: seq<Move>)
    requires Ran(progs, moves)
    ensures Exact(progs[0])
  {
    assert Token(Running, 0);
    StartEmpty(progs[0]);
  }

  // At every moment of an execution in which no allocation has failed, the map holds exactly
  // what the writer has stored.
  lemma MapExactly(progs: seq<Prog>, moves: seq<Move>, i: nat)
    requires IsExecution(progs, moves) && i < |progs| && forall k | 0 <= k < i :: !moves[k].WriterNoMemory?
    ensures Valid(progs[i].sys.m) && Abs(progs[i].sys.m) == Stored(progs[i].writer)
  {
    ExactAt(progs, moves, i);
    assert Token(Storing, 0);
  }

  lemma StartEmpty(p: Prog)
    requires Start(p) && Valid(p.sys.m)
    ensures Abs(p.sys.m) == map[] && p.writer == Inserting(0)
  {
    assert LiveSet(p.sys.m) == {};
    LiveDistinct(p.sys.m);
    BindingsUnique(p.sys.m.heap, LiveSet(p.sys.m), map[]);
  }

  // ---------- what the reader adds up ----------

  // The values of the first n keys, where a key that is not bound counts nothing.
  function SumOf(f: map<int, int>, n: nat): int {
    if n == 0 then 0 else SumOf(f, n - 1) + if n - 1 in f then f[n - 1] else 0
  }

  // A lookup that began while the map was f and has seen no other.
  ghost predicate LookupSteady(look: Lookup, live: set<Ref>, f: map<int, int>) {
    look.Walking? || look.Returned? ==> look.seen == live && (look.missed ==> look.key !in f)
  }

  // The reader rd, standing at at, has added up f so far.
  ghost predicate Adds(rd: Reader, at: Where, live: set<Ref>, f: map<int, int>) {
    && rd.Reading?
    && rd.sum == SumOf(f, if rd.got then rd.i + 1 else rd.i)
    && (at.Inside? ==> LookupSteady(at.look, live, f))
  }

  // The map represents f, and its linked nodes are those in live.
  ghost function MapIsShape(m: Map, f: map<int, int>, live: set<Ref>): Shape {
    if forall u: nat {:trigger Token(Binding, u)} | Token(Binding, u) :: Valid(m) && Abs(m) == f && LiveSet(m) == live then Sound else Broken
  }

  ghost predicate MapIs(m: Map, f: map<int, int>, live: set<Ref>) {
    MapIsShape(m, f, live) == Sound
  }

  predicate Writes(mv: Move) {
    mv.WriterUpdate? || mv.WriterRemove?
  }

  // ---------- a move of the reader ----------

  lemma AddMoves(p: Prog, p': Prog) returns (got: int)
    requires Moves(p, ReaderAdd, p')
    ensures p.reader.Reading? && !p.reader.got && p'.sys == p.sys && p'.reader == Reading(p.reader.i, p.reader.sum + got, true)
    ensures READER in p.sys.readers && p.sys.readers[READER].lookup.Returned? && got == Got(p.sys)
  {
    assert Token(Moving, 0);
    got := Got(p.sys);
  }

  lemma Found(m: Map, f: map<int, int>, live: set<Ref>, x: Ref)
    requires MapIs(m, f, live) && x in live
    ensures x in m.heap && m.heap[x].key in f && f[m.heap[x].key] == m.heap[x].value
  {
    assert Token(Binding, 0);
    LiveDistinct(m);
    BindingsFacts(m.heap, LiveSet(m));
  }

  lemma ReturnedFacts(p: Prog)
    requires Okay(p) && READER in p.sys.readers && p.sys.readers[READER].lookup.Returned? && p.reader.Reading?
    ensures var look := p.sys.readers[READER].lookup;
            && look.key == p.reader.i
            && if look.node == NIL then look.missed && NIL !in p.sys.m.heap
               else look.node in look.seen && look.node in p.sys.m.heap && p.sys.m.heap[look.node].key == look.key
  {
    assert Token(Program, 0);
    assert SectionOk(p.sys, READER);
    FactsHold(p);
  }

  // What the reader adds for the key it looked up.
  lemma GotSteady(p: Prog, f: map<int, int>, live: set<Ref>)
    requires Okay(p) && MapIs(p.sys.m, f, live) && Adds(p.reader, Standing(p.sys), live, f)
    requires READER in p.sys.readers && p.sys.readers[READER].lookup.Returned?
    ensures Got(p.sys) == if p.reader.i in f then f[p.reader.i] else 0
  {
    ReturnedFacts(p);
    var node := p.sys.readers[READER].lookup.node;
    if node != NIL {
      Found(p.sys.m, f, live, node);
    }
  }

  lemma AddAdds(rd: Reader, at: Where, live: set<Ref>, f: map<int, int>, got: int)
    requires Adds(rd, at, live, f) && !rd.got && got == if rd.i in f then f[rd.i] else 0
    ensures Adds(Reading(rd.i, rd.sum + got, true), at, live, f)
  {
  }

  lemma AddSteady(p: Prog, p': Prog, f: map<int, int>, live: set<Ref>)
    requires Okay(p) && Moves(p, ReaderAdd, p') && MapIs(p.sys.m, f, live) && Adds(p.reader, Standing(p.sys), live, f)
    ensures p'.sys == p.sys && Adds(p'.reader, Standing(p'.sys), live, f)
  {
    var got := AddMoves(p, p');
    GotSteady(p, f, live);
    AddAdds(p.reader, Standing(p.sys), live, f, got);
  }

  lemma LockSteady(p: Prog, p': Prog, f: map<int, int>, live: set<Ref>)
    requires Moves(p, ReaderLock, p') && Adds(p.reader, Standing(p.sys), live, f)
    ensures p'.sys.m == p.sys.m && Adds(p'.reader, Standing(p'.sys), live, f)
  {
    assert Token(Moving, 0);
  }

  lemma BeginSteady(p: Prog, p': Prog, f: map<int, int>, live: set<Ref>)
    requires Moves(p, ReaderBegin, p') && MapIs(p.sys.m, f, live) && Adds(p.reader, Standing(p.sys), live, f)
    ensures p'.sys.m == p.sys.m && Adds(p'.reader, Standing(p'.sys), live, f)
  {
    var look := BeginMoves(p, p');
    BeginSees(p.sys.m, look, f, live);
  }

  lemma BeginMoves(p: Prog, p': Prog) returns (look: Lookup)
    requires Moves(p, ReaderBegin, p')
    ensures p'.sys.m == p.sys.m && p'.reader == p.reader && Standing(p'.sys) == Inside(look)
    ensures look.Walking? && Valid(p.sys.m) && look.seen == LiveSet(p.sys.m) && look.missed == Absent(Of(p.sys.m), look.key)
  {
    assert Token(Moving, 0);
    look := p'.sys.readers[READER].lookup;
  }

  lemma BeginSees(m: Map, look: Lookup, f: map<int, int>, live: set<Ref>)
    requires MapIs(m, f, live) && look.Walking? && Valid(m) && look.seen == LiveSet(m) && look.missed == Absent(Of(m), look.key)
    ensures LookupSteady(look, live, f)
  {
    assert Token(Binding, 0);
    AbsentIsUnbound(m, look.key);
  }

  lemma VisitSteady(p: Prog, p': Prog, f: map<int, int>, live: set<Ref>)
    requires Moves(p, ReaderVisit, p') && Adds(p.reader, Standing(p.sys), live, f)
    ensures p'.sys.m == p.sys.m && Adds(p'.reader, Standing(p'.sys), live, f)
  {
    assert Token(Moving, 0);
  }

  lemma UnlockSteady(p: Prog, p': Prog, f: map<int, int>, live: set<Ref>)
    requires Moves(p, ReaderUnlock, p') && Adds(p.reader, Standing(p.sys), live, f)
    ensures p'.sys.m == p.sys.m && Adds(p'.reader, Standing(p'.sys), live, f)
  {
    assert Token(Moving, 0);
  }

  // ---------- a move of another thread ----------

  // A step of another thread that writes nothing leaves the reader and the linked nodes alone.
  lemma OthersStand(s: Sys, step: Step, s': Sys)
    requires Inv(s) && Enabled(s, step) && s' == Apply(s, step) && (step.UpdateFails? || step.CallRcu? || step.Reclaim?)
    ensures Valid(s'.m) && LiveSet(s'.m) == LiveSet(s.m) && Standing(s') == Standing(s)
  {
    if step.Reclaim? {
      AccountedFree(s.m.heap.Keys, LiveSet(s.m), s.readers.Keys, s.pending, s.retired, step.x);
      FreeValid(s.m, step.x);
    }
  }

  lemma OtherSteady(p: Prog, mv: Move, p': Prog, f: map<int, int>, live: set<Ref>)
    requires Okay(p) && Moves(p, mv, p') && MapIs(p.sys.m, f, live)
    requires mv.WriterNoMemory? || mv.WriterPublish? || mv.WriterRetire? || mv.WriterFinish? || mv.GraceEnds?
    ensures MapIs(p'.sys.m, f, live) && p'.reader == p.reader && Standing(p'.sys) == Standing(p.sys)
  {
    assert Token(Program, 0) && Token(Moving, 0) && Token(Binding, 0);
    MapMove(p, mv);
    if MapStep(p, mv) != [] {
      OthersStand(p.sys, MapStep(p, mv)[0], p'.sys);
    }
  }

  // ---------- a pass ----------

  // The map is f, and the reader has added it up so far.
  ghost predicate Steady(p: Prog, f: map<int, int>, live: set<Ref>) {
    MapIs(p.sys.m, f, live) && Adds(p.reader, Standing(p.sys), live, f)
  }

  lemma NotStarting(p: Prog, mv: Move, p': Prog)
    requires Moves(p, mv, p') && p.reader.Reading?
    ensures mv != ReaderStart
  {
    assert Token(Moving, 0);
  }

  lemma SteadyMove(p: Prog, mv: Move, p': Prog, f: map<int, int>, live: set<Ref>)
    requires Okay(p) && Moves(p, mv, p') && Steady(p, f, live) && !Writes(mv) && mv != ReaderCheck
    ensures Steady(p', f, live)
  {
    NotStarting(p, mv, p');
    match mv
    case ReaderAdd => AddSteady(p, p', f, live);
    case ReaderLock => LockSteady(p, p', f, live);
    case ReaderBegin => BeginSteady(p, p', f, live);
    case ReaderVisit => VisitSteady(p, p', f, live);
    case ReaderUnlock => UnlockSteady(p, p', f, live);
    case _ => OtherSteady(p, mv, p', f, live);
  }

  lemma {:induction false} PassSteady(progs: seq<Prog>, moves: seq<Move>, i: nat, j: nat, f: map<int, int>, live: set<Ref>)
    requires Ran(progs, moves) && i <= j < |progs| && Steady(progs[i], f, live)
    requires forall k | i <= k < j :: !Writes(moves[k]) && moves[k] != ReaderCheck
    ensures Steady(progs[j], f, live)
    decreases j
  {
    if i < j {
      PassSteady(progs, moves, i, j - 1, f, live);
      SteadyNext(progs, moves, j - 1, j, f, live);
    }
  }

  lemma SteadyNext(progs: seq<Prog>, moves: seq<Move>, k: nat, l: nat, f: map<int, int>, live: set<Ref>)
    requires Ran(progs, moves) && k < |moves| && l == k + 1 && Steady(progs[k], f, live) && !Writes(moves[k]) && moves[k] != ReaderCheck
    ensures Steady(progs[l], f, live)
  {
    MovesAt(progs, moves, k, l);
    SteadyMove(progs[k], moves[k], progs[l], f, live);
  }

  // The reader is about to start a pass.
  ghost predicate AtStart(p: Prog) {
    p.reader == Reading(0, 0, false) && READER !in p.sys.readers
  }

  lemma PassStarts(p: Prog)
    requires ProgOk(p) && AtStart(p)
    ensures Steady(p, Abs(p.sys.m), LiveSet(p.sys.m))
  {
  }

  lemma CheckMoves(p: Prog, p': Prog)
    requires Moves(p, ReaderCheck, p')
    ensures p.reader.Reading? && p.reader.i == 10 && p'.reader == if p.reader.sum == 0 then Left else Reading(0, 0, false)
  {
    assert Token(Moving, 0);
  }

  lemma NothingGot(p: Prog)
    requires Okay(p) && p.reader.Reading? && p.reader.i == 10
    ensures !p.reader.got
  {
    assert Token(Program, 0);
    assert ReaderOk(p.reader, Standing(p.sys), p.writer, p.ready);
  }

  lemma CheckSum(p: Prog, p': Prog, f: map<int, int>, live: set<Ref>)
    requires Okay(p) && Moves(p, ReaderCheck, p') && Steady(p, f, live)
    ensures p.reader == Reading(10, SumOf(f, 10), false)
    ensures p'.reader == if SumOf(f, 10) == 0 then Left else Reading(0, 0, false)
  {
    CheckMoves(p, p');
    NothingGot(p);
  }

  lemma PassSum(progs: seq<Prog>, moves: seq<Move>, i: nat, j: nat, l: nat, f: map<int, int>, live: set<Ref>)
    requires Ran(progs, moves) && i <= j < |moves| && l == j + 1 && Steady(progs[i], f, live) && moves[j] == ReaderCheck
    requires forall k | i <= k < j :: !Writes(moves[k]) && moves[k] != ReaderCheck
    ensures progs[j].reader == Reading(10, SumOf(f, 10), false)
    ensures progs[l].reader == if SumOf(f, 10) == 0 then Left else Reading(0, 0, false)
  {
    PassSteady(progs, moves, i, j, f, live);
    MovesAt(progs, moves, j, l);
    CheckSum(progs[j], progs[l], f, live);
  }

  // A pass of the reader during which the writer stores and removes nothing adds up exactly
  // the values of the map, and ends the loop exactly when they add up to zero.
  lemma SumExactly(progs: seq<Prog>, moves: seq<Move>, i: nat, j: nat)
    requires IsExecution(progs, moves) && i <= j < |moves| && AtStart(progs[i]) && moves[j] == ReaderCheck
    requires forall k | i <= k < j :: !Writes(moves[k]) && moves[k] != ReaderCheck
    ensures Valid(progs[i].sys.m) && progs[j].reader == Reading(10, SumOf(Abs(progs[i].sys.m), 10), false)
    ensures progs[j + 1].reader == if SumOf(Abs(progs[i].sys.m), 10) == 0 then Left else Reading(0, 0, false)
  {
    ExecutionOk(progs, moves, i);
    PassStarts(progs[i]);
    PassSum(progs, moves, i, j, j + 1, Abs(progs[i].sys.m), LiveSet(progs[i].sys.m));
  }

  // ---------- the reader leaves ----------

  lemma {:induction false} StaysEmptied(progs: seq<Prog>, moves: seq<Move>, i: nat, j: nat)
    requires IsExecution(progs, moves) && i <= j < |progs| && Emptied(progs[i].writer)
    ensures Emptied(progs[j].writer) && forall k | i <= k < j :: !Writes(moves[k])
    decreases j
  {
    if i < j {
      StaysEmptied(progs, moves, i, j - 1);
      assert MoveAt(progs, moves, j - 1);
      EmptiedStays(progs[j - 1].writer, moves[j - 1]);
    }
  }

  lemma EmptySum(f: map<int, int>, n: nat)
    requires f == map[]
    ensures SumOf(f, n) == 0
  {
  }

  lemma EmptiedMap(p: Prog)
    requires ProgOk(p) && Emptied(p.writer)
    ensures Abs(p.sys.m) == map[]
  {
    assert forall k | k in Abs(p.sys.m) :: MayHold(p.writer, k);
  }

  // A pass that starts after every removal ends the loop.
  lemma ReaderLeaves(progs: seq<Prog>, moves: seq<Move>, i: nat, j: nat)
    requires IsExecution(progs, moves) && i <= j < |moves| && Emptied(progs[i].writer) && AtStart(progs[i])
    requires moves[j] == ReaderCheck && forall k | i <= k < j :: moves[k] != ReaderCheck
    ensures progs[j + 1].reader == Left
  {
    StaysEmptied(progs, moves, i, j);
    ExecutionOk(progs, moves, i);
    EmptiedMap(progs[i]);
    EmptySum(Abs(progs[i].sys.m), 10);
    SumExactly(progs, moves, i, j);
  }

  // ---------- and it can always still leave ----------

  ghost function Last(progs: seq<Prog>): Prog
    requires progs != []
  {
    progs[|progs| - 1]
  }

  // The second execution goes on where the first stopped.
  ghost predicate Extends(progs: seq<Prog>, moves: seq<Move>, progs': seq<Prog>, moves': seq<Move>) {
    Ran(progs', moves') && progs <= progs' && moves <= moves'
  }

  lemma MovedNext(progs: seq<Prog>, moves: seq<Move>, mv: Move, p': Prog)
    requires |progs| == |moves| + 1 && Moved(progs, moves) && CanMove(Last(progs), mv) && p' == MoveTo(Last(progs), mv)
    ensures Moved(progs + [p'], moves + [mv])
  {
    var progs', moves' := progs + [p'], moves + [mv];
    forall i | 0 <= i < |moves'| ensures MoveAt(progs', moves', i) {
      if i < |moves| {
        assert MoveAt(progs, moves, i);
      }
    }
  }

  lemma RanNext(progs: seq<Prog>, moves: seq<Move>, mv: Move, p': Prog)
    requires Ran(progs, moves) && Moves(Last(progs), mv, p')
    ensures Ran(progs + [p'], moves + [mv]) && Okay(p')
  {
    RanOn(progs, moves, mv, p');
    RanOkay(progs + [p'], moves + [mv], |moves| + 1);
  }

  lemma RanOn(progs: seq<Prog>, moves: seq<Move>, mv: Move, p': Prog)
    requires Ran(progs, moves) && Moves(Last(progs), mv, p')
    ensures Ran(progs + [p'], moves + [mv])
  {
    assert Token(Running, 0) && Token(Moving, 0);
    MovedNext(progs, moves, mv, p');
  }

  lemma RanOkay(progs: seq<Prog>, moves: seq<Move>, i: nat)
    requires Ran(progs, moves) && i < |progs|
    ensures Okay(progs[i])
  {
    assert Token(Running, 0);
    ExecutionOk(progs, moves, i);
  }

  // Operations that the writer has still to make.
  function ToGo(w: Writer): int {
    match w
    case Inserting(i) => 81 - i
    case Updating(step, i) => 70 - 10 * step - i
    case Removing(i) => 10 - i
    case Finished => 0
  }

  lemma {:induction false} AboveAll(keys: set<Ref>) returns (n: Ref)
    ensures forall x | x in keys :: x < n
    decreases |keys|
  {
    if keys == {} {
      n := 0;
    } else {
      var x :| x in keys;
      var m := AboveAll(keys - {x});
      n := if x < m then m else x + 1;
      forall y | y in keys ensures y < n {
        assert y == x || y in keys - {x};
      }
    }
  }

  // What a good state is known for.
  lemma Known(p: Prog)
    requires Okay(p)
    ensures Valid(p.sys.m) && WriterOk(p.writer, p.ready) && ReaderOk(p.reader, Standing(p.sys), p.writer, p.ready)
  {
    assert Token(Program, 0);
  }

  lemma MovesTo(p: Prog, mv: Move) returns (p': Prog)
    requires CanMove(p, mv)
    ensures Moves(p, mv, p') && p' == MoveTo(p, mv)
  {
    p' := MoveTo(p, mv);
  }

  lemma RetireMoves(p: Prog) returns (p': Prog)
    requires Valid(p.sys.m) && WRITER in p.sys.pending
    ensures Moves(p, WriterRetire, p') && p'.writer == p.writer && WRITER !in p'.sys.pending
  {
    p' := MovesTo(p, WriterRetire);
  }

  lemma OperationMoves(p: Prog, mv: Move) returns (p': Prog)
    requires Valid(p.sys.m) && WRITER !in p.sys.pending && WriterCan(p.writer, mv)
    requires mv.WriterNoMemory? || mv.WriterRemove? || mv.WriterPublish?
    ensures Moves(p, mv, p') && p'.writer == WriterAfter(p.writer, mv)
  {
    p' := MovesTo(p, mv);
  }

  lemma InsertMoves(p: Prog) returns (mv: Move, p': Prog)
    requires Valid(p.sys.m) && WRITER !in p.sys.pending && p.writer == Inserting(9)
    ensures Moves(p, mv, p') && p'.writer == Inserting(10)
  {
    var n := AboveAll(p.sys.m.heap.Keys + {NIL});
    assert NIL in p.sys.m.heap.Keys + {NIL};
    assert n !in p.sys.m.heap.Keys + {NIL};
    mv := WriterUpdate(n);
    p' := MovesTo(p, mv);
  }

  function WriterLeft(w: Writer, pending: bool): int {
    if Emptied(w) then 0 else 2 * ToGo(w) + if pending then 1 else 0
  }

  lemma ToGoLess(w: Writer, ready: bool, mv: Move)
    requires WriterOk(w, ready) && WriterCan(w, mv) && (mv.WriterNoMemory? || mv.WriterRemove? || mv.WriterPublish?)
    ensures 0 <= ToGo(WriterAfter(w, mv)) < ToGo(w)
  {
  }

  // A move of the writer that brings it nearer its end.
  lemma WriterMoves(p: Prog) returns (mv: Move, p': Prog)
    requires Okay(p) && !Emptied(p.writer)
    ensures Moves(p, mv, p')
    ensures 0 <= WriterLeft(p'.writer, WRITER in p'.sys.pending) < WriterLeft(p.writer, WRITER in p.sys.pending)
  {
    Known(p);
    if WRITER in p.sys.pending {
      mv := WriterRetire;
      p' := RetireMoves(p);
    } else if p.writer == Inserting(9) {
      mv, p' := InsertMoves(p);
    } else {
      mv := if p.writer == Inserting(10) then WriterPublish else if p.writer.Removing? then WriterRemove else WriterNoMemory;
      p' := OperationMoves(p, mv);
      ToGoLess(p.writer, p.ready, mv);
    }
  }

  lemma {:induction false} WriterEnds(progs: seq<Prog>, moves: seq<Move>, p: Prog) returns (progs': seq<Prog>, moves': seq<Move>)
    requires Ran(progs, moves) && p == Last(progs) && Okay(p)
    ensures Extends(progs, moves, progs', moves') && Okay(Last(progs')) && Emptied(Last(progs').writer)
    decreases WriterLeft(p.writer, WRITER in p.sys.pending)
  {
    if Emptied(p.writer) {
      progs', moves' := progs, moves;
    } else {
      var mv, p' := WriterMoves(p);
      RanNext(progs, moves, mv, p');
      progs', moves' := WriterEnds(progs + [p'], moves + [mv], p');
    }
  }

  // How far the reader is in its pass: keys still to be read, and where it is with this one.
  function KeysLeft(rd: Reader): int {
    match rd
    case Waiting => 11
    case Reading(i, _, _) => 10 - i
    case Left => 0
  }

  function Turn(rd: Reader, at: Where): nat {
    match at
    case Outside => 4
    case Inside(look) =>
      if look.Idle? then 3 else if look.Walking? then 2 else if rd.Reading? && !rd.got then 1 else 0
  }

  // The reader is nearer the end of its pass.
  ghost predicate Nearer(p: Prog, p': Prog) {
    var k, k', t, t' := KeysLeft(p.reader), KeysLeft(p'.reader), Turn(p.reader, Standing(p.sys)), Turn(p'.reader, Standing(p'.sys));
    0 <= k' && (k' < k || (k' == k && (t' < t || (t' == t && Reach(p'.sys, READER) < Reach(p.sys, READER)))))
  }

  lemma StartMoves(p: Prog) returns (p': Prog)
    requires p.reader.Waiting? && p.ready
    ensures Moves(p, ReaderStart, p') && Nearer(p, p') && p'.writer == p.writer && p'.reader != Left
  {
    p' := MovesTo(p, ReaderStart);
  }

  lemma LockMoves(p: Prog) returns (p': Prog)
    requires Valid(p.sys.m) && Standing(p.sys).Outside? && p.reader.Reading? && p.reader.i < 10
    ensures Moves(p, ReaderLock, p') && Nearer(p, p') && p'.writer == p.writer && p'.reader != Left
  {
    p' := MovesTo(p, ReaderLock);
  }

  lemma IdleMoves(p: Prog) returns (p': Prog)
    requires Valid(p.sys.m) && Standing(p.sys) == Inside(Idle) && p.reader.Reading? && p.reader.i < 10
    ensures Moves(p, ReaderBegin, p') && Nearer(p, p') && p'.writer == p.writer && p'.reader != Left
  {
    p' := MovesTo(p, ReaderBegin);
  }

  lemma WalkingReach(p: Prog, s': Sys)
    requires Okay(p) && Standing(p.sys).Inside? && Standing(p.sys).look.Walking? && Valid(p.sys.m) && s' == Apply(p.sys, Visit(READER))
    ensures Reach(s', READER) < Reach(p.sys, READER) && Standing(s').Inside?
    ensures Standing(s').look.Walking? || Standing(s').look.Returned?
  {
    assert Token(Program, 0);
    VisitProgresses(p.sys, READER);
    VisitReach(p.sys, READER, s');
  }

  lemma WalkingMoves(p: Prog) returns (p': Prog)
    requires Okay(p) && Valid(p.sys.m) && Standing(p.sys).Inside? && Standing(p.sys).look.Walking? && p.reader.Reading? && p.reader.i < 10
    ensures Moves(p, ReaderVisit, p') && Nearer(p, p') && p'.writer == p.writer && p'.reader != Left
  {
    p' := MovesTo(p, ReaderVisit);
    WalkingReach(p, p'.sys);
  }

  lemma AddGoes(p: Prog) returns (p': Prog)
    requires Standing(p.sys).Inside? && Standing(p.sys).look.Returned? && p.reader.Reading? && p.reader.i < 10 && !p.reader.got
    ensures Moves(p, ReaderAdd, p') && Nearer(p, p') && p'.writer == p.writer && p'.reader != Left
  {
    p' := MovesTo(p, ReaderAdd);
  }

  lemma UnlockMoves(p: Prog) returns (p': Prog)
    requires Valid(p.sys.m) && Standing(p.sys).Inside? && Standing(p.sys).look.Returned? && p.reader.Reading? && p.reader.i < 10 && p.reader.got
    ensures Moves(p, ReaderUnlock, p') && Nearer(p, p') && p'.writer == p.writer && p'.reader != Left
  {
    p' := MovesTo(p, ReaderUnlock);
  }

  lemma NoFault(p: Prog)
    requires Okay(p) && Standing(p.sys).Inside?
    ensures !Standing(p.sys).look.Faulted?
  {
    assert Token(Program, 0);
    assert SectionOk(p.sys, READER);
  }

  // A move of the reader that brings it nearer the end of its pass.
  lemma ReaderGoes(p: Prog) returns (mv: Move, p': Prog)
    requires Okay(p) && Emptied(p.writer) && p.reader != Left && !(p.reader.Reading? && p.reader.i == 10)
    ensures Moves(p, mv, p') && Nearer(p, p') && p'.writer == p.writer && mv != ReaderCheck && p'.reader != Left
  {
    Known(p);
    if p.reader.Waiting? {
      mv := ReaderStart;
      p' := StartMoves(p);
    } else if Standing(p.sys).Outside? {
      mv := ReaderLock;
      p' := LockMoves(p);
    } else {
      mv, p' := InsideGoes(p);
    }
  }

  lemma InsideGoes(p: Prog) returns (mv: Move, p': Prog)
    requires Okay(p) && Valid(p.sys.m) && ReaderOk(p.reader, Standing(p.sys), p.writer, p.ready)
    requires Standing(p.sys).Inside? && p.reader.Reading? && p.reader.i < 10
    ensures Moves(p, mv, p') && Nearer(p, p') && p'.writer == p.writer && mv != ReaderCheck && p'.reader != Left
  {
    NoFault(p);
    var look := Standing(p.sys).look;
    if look.Idle? {
      mv := ReaderBegin;
      p' := IdleMoves(p);
    } else if look.Walking? {
      mv := ReaderVisit;
      p' := WalkingMoves(p);
    } else if p.reader.got {
      mv := ReaderUnlock;
      p' := UnlockMoves(p);
    } else {
      mv := ReaderAdd;
      p' := AddGoes(p);
    }
  }

  // The reader can get to the end of its pass.
  lemma {:induction false} PassEnds(progs: seq<Prog>, moves: seq<Move>) returns (progs': seq<Prog>, moves': seq<Move>)
    requires Ran(progs, moves) && Okay(Last(progs)) && Emptied(Last(progs).writer) && Last(progs).reader != Left
    requires 0 <= KeysLeft(Last(progs).reader)
    ensures Extends(progs, moves, progs', moves') && Okay(Last(progs')) && Emptied(Last(progs').writer)
    ensures Last(progs').reader.Reading? && Last(progs').reader.i == 10
    ensures forall k | |moves| <= k < |moves'| :: moves'[k] != ReaderCheck
    decreases KeysLeft(Last(progs).reader), Turn(Last(progs).reader, Standing(Last(progs).sys)), Reach(Last(progs).sys, READER)
  {
    var p := Last(progs);
    if p.reader.Reading? && p.reader.i == 10 {
      progs', moves' := progs, moves;
    } else {
      var mv, p' := ReaderGoes(p);
      RanNext(progs, moves, mv, p');
      progs', moves' := PassEnds(progs + [p'], moves + [mv]);
      assert moves'[|moves|] == (moves + [mv])[|moves|];
    }
  }

  // At the end of a pass the reader checks its sum.
  lemma Checks(p: Prog) returns (p': Prog)
    requires Okay(p) && p.reader.Reading? && p.reader.i == 10
    ensures Moves(p, ReaderCheck, p') && p'.writer == p.writer && (p'.reader == Left || AtStart(p'))
  {
    assert Token(Program, 0);
    p' := MoveTo(p, ReaderCheck);
  }

  lemma PassChecked(progs: seq<Prog>, moves: seq<Move>) returns (progs': seq<Prog>, moves': seq<Move>)
    requires Ran(progs, moves) && Okay(Last(progs)) && Emptied(Last(progs).writer) && Last(progs).reader != Left
    requires 0 <= KeysLeft(Last(progs).reader)
    ensures Extends(progs, moves, progs', moves') && Okay(Last(progs')) && Emptied(Last(progs').writer)
    ensures Last(progs').reader == Left || AtStart(Last(progs'))
    ensures |moves| < |moves'| && moves'[|moves'| - 1] == ReaderCheck
    ensures forall k | |moves| <= k < |moves'| - 1 :: moves'[k] != ReaderCheck
  {
    var a, b := PassEnds(progs, moves);
    var p' := Checks(Last(a));
    RanNext(a, b, ReaderCheck, p');
    progs', moves' := a + [p'], b + [ReaderCheck];
    OneMore(progs, a, p');
    OneMore(moves, b, ReaderCheck);
  }

  lemma OneMore<T>(a: seq<T>, b: seq<T>, x: T)
    requires a <= b
    ensures a <= b + [x] && (b + [x])[|b|] == x && forall k | 0 <= k < |b| :: (b + [x])[k] == b[k]
  {
  }

  lemma SecondPass(progs: seq<Prog>, moves: seq<Move>) returns (progs': seq<Prog>, moves': seq<Move>)
    requires Ran(progs, moves) && Okay(Last(progs)) && Emptied(Last(progs).writer) && AtStart(Last(progs))
    ensures Extends(progs, moves, progs', moves') && Last(progs').reader == Left
  {
    progs', moves' := PassChecked(progs, moves);
    LeftAt(progs', moves', |moves|, |moves'| - 1);
  }

  lemma LeftAt(progs: seq<Prog>, moves: seq<Move>, i: nat, j: nat)
    requires Ran(progs, moves) && i <= j < |moves| && Emptied(progs[i].writer) && AtStart(progs[i])
    requires moves[j] == ReaderCheck && forall k | i <= k < j :: moves[k] != ReaderCheck
    ensures progs[j + 1].reader == Left
  {
    assert Token(Running, 0);
    ReaderLeaves(progs, moves, i, j);
  }

  lemma NotBelow(p: Prog)
    requires Okay(p)
    ensures 0 <= KeysLeft(p.reader)
  {
    assert Token(Program, 0);
  }

  // Every execution can be continued until the reader has left its loop.
  lemma ReaderCanLeave(progs: seq<Prog>, moves: seq<Move>) returns (progs': seq<Prog>, moves': seq<Move>)
    requires IsExecution(progs, moves)
    ensures IsExecution(progs', moves') && progs <= progs' && moves <= moves' && Last(progs').reader == Left
  {
    Begun(progs, moves);
    progs', moves' := LeavesAtLast(progs, moves);
    assert Token(Running, 0);
  }

  lemma Begun(progs: seq<Prog>, moves: seq<Move>)
    requires IsExecution(progs, moves)
    ensures Ran(progs, moves) && Okay(Last(progs))
  {
    ExecutionOk(progs, moves, |moves|);
  }

  lemma LeavesAtLast(progs: seq<Prog>, moves: seq<Move>) returns (progs': seq<Prog>, moves': seq<Move>)
    requires Ran(progs, moves) && Okay(Last(progs))
    ensures Extends(progs, moves, progs', moves') && Last(progs').reader == Left
  {
    progs', moves' := WriterEnds(progs, moves, Last(progs));
    if Last(progs').reader != Left {
      NotBelow(Last(progs'));
      progs', moves' := PassChecked(progs', moves');
      if Last(progs').reader != Left {
        progs', moves' := SecondPass(progs', moves');
      }
    }
  }
}
