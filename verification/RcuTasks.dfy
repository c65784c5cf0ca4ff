/**
 The two kernel threads of ksync-rcu-cmap/rcucmap.c (task_writer, task_reader) run
 against the shared map, in every interleaving.
 */
module RcuTasks {
  import opened RcuMap
  import opened RcuSystem
  import opened RcuRuns

  const OP_COUNT: nat := 10
  const LIMIT: nat := OP_COUNT / 2
  const READER: Tid := 0
  const WRITER: Tid := 1

  // The next operation of task_writer.
  datatype Writer = Inserting(i: nat) | Updating(step: nat, i: nat) | Removing(i: nat) | Finished

  // task_reader: waiting for task_init_val, looking up key i with the sum so far (got:
  // the value of key i is already added), or out of its loop.
  datatype Reader = Waiting | Reading(i: nat, sum: int, got: bool) | Left

  datatype Prog = Prog(sys: Sys, writer: Writer, ready: bool, reader: Reader)

  datatype Move =
    | WriterUpdate(n: Ref)
    | WriterNoMemory
    | WriterRemove
    | WriterPublish
    | WriterRetire
    | WriterFinish
    | GraceEnds(x: Ref)
    | ReaderStart
    | ReaderLock
    | ReaderBegin
    | ReaderVisit
    | ReaderAdd
    | ReaderUnlock
    | ReaderCheck

  function Key(w: Writer): nat
    requires !w.Finished?
  {
    w.i
  }

  function Value(w: Writer): nat
    requires w.Inserting? || w.Updating?
  {
    if w.Inserting? then w.i else w.i * w.step
  }

  function NextOp(w: Writer): Writer
    requires !w.Finished?
  {
    match w
    case Inserting(i) => Inserting(i + 1)
    case Updating(step, i) =>
      if i + 1 < OP_COUNT then Updating(step, i + 1)
      else if step + 1 < LIMIT then Updating(step + 1, 0)
      else Removing(0)
    case Removing(i) => Removing(i + 1)
  }

  ghost predicate Start(p: Prog) {
    Init(p.sys) && p.writer == Inserting(0) && !p.ready && p.reader == Waiting
  }

  // The step of the shared map that a move makes, if any.
  ghost function MapStep(p: Prog, mv: Move): (steps: seq<Step>)
    requires CanMove(p, mv)
    ensures |steps| <= 1
  {
    match mv
    case WriterUpdate(n) => [UpdateStep(WRITER, Key(p.writer), Value(p.writer), n)]
    case WriterNoMemory => [UpdateFails(WRITER, Key(p.writer))]
    case WriterRemove => [RemoveStep(WRITER, Key(p.writer))]
    case WriterRetire => [CallRcu(WRITER)]
    case GraceEnds(x) => [Reclaim(x)]
    case ReaderLock => [ReadLock(READER)]
    case ReaderBegin => [BeginLookup(READER, p.reader.i)]
    case ReaderVisit => [Visit(READER)]
    case ReaderUnlock => [ReadUnlock(READER)]
    case _ => []
  }

  // When the writer can make the move mv. Allocation may fail in any update except
  // the first insert of the last key.
  predicate WriterCan(w: Writer, mv: Move) {
    match mv
    case WriterUpdate(_) => (w.Inserting? && w.i < OP_COUNT) || w.Updating?
    case WriterNoMemory => (w.Inserting? && w.i < OP_COUNT - 1) || w.Updating?
    case WriterRemove => w.Removing? && w.i < OP_COUNT
    case WriterPublish => w == Inserting(OP_COUNT)
    case WriterFinish => w == Removing(OP_COUNT)
    case _ => true
  }

  ghost predicate CanMove(p: Prog, mv: Move) {
    var s := p.sys;
    && WriterCan(p.writer, mv)
    && (mv.ReaderLock? || mv.ReaderBegin? || mv.ReaderVisit? || mv.ReaderAdd? || mv.ReaderUnlock? || mv.ReaderCheck? ==> p.reader.Reading?)
    && match mv
       case WriterUpdate(n) => Enabled(s, UpdateStep(WRITER, Key(p.writer), Value(p.writer), n))
       case WriterNoMemory => Enabled(s, UpdateFails(WRITER, Key(p.writer)))
       case WriterRemove => Enabled(s, RemoveStep(WRITER, Key(p.writer)))
       case WriterRetire => Enabled(s, CallRcu(WRITER))
       case WriterPublish => true
       case WriterFinish => true
       case GraceEnds(x) => Enabled(s, Reclaim(x))
       case ReaderStart => p.reader.Waiting? && p.ready
       case ReaderLock => p.reader.i < OP_COUNT && Enabled(s, ReadLock(READER))
       case ReaderBegin => READER in s.readers && s.readers[READER].lookup.Idle? && Enabled(s, BeginLookup(READER, p.reader.i))
       case ReaderVisit => Enabled(s, Visit(READER))
       case ReaderAdd => !p.reader.got && READER in s.readers && s.readers[READER].lookup.Returned?
       case ReaderUnlock => p.reader.got && Enabled(s, ReadUnlock(READER))
       case ReaderCheck => p.reader.i == OP_COUNT
  }

  // The value that the reader adds for the node it got; the node may be NULL.
  ghost function Got(s: Sys): int
    requires READER in s.readers && s.readers[READER].lookup.Returned?
  {
    var node := s.readers[READER].lookup.node;
    if node in s.m.heap then s.m.heap[node].value else 0
  }

  ghost function SysAfter(p: Prog, mv: Move): Sys
    requires CanMove(p, mv)
  {
    var steps := MapStep(p, mv);
    if steps == [] then p.sys else Apply(p.sys, steps[0])
  }

  function WriterAfter(w: Writer, mv: Move): Writer
    requires mv.WriterUpdate? || mv.WriterNoMemory? || mv.WriterRemove? ==> !w.Finished?
  {
    match mv
    case WriterUpdate(_) => NextOp(w)
    case WriterNoMemory => NextOp(w)
    case WriterRemove => NextOp(w)
    case WriterPublish => Updating(1, 0)
    case WriterFinish => Finished
    case _ => w
  }

  ghost function ReaderAfter(p: Prog, mv: Move): Reader
    requires CanMove(p, mv)
  {
    match mv
    case ReaderStart => Reading(0, 0, false)
    case ReaderAdd => Reading(p.reader.i, p.reader.sum + Got(p.sys), true)
    case ReaderUnlock => Reading(p.reader.i + 1, p.reader.sum, false)
    case ReaderCheck => if p.reader.sum == 0 then Left else Reading(0, 0, false)
    case _ => p.reader
  }

  ghost function MoveTo(p: Prog, mv: Move): Prog
    requires CanMove(p, mv)
  {
    Prog(SysAfter(p, mv), WriterAfter(p.writer, mv), p.ready || mv.WriterPublish?, ReaderAfter(p, mv))
  }

  // Every removal has been made.
  predicate Emptied(w: Writer) {
    w == Removing(OP_COUNT) || w == Finished
  }

  // The keys that may be bound while the writer is at w.
  predicate MayHold(w: Writer, k: int) {
    match w
    case Inserting(i) => 0 <= k < i
    case Updating(_, _) => 0 <= k < OP_COUNT
    case Removing(i) => i <= k < OP_COUNT
    case Finished => false
  }

  predicate WriterOk(w: Writer, ready: bool) {
    match w
    case Inserting(i) => i <= OP_COUNT && !ready
    case Updating(step, i) => ready && 1 <= step < LIMIT && i < OP_COUNT
    case Removing(i) => ready && i <= OP_COUNT
    case Finished => ready
  }

  // What the represented map f may be while the writer is at w.
  ghost predicate KeysOk(w: Writer, ready: bool, f: map<int, int>) {
    && WriterOk(w, ready)
    && (forall k | k in f :: MayHold(w, k))
    && (w == Inserting(OP_COUNT) || (ready && !Emptied(w)) ==> OP_COUNT - 1 in f)
  }

  // No value is below its key: the writer stores i * step with step >= 1.
  ghost predicate EntriesOk(heap: map<Ref, Node>) {
    forall x | x in heap :: 0 <= heap[x].key <= heap[x].value
  }

  ghost predicate MapOk(p: Prog) {
    && Inv(p.sys)
    && KeysOk(p.writer, p.ready, Abs(p.sys.m))
    && EntriesOk(p.sys.m.heap)
  }

  // Where the reader stands: outside its critical section, or inside with a lookup.
  datatype Where = Outside | Inside(look: Lookup)

  ghost function Standing(s: Sys): Where {
    if READER in s.readers then Inside(s.readers[READER].lookup) else Outside
  }

  // A lookup for key i: it has seen the last key absent only after everything was removed.
  ghost predicate LookupSound(look: Lookup, i: nat, w: Writer) {
    (look.Walking? || look.Returned?) ==> look.key == i && (look.missed && i == OP_COUNT - 1 ==> Emptied(w))
  }

  ghost predicate ReaderOk(rd: Reader, at: Where, w: Writer, ready: bool) {
    match rd
    case Waiting => at.Outside?
    case Left => at.Outside? && Emptied(w)
    case Reading(i, sum, got) =>
      && ready && i <= OP_COUNT && 0 <= sum
      && (i == OP_COUNT ==> at.Outside? && (sum == 0 ==> Emptied(w)))
      && (got ==> at.Inside? && at.look.Returned?)
      && (got && i == OP_COUNT - 1 && sum == 0 ==> Emptied(w))
      && (at.Inside? ==> LookupSound(at.look, i, w))
  }

  // What one step of the map does to the represented map and to the entries.
  lemma MapEffect(s: Sys, step: Step)
    requires Inv(s) && Enabled(s, step) && EntriesOk(s.m.heap)
    requires step.UpdateStep? ==> 0 <= step.key <= step.value
    ensures Inv(Apply(s, step)) && EntriesOk(Apply(s, step).m.heap)
    ensures Abs(Apply(s, step).m) ==
            match step
            case UpdateStep(_, key, value, _) => Abs(s.m)[key := value]
            case RemoveStep(_, key) => Abs(s.m) - {key}
            case _ => Abs(s.m)
  {
    var t := Apply(s, step);
    StepRefines(s, step);
    forall x | x in t.m.heap ensures 0 <= t.m.heap[x].key <= t.m.heap[x].value {
      if x in s.m.heap {
        EntriesKept(s, step, x);
      } else {
        HeapStep(s, step, x);
        UpdateEffect(s.m, step.key, step.value, step.n, Update(s.m, step.key, step.value, step.n));
      }
    }
  }

  function MapAfter(w: Writer, mv: Move, f: map<int, int>): map<int, int>
    requires WriterCan(w, mv)
  {
    match mv
    case WriterUpdate(_) => f[Key(w) := Value(w)]
    case WriterRemove => f - {Key(w)}
    case _ => f
  }

  lemma KeysAfter(w: Writer, ready: bool, f: map<int, int>, mv: Move)
    requires KeysOk(w, ready, f) && WriterCan(w, mv)
    ensures KeysOk(WriterAfter(w, mv), ready || mv.WriterPublish?, MapAfter(w, mv, f))
  {
  }

  lemma ValueBound(w: Writer, ready: bool)
    requires WriterOk(w, ready) && (w.Inserting? || w.Updating?)
    ensures Key(w) <= Value(w)
  {
    if w.Updating? {
      assert w.i * 1 <= w.i * w.step;
    }
  }

  lemma MapMove(p: Prog, mv: Move)
    requires MapOk(p) && CanMove(p, mv)
    ensures Inv(SysAfter(p, mv)) && EntriesOk(SysAfter(p, mv).m.heap)
    ensures WriterCan(p.writer, mv) && Abs(SysAfter(p, mv).m) == MapAfter(p.writer, mv, Abs(p.sys.m))
  {
    var steps := MapStep(p, mv);
    if mv.WriterUpdate? {
      ValueBound(p.writer, p.ready);
    }
    if steps != [] {
      MapEffect(p.sys, steps[0]);
    }
  }

  lemma MoveMapOk(p: Prog, mv: Move)
    requires MapOk(p) && CanMove(p, mv)
    ensures MapOk(MoveTo(p, mv))
  {
    MapMove(p, mv);
    KeysAfter(p.writer, p.ready, Abs(p.sys.m), mv);
  }

  lemma AbsentIsUnbound(m: Map, k: int)
    requires Valid(m)
    ensures Absent(Of(m), k) <==> k !in Abs(m)
  {
    LiveDistinct(m);
    BindingsFacts(m.heap, LiveSet(m));
  }

  lemma SoundFollows(look: Lookup, look': Lookup, i: nat, w: Writer, w': Writer, ready: bool, m': Map)
    requires LookupSound(look, i, w) && (Emptied(w) ==> Emptied(w')) && Valid(m') && ready
    requires KeysOk(w', ready, Abs(m')) && Follows(look, look', i, LiveSet(m'), Absent(Of(m'), i))
    ensures LookupSound(look', i, w')
  {
    AbsentIsUnbound(m', i);
  }

  // The reader has not moved, except that its lookup may have taken in the map m'.
  ghost predicate Recorded(at: Where, at': Where, m': Map)
    requires Valid(m')
  {
    || at == at'
    || (at.Inside? && at'.Inside? && (at.look.Walking? || at.look.Returned?) &&
        (at.look.Returned? <==> at'.look.Returned?) &&
        Follows(at.look, at'.look, at.look.key, LiveSet(m'), Absent(Of(m'), at.look.key)))
  }

  // A step of another thread moves the reader at most by what its lookup records.
  lemma OthersKeep(s: Sys, step: Step)
    requires Inv(s) && Enabled(s, step) && Inv(Apply(s, step))
    requires step.UpdateStep? || step.UpdateFails? || step.RemoveStep? || step.CallRcu? || step.Reclaim?
    ensures Recorded(Standing(s), Standing(Apply(s, step)), Apply(s, step).m)
  {
    if READER in s.readers {
      StaysReading(s, step, READER);
      var look := s.readers[READER].lookup;
      if look.Walking? || look.Returned? {
        LookupStep(s, step, READER, look.key);
      }
    }
  }

  lemma OthersReaderOk(rd: Reader, at: Where, at': Where, w: Writer, w': Writer, ready: bool, m': Map)
    requires ReaderOk(rd, at, w, ready) && Valid(m') && KeysOk(w', ready, Abs(m')) && (Emptied(w) ==> Emptied(w'))
    requires Recorded(at, at', m')
    ensures ReaderOk(rd, at', w', ready)
  {
    if at != at' && rd.Reading? {
      SoundFollows(at.look, at'.look, rd.i, w, w', ready, m');
    }
  }

  ghost predicate ProgOk(p: Prog) {
    MapOk(p) && ReaderOk(p.reader, Standing(p.sys), p.writer, p.ready)
  }

  predicate OfOthers(mv: Move) {
    mv.WriterUpdate? || mv.WriterNoMemory? || mv.WriterRemove? || mv.WriterRetire? || mv.GraceEnds?
  }

  lemma EmptiedStays(w: Writer, mv: Move)
    requires WriterCan(w, mv) && Emptied(w)
    ensures Emptied(WriterAfter(w, mv))
  {
  }

  lemma OthersStep(p: Prog, mv: Move) returns (step: Step)
    requires CanMove(p, mv) && OfOthers(mv)
    ensures Enabled(p.sys, step) && SysAfter(p, mv) == Apply(p.sys, step)
    ensures step.UpdateStep? || step.UpdateFails? || step.RemoveStep? || step.CallRcu? || step.Reclaim?
  {
    step := MapStep(p, mv)[0];
  }

  lemma OthersMove(p: Prog, s': Sys, step: Step, w': Writer)
    requires Inv(p.sys) && Enabled(p.sys, step) && s' == Apply(p.sys, step) && Inv(s')
    requires step.UpdateStep? || step.UpdateFails? || step.RemoveStep? || step.CallRcu? || step.Reclaim?
    requires ReaderOk(p.reader, Standing(p.sys), p.writer, p.ready)
    requires KeysOk(w', p.ready, Abs(s'.m)) && (Emptied(p.writer) ==> Emptied(w'))
    ensures ReaderOk(p.reader, Standing(s'), w', p.ready)
  {
    OthersKeep(p.sys, step);
    OthersReaderOk(p.reader, Standing(p.sys), Standing(s'), p.writer, w', p.ready, s'.m);
  }

  lemma BeginMove(rd: Reader, s: Sys, w: Writer, ready: bool)
    requires rd.Reading? && Enabled(s, BeginLookup(READER, rd.i)) && ReaderOk(rd, Standing(s), w, ready) && !rd.got
    requires Absent(Of(s.m), rd.i) && rd.i == OP_COUNT - 1 ==> Emptied(w)
    ensures ReaderOk(rd, Standing(Apply(s, BeginLookup(READER, rd.i))), w, ready)
  {
  }

  lemma VisitMove(rd: Reader, s: Sys, w: Writer, ready: bool)
    requires Enabled(s, Visit(READER)) && ReaderOk(rd, Standing(s), w, ready)
    requires !Advance(s.m.heap, s.readers[READER].lookup).Faulted?
    ensures ReaderOk(rd, Standing(Apply(s, Visit(READER))), w, ready)
  {
  }

  lemma AddMove(rd: Reader, look: Lookup, got: int, w: Writer, ready: bool)
    requires rd.Reading? && look.Returned? && ReaderOk(rd, Inside(look), w, ready)
    requires 0 <= got && (look.node == NIL ==> look.missed) && (look.node != NIL ==> look.key <= got)
    ensures ReaderOk(Reading(rd.i, rd.sum + got, true), Inside(look), w, ready)
  {
  }

  lemma LookupFacts(s: Sys)
    requires Inv(s) && READER in s.readers
    ensures var look := s.readers[READER].lookup;
            && (look.Walking? ==> !Advance(s.m.heap, look).Faulted?)
            && (look.Returned? ==> if look.node == NIL then look.missed
                                   else look.node in s.m.heap && s.m.heap[look.node].key == look.key)
  {
    assert SectionOk(s, READER);
  }

  // What a reader's own move may rely on.
  ghost predicate ReaderFacts(s: Sys, w: Writer, ready: bool)
    requires Valid(s.m)
  {
    && (ready && Absent(Of(s.m), OP_COUNT - 1) ==> Emptied(w))
    && (READER in s.readers ==>
          var look := s.readers[READER].lookup;
          && (look.Walking? ==> !Advance(s.m.heap, look).Faulted?)
          && (look.Returned? ==>
                if look.node == NIL then look.missed && NIL !in s.m.heap
                else look.node in s.m.heap && 0 <= look.key <= s.m.heap[look.node].value))
  }

  lemma FactsHold(p: Prog)
    requires MapOk(p)
    ensures ReaderFacts(p.sys, p.writer, p.ready)
  {
    AbsentIsUnbound(p.sys.m, OP_COUNT - 1);
    if READER in p.sys.readers {
      LookupFacts(p.sys);
    }
  }

  lemma ReaderMove(p: Prog, mv: Move)
    requires Valid(p.sys.m) && ReaderFacts(p.sys, p.writer, p.ready) && WriterOk(p.writer, p.ready)
    requires ReaderOk(p.reader, Standing(p.sys), p.writer, p.ready) && CanMove(p, mv) && !OfOthers(mv)
    ensures ReaderOk(ReaderAfter(p, mv), Standing(SysAfter(p, mv)), WriterAfter(p.writer, mv), p.ready || mv.WriterPublish?)
  {
    match mv
    case ReaderBegin => BeginMove(p.reader, p.sys, p.writer, p.ready);
    case ReaderVisit => VisitMove(p.reader, p.sys, p.writer, p.ready);
    case ReaderAdd => AddMove(p.reader, p.sys.readers[READER].lookup, Got(p.sys), p.writer, p.ready);
    case _ =>
  }

  // Every move of either thread, and the end of every grace period, keeps the invariant.
  lemma MoveOk(p: Prog, mv: Move)
    requires ProgOk(p) && CanMove(p, mv)
    ensures ProgOk(MoveTo(p, mv))
  {
    MoveMapOk(p, mv);
    if OfOthers(mv) {
      var step := OthersStep(p, mv);
      if Emptied(p.writer) {
        EmptiedStays(p.writer, mv);
      }
      OthersMove(p, SysAfter(p, mv), step, WriterAfter(p.writer, mv));
    } else {
      FactsHold(p);
      ReaderMove(p, mv);
    }
  }

  lemma StartOk(p: Prog)
    requires Start(p)
    ensures ProgOk(p)
  {
    var m := p.sys.m;
    assert LiveSet(m) == {};
    BindingsUnique(m.heap, LiveSet(m), map[]);
  }

  ghost predicate IsExecution(progs: seq<Prog>, moves: seq<Move>) {
    |progs| == |moves| + 1 && Start(progs[0]) && Moved(progs, moves)
  }

  ghost predicate Moved(progs: seq<Prog>, moves: seq<Move>)
    requires |progs| == |moves| + 1
  {
    forall i | 0 <= i < |moves| :: MoveAt(progs, moves, i)
  }

  ghost predicate MoveAt(progs: seq<Prog>, moves: seq<Move>, i: nat)
    requires |progs| == |moves| + 1 && i < |moves|
  {
    CanMove(progs[i], moves[i]) && progs[i + 1] == MoveTo(progs[i], moves[i])
  }

  lemma MoveAtOk(progs: seq<Prog>, moves: seq<Move>, i: nat, j: nat)
    requires IsExecution(progs, moves) && j == i + 1 && i < |moves| && ProgOk(progs[i])
    ensures ProgOk(progs[j])
  {
    assert MoveAt(progs, moves, i);
    MoveOk(progs[i], moves[i]);
  }

  lemma StartAtOk(progs: seq<Prog>, moves: seq<Move>, i: nat)
    requires IsExecution(progs, moves) && i == 0
    ensures ProgOk(progs[i])
  {
    StartOk(progs[i]);
  }

  // The invariant holds at every moment of every execution.
  lemma ExecutionOk(progs: seq<Prog>, moves: seq<Move>, i: nat)
    requires IsExecution(progs, moves) && i < |progs|
    ensures ProgOk(progs[i])
  {
    StartAtOk(progs, moves, 0);
    for k := 0 to i
      invariant ProgOk(progs[k])
    {
      MoveAtOk(progs, moves, k, k + 1);
    }
  }

  // In every interleaving in which the last key's first insert succeeds, the reader
  // leaves its loop only after the writer has made every removal and the map is empty,
  // although its sum comes from separate lookups at different moments.
  lemma ReaderLeavesLast(progs: seq<Prog>, moves: seq<Move>, i: nat)
    requires IsExecution(progs, moves) && i < |progs| && progs[i].reader == Left
    ensures Emptied(progs[i].writer)
    ensures Valid(progs[i].sys.m) && Abs(progs[i].sys.m) == map[]
  {
    ExecutionOk(progs, moves, i);
    assert forall k | k in Abs(progs[i].sys.m) :: MayHold(progs[i].writer, k);
  }
}
