/**
 The increment and decrement threads of data-hashmap-concurrent/cmap.c: any number of
 each walk over the same keys, changing values through callbacks under the bucket lock.
 */
module StripedThreads {
  import opened Fnv
  import opened StripedMap

  // _inc_func and _dec_func, on uint64_t values.
  function IncFunc(index: nat, value: nat): nat {
    (value + index) % M64
  }

  function DecFunc(index: nat, value: nat): nat {
    (value - index) % M64
  }

  // A thread's loop counter; a thread whose lookup misses leaves its loop.
  datatype Thread = Going(i: nat) | Failed

  datatype Sys = Sys(m: Cmap, inc: seq<Thread>, dec: seq<Thread>)

  datatype Move = Increase(t: nat) | Decrease(t: nat)

  ghost predicate Enabled(n: nat, threads: seq<Thread>, t: nat) {
    t < |threads| && threads[t].Going? && threads[t].i < n
  }

  ghost function Advance(m: Cmap, threads: seq<Thread>, t: nat): seq<Thread>
    requires Valid(m) && t < |threads| && threads[t].Going?
  {
    var i := threads[t].i;
    threads[t := if Lookup(Bucket(m, i), i).None? then Failed else Going(i + 1)]
  }

  // One iteration of a thread's loop over n keys; a move that is not possible changes nothing.
  ghost function Step(n: nat, s: Sys, move: Move): (s': Sys)
    requires Valid(s.m)
    ensures Valid(s'.m)
  {
    match move
    case Increase(t) =>
      if Enabled(n, s.inc, t) then
        OperationsValid(s.m, s.inc[t].i, 0, IncFunc);
        s.(m := Get(s.m, s.inc[t].i, IncFunc), inc := Advance(s.m, s.inc, t))
      else s
    case Decrease(t) =>
      if Enabled(n, s.dec, t) then
        OperationsValid(s.m, s.dec[t].i, 0, DecFunc);
        s.(m := Get(s.m, s.dec[t].i, DecFunc), dec := Advance(s.m, s.dec, t))
      else s
  }

  ghost function Exec(n: nat, s: Sys, moves: seq<Move>): (s': Sys)
    requires Valid(s.m)
    ensures Valid(s'.m)
    decreases |moves|
  {
    if moves == [] then s else Exec(n, Step(n, s, moves[0]), moves[1..])
  }

  // The insertions of main, before any thread starts.
  ghost function Filled(m: Cmap, i: nat, n: nat): (m': Cmap)
    requires Valid(m) && i <= n
    ensures Valid(m')
    decreases n - i
  {
    if i == n then m else Filled(Do(m, SetOp(i, 0)), i + 1, n)
  }

  ghost predicate HashFits(bucketOf: nat -> nat, buckSize: nat) {
    buckSize > 0 && forall k :: bucketOf(k) < buckSize
  }

  ghost function Start(bucketOf: nat -> nat, buckSize: nat, dataSize: nat, n: nat, incs: nat, decs: nat): (s: Sys)
    requires HashFits(bucketOf, buckSize)
    ensures Valid(s.m)
  {
    AllocValid(bucketOf, buckSize, dataSize);
    Sys(Filled(Alloc(bucketOf, buckSize, dataSize), 0, n), seq(incs, _ => Going(0)), seq(decs, _ => Going(0)))
  }

  // How many of the threads have been past key k.
  function Passed(threads: seq<Thread>, k: nat): nat {
    if threads == [] then 0
    else (if threads[0].Going? && threads[0].i > k then 1 else 0) + Passed(threads[1..], k)
  }

  lemma {:induction false} PassedAdvance(threads: seq<Thread>, t: nat, k: nat)
    requires t < |threads| && threads[t].Going?
    ensures Passed(threads[t := Going(threads[t].i + 1)], k) == Passed(threads, k) + if k == threads[t].i then 1 else 0
    decreases |threads|
  {
    var threads' := threads[t := Going(threads[t].i + 1)];
    if t == 0 {
      assert threads'[1..] == threads[1..];
    } else {
      assert threads'[1..] == threads[1..][t - 1 := Going(threads[t].i + 1)];
      PassedAdvance(threads[1..], t - 1, k);
    }
  }

  lemma {:induction false} PassedAll(threads: seq<Thread>, k: nat, c: nat)
    requires forall t | 0 <= t < |threads| :: threads[t] == Going(c)
    ensures Passed(threads, k) == if c > k then |threads| else 0
    decreases |threads|
  {
    if threads != [] {
      PassedAll(threads[1..], k, c);
    }
  }

  // index * (increments past it - decrements past it) mod 2^64
  function ValueOf(inc: seq<Thread>, dec: seq<Thread>, k: nat): nat {
    (k * (Passed(inc, k) - Passed(dec, k))) % 18446744073709551616
  }

  ghost function Values(n: nat, inc: seq<Thread>, dec: seq<Thread>): map<nat, nat> {
    map k: nat | k < n :: ValueOf(inc, dec, k)
  }

  lemma Balanced(inc: seq<Thread>, dec: seq<Thread>, k: nat)
    requires Passed(inc, k) == Passed(dec, k)
    ensures ValueOf(inc, dec, k) == 0
  {
    assert k * 0 == 0;
  }

  ghost predicate Within(n: nat, threads: seq<Thread>) {
    forall t | 0 <= t < |threads| :: threads[t].Going? && threads[t].i <= n
  }

  ghost predicate FreeZero(m: Cmap) {
    forall b, i | 0 <= b < |m.buckets| && 0 <= i < |m.buckets[b]| && !m.buckets[b][i].inUse :: m.buckets[b][i].value == 0
  }

  ghost predicate Inv(n: nat, s: Sys) {
    Valid(s.m) && Represents(s.m, Values(n, s.inc, s.dec)) && FreeZero(s.m) && Within(n, s.inc) && Within(n, s.dec)
  }

  // ---------- the invariant holds at the start ----------

  lemma SetFreeZero(m: Cmap, key: nat, value: nat)
    requires Valid(m) && FreeZero(m)
    ensures FreeZero(Set(m, key, value))
  {
    var ch, ch' := Bucket(m, key), SetChain(Bucket(m, key), key, value);
    assert FirstFree(ch) == |ch| ==> forall i | 0 < i < |ch'| :: ch'[i] == ch[i - 1];
  }

  lemma FillOne(m: Cmap, f: map<nat, nat>, key: nat)
    requires Valid(m) && Represents(m, f) && FreeZero(m) && key !in f
    ensures Represents(Do(m, SetOp(key, 0)), f[key := 0]) && FreeZero(Do(m, SetOp(key, 0)))
  {
    SetRefines(m, f, key, 0);
    SetFreeZero(m, key, 0);
    assert Do(m, SetOp(key, 0)) == Set(m, key, 0);
  }

  lemma ValuesGrow(n: nat)
    ensures Values(n + 1, [], []) == Values(n, [], [])[n := 0]
  {
    Balanced([], [], n);
  }

  lemma {:induction false} FilledZero(m: Cmap, i: nat, n: nat)
    requires Valid(m) && i <= n && Represents(m, Values(i, [], [])) && FreeZero(m)
    ensures Represents(Filled(m, i, n), Values(n, [], [])) && FreeZero(Filled(m, i, n))
    decreases n - i
  {
    if i < n {
      FillOne(m, Values(i, [], []), i);
      ValuesGrow(i);
      FilledZero(Do(m, SetOp(i, 0)), i + 1, n);
    }
  }

  lemma StartInv(bucketOf: nat -> nat, buckSize: nat, dataSize: nat, n: nat, incs: nat, decs: nat)
    requires HashFits(bucketOf, buckSize)
    ensures Inv(n, Start(bucketOf, buckSize, dataSize, n, incs, decs))
  {
    var s := Start(bucketOf, buckSize, dataSize, n, incs, decs);
    AllocRepresents(bucketOf, buckSize, dataSize);
    assert Values(0, [], []) == map[];
    FilledZero(Alloc(bucketOf, buckSize, dataSize), 0, n);
    StartValues(n, s.inc, s.dec);
  }

  lemma StartValues(n: nat, inc: seq<Thread>, dec: seq<Thread>)
    requires (forall t | 0 <= t < |inc| :: inc[t] == Going(0)) && (forall t | 0 <= t < |dec| :: dec[t] == Going(0))
    ensures Values(n, inc, dec) == Values(n, [], [])
  {
    forall k: nat ensures ValueOf(inc, dec, k) == ValueOf([], [], k) {
      PassedAll(inc, k, 0);
      PassedAll(dec, k, 0);
      Balanced(inc, dec, k);
      Balanced([], [], k);
    }
  }

  // ---------- every move keeps it ----------

  lemma GetFreeZero(m: Cmap, key: nat, cb: (nat, nat) -> nat)
    requires Valid(m) && FreeZero(m)
    ensures FreeZero(Get(m, key, cb))
  {
  }

  lemma ReduceFirst(x: int, k: int)
    ensures (x % M64 + k) % M64 == (x + k) % M64
  {
  }

  lemma Distribute(k: int, d: int)
    ensures k * (d + 1) == k * d + k && k * (d - 1) == k * d - k
  {
  }

  lemma OneMore(k: nat, d: int)
    ensures ((k * d) % M64 + k) % M64 == (k * (d + 1)) % M64
    ensures ((k * d) % M64 - k) % M64 == (k * (d - 1)) % M64
  {
    Distribute(k, d);
    ReduceFirst(k * d, k);
    ReduceFirst(k * d, 0 - k);
  }

  lemma IncreaseValue(inc: seq<Thread>, dec: seq<Thread>, t: nat, k: nat)
    requires t < |inc| && inc[t].Going?
    ensures ValueOf(inc[t := Going(inc[t].i + 1)], dec, k) ==
            if k == inc[t].i then IncFunc(k, ValueOf(inc, dec, k)) else ValueOf(inc, dec, k)
  {
    PassedAdvance(inc, t, k);
    OneMore(k, Passed(inc, k) - Passed(dec, k));
  }

  lemma DecreaseValue(inc: seq<Thread>, dec: seq<Thread>, t: nat, k: nat)
    requires t < |dec| && dec[t].Going?
    ensures ValueOf(inc, dec[t := Going(dec[t].i + 1)], k) ==
            if k == dec[t].i then DecFunc(k, ValueOf(inc, dec, k)) else ValueOf(inc, dec, k)
  {
    PassedAdvance(dec, t, k);
    OneMore(k, Passed(inc, k) - Passed(dec, k));
  }

  // A get of a key that is there: the map represents the new values and the thread goes on.
  lemma GetStep(n: nat, s: Sys, threads: seq<Thread>, t: nat, cb: (nat, nat) -> nat, s': Sys)
    requires Inv(n, s) && Enabled(n, threads, t)
    requires Valid(s'.m) && s'.m == Get(s.m, threads[t].i, cb)
    requires forall k: nat | k < n :: ValueOf(s'.inc, s'.dec, k) == if k == threads[t].i then cb(k, ValueOf(s.inc, s.dec, k)) else ValueOf(s.inc, s.dec, k)
    ensures Represents(s'.m, Values(n, s'.inc, s'.dec)) && FreeZero(s'.m)
  {
    var key, f := threads[t].i, Values(n, s.inc, s.dec);
    GetRefines(s.m, f, key, cb);
    GetFreeZero(s.m, key, cb);
    assert Values(n, s'.inc, s'.dec) == f[key := cb(key, f[key])];
  }

  lemma AdvanceGoes(n: nat, s: Sys, threads: seq<Thread>, t: nat)
    requires Inv(n, s) && Enabled(n, threads, t) && Within(n, threads)
    ensures Advance(s.m, threads, t) == threads[t := Going(threads[t].i + 1)] && Within(n, Advance(s.m, threads, t))
  {
    assert Lookup(Bucket(s.m, threads[t].i), threads[t].i) == Answer(Values(n, s.inc, s.dec), threads[t].i);
  }

  lemma IncreaseInv(n: nat, s: Sys, t: nat)
    requires Inv(n, s) && Enabled(n, s.inc, t)
    ensures Inv(n, Step(n, s, Increase(t)))
  {
    var s' := Step(n, s, Increase(t));
    AdvanceGoes(n, s, s.inc, t);
    forall k: nat | k < n ensures ValueOf(s'.inc, s'.dec, k) == if k == s.inc[t].i then IncFunc(k, ValueOf(s.inc, s.dec, k)) else ValueOf(s.inc, s.dec, k) {
      IncreaseValue(s.inc, s.dec, t, k);
    }
    GetStep(n, s, s.inc, t, IncFunc, s');
  }

  lemma DecreaseInv(n: nat, s: Sys, t: nat)
    requires Inv(n, s) && Enabled(n, s.dec, t)
    ensures Inv(n, Step(n, s, Decrease(t)))
  {
    var s' := Step(n, s, Decrease(t));
    AdvanceGoes(n, s, s.dec, t);
    forall k: nat | k < n ensures ValueOf(s'.inc, s'.dec, k) == if k == s.dec[t].i then DecFunc(k, ValueOf(s.inc, s.dec, k)) else ValueOf(s.inc, s.dec, k) {
      DecreaseValue(s.inc, s.dec, t, k);
    }
    GetStep(n, s, s.dec, t, DecFunc, s');
  }

  lemma MoveInv(n: nat, s: Sys, move: Move)
    requires Inv(n, s)
    ensures Inv(n, Step(n, s, move))
  {
    match move
    case Increase(t) => if Enabled(n, s.inc, t) { IncreaseInv(n, s, t); }
    case Decrease(t) => if Enabled(n, s.dec, t) { DecreaseInv(n, s, t); }
  }

  lemma {:induction false} ExecInv(n: nat, s: Sys, moves: seq<Move>)
    requires Inv(n, s)
    ensures Inv(n, Exec(n, s, moves))
    ensures |Exec(n, s, moves).inc| == |s.inc| && |Exec(n, s, moves).dec| == |s.dec|
    decreases |moves|
  {
    if moves != [] {
      MoveInv(n, s, moves[0]);
      ExecInv(n, Step(n, s, moves[0]), moves[1..]);
    }
  }

  // ---------- what every run shows ----------

  // In every interleaving no lookup misses, and each key's value is its index times the
  // increments past it minus the decrements past it, modulo 2^64.
  lemma ValuesTrack(bucketOf: nat -> nat, buckSize: nat, dataSize: nat, n: nat, incs: nat, decs: nat, moves: seq<Move>, k: nat)
    requires HashFits(bucketOf, buckSize)
    ensures var s := Exec(n, Start(bucketOf, buckSize, dataSize, n, incs, decs), moves);
            && (forall t | 0 <= t < |s.inc| :: s.inc[t].Going?)
            && (forall t | 0 <= t < |s.dec| :: s.dec[t].Going?)
            && Lookup(Bucket(s.m, k), k) ==
               if k < n then Some(ValueOf(s.inc, s.dec, k)) else None
  {
    StartInv(bucketOf, buckSize, dataSize, n, incs, decs);
    ExecInv(n, Start(bucketOf, buckSize, dataSize, n, incs, decs), moves);
    var s := Exec(n, Start(bucketOf, buckSize, dataSize, n, incs, decs), moves);
    assert Lookup(Bucket(s.m, k), k) == Answer(Values(n, s.inc, s.dec), k);
  }

  ghost predicate Done(n: nat, threads: seq<Thread>) {
    forall t | 0 <= t < |threads| :: threads[t] == Going(n)
  }

  ghost predicate ZeroChain(ch: Chain) {
    forall i | 0 <= i < |ch| :: ch[i].value == 0
  }

  ghost predicate AllZero(buckets: seq<Chain>) {
    forall b | 0 <= b < |buckets| :: ZeroChain(buckets[b])
  }

  lemma SlotZero(n: nat, s: Sys, b: nat, i: nat)
    requires Inv(n, s) && Done(n, s.inc) && Done(n, s.dec) && |s.inc| == |s.dec|
    requires b < |s.m.buckets| && i < |s.m.buckets[b]|
    ensures s.m.buckets[b][i].value == 0
  {
    var slot := s.m.buckets[b][i];
    if slot.inUse {
      LookupFinds(s.m.buckets[b], i);
      assert Lookup(Bucket(s.m, slot.index), slot.index) == Answer(Values(n, s.inc, s.dec), slot.index);
      PassedAll(s.inc, slot.index, n);
      PassedAll(s.dec, slot.index, n);
      Balanced(s.inc, s.dec, slot.index);
    }
  }

  // Once as many increment as decrement threads have finished, in any interleaving, the
  // final scan meets only zeros, in used and in free slots.
  lemma FinalScanZero(bucketOf: nat -> nat, buckSize: nat, dataSize: nat, n: nat, count: nat, moves: seq<Move>)
    requires HashFits(bucketOf, buckSize)
    ensures var s := Exec(n, Start(bucketOf, buckSize, dataSize, n, count, count), moves);
            Done(n, s.inc) && Done(n, s.dec) ==> AllZero(s.m.buckets)
  {
    StartInv(bucketOf, buckSize, dataSize, n, count, count);
    ExecInv(n, Start(bucketOf, buckSize, dataSize, n, count, count), moves);
    var s := Exec(n, Start(bucketOf, buckSize, dataSize, n, count, count), moves);
    if Done(n, s.inc) && Done(n, s.dec) {
      forall b, i | 0 <= b < |s.m.buckets| && 0 <= i < |s.m.buckets[b]| ensures s.m.buckets[b][i].value == 0 {
        SlotZero(n, s, b, i);
      }
    }
  }

  // ---------- every run can be finished ----------

  // Loop rounds that the threads still have to make.
  function Left(n: nat, threads: seq<Thread>): int {
    if threads == [] then 0 else (if threads[0].Going? then n - threads[0].i else 0) + Left(n, threads[1..])
  }

  lemma {:induction false} LeftAdvance(n: nat, threads: seq<Thread>, t: nat)
    requires t < |threads| && threads[t].Going?
    ensures Left(n, threads[t := Going(threads[t].i + 1)]) == Left(n, threads) - 1
    decreases |threads|
  {
    var threads' := threads[t := Going(threads[t].i + 1)];
    if t == 0 {
      assert threads'[1..] == threads[1..];
    } else {
      assert threads'[1..] == threads[1..][t - 1 := Going(threads[t].i + 1)];
      LeftAdvance(n, threads[1..], t - 1);
    }
  }

  lemma {:induction false} LeftNat(n: nat, threads: seq<Thread>)
    requires Within(n, threads)
    ensures Left(n, threads) >= 0
    decreases |threads|
  {
    if threads != [] {
      LeftNat(n, threads[1..]);
    }
  }

  lemma AdvanceLess(n: nat, s: Sys, threads: seq<Thread>, t: nat)
    requires Inv(n, s) && Enabled(n, threads, t) && Within(n, threads)
    ensures Left(n, Advance(s.m, threads, t)) == Left(n, threads) - 1
  {
    AdvanceGoes(n, s, threads, t);
    LeftAdvance(n, threads, t);
  }

  lemma Shrinks(n: nat, s: Sys, move: Move)
    requires Inv(n, s) && Enabled(n, if move.Increase? then s.inc else s.dec, move.t)
    ensures Left(n, Step(n, s, move).inc) + Left(n, Step(n, s, move).dec) == Left(n, s.inc) + Left(n, s.dec) - 1
  {
    AdvanceLess(n, s, if move.Increase? then s.inc else s.dec, move.t);
  }

  lemma {:induction false} Finishes(n: nat, s: Sys) returns (moves: seq<Move>)
    requires Inv(n, s)
    ensures Done(n, Exec(n, s, moves).inc) && Done(n, Exec(n, s, moves).dec)
    decreases Left(n, s.inc) + Left(n, s.dec)
  {
    LeftNat(n, s.inc);
    LeftNat(n, s.dec);
    if Done(n, s.inc) && Done(n, s.dec) {
      return [];
    }
    var move := Unfinished(n, s);
    MoveInv(n, s, move);
    Shrinks(n, s, move);
    LeftNat(n, Step(n, s, move).inc);
    LeftNat(n, Step(n, s, move).dec);
    var rest := Finishes(n, Step(n, s, move));
    moves := [move] + rest;
  }

  // From wherever a run has got to, some continuation ends every thread, and with as many
  // increment as decrement threads the final scan then meets only zeros.
  lemma CanFinish(bucketOf: nat -> nat, buckSize: nat, dataSize: nat, n: nat, incs: nat, decs: nat, before: seq<Move>) returns (moves: seq<Move>)
    requires HashFits(bucketOf, buckSize)
    ensures var s := Exec(n, Start(bucketOf, buckSize, dataSize, n, incs, decs), before + moves);
            Done(n, s.inc) && Done(n, s.dec) && (incs == decs ==> AllZero(s.m.buckets))
  {
    var s := Start(bucketOf, buckSize, dataSize, n, incs, decs);
    StartInv(bucketOf, buckSize, dataSize, n, incs, decs);
    ExecInv(n, s, before);
    moves := Finishes(n, Exec(n, s, before));
    ExecAppend(n, s, before, moves);
    if incs == decs {
      FinalScanZero(bucketOf, buckSize, dataSize, n, incs, before + moves);
    }
  }

  lemma {:induction false} ExecAppend(n: nat, s: Sys, a: seq<Move>, b: seq<Move>)
    requires Valid(s.m)
    ensures Exec(n, s, a + b) == Exec(n, Exec(n, s, a), b)
    decreases |a|
  {
    if a == [] {
      assert a + b == b;
    } else {
      assert (a + b)[0] == a[0] && (a + b)[1..] == a[1..] + b;
      ExecAppend(n, Step(n, s, a[0]), a[1..], b);
    }
  }

  lemma Unfinished(n: nat, s: Sys) returns (move: Move)
    requires Within(n, s.inc) && Within(n, s.dec) && !(Done(n, s.inc) && Done(n, s.dec))
    ensures Enabled(n, if move.Increase? then s.inc else s.dec, move.t)
  {
    if t :| 0 <= t < |s.inc| && s.inc[t] != Going(n) {
      move := Increase(t);
    } else {
      var u :| 0 <= u < |s.dec| && s.dec[u] != Going(n);
      move := Decrease(u);
    }
  }
}
