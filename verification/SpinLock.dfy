/**
 The compare-and-swap spinlock of data-byte-align/main.c and the two threads it guards,
 with every load and every store of an array field as a step of its own.
 */
module SpinLock {
  import opened Arith

  const W16: nat := 0x1_0000
  const W32: nat := 0x1_0000_0000

  // align_or_not
  datatype Elem = Elem(number1: nat, number2: nat, number3: nat)

  datatype Field = One | Two | Three

  function Width(f: Field): nat {
    if f.Two? then W16 else W32
  }

  function Get(e: Elem, f: Field): nat {
    match f case One => e.number1 case Two => e.number2 case Three => e.number3
  }

  function Put(e: Elem, f: Field, v: nat): Elem {
    match f case One => e.(number1 := v) case Two => e.(number2 := v) case Three => e.(number3 := v)
  }

  // Round i of a thread: waiting for the lock, about to load a field of element j (or, past
  // the last element, to unlock), or about to store the field it has loaded.
  datatype Thread =
    | Waiting(i: nat)
    | Loading(i: nat, j: nat, f: Field)
    | Storing(i: nat, j: nat, f: Field, reg: nat)

  datatype Sys = Sys(lock: nat, arr: seq<Elem>, one: Thread, two: Thread)

  function At(s: Sys, t: bool): Thread {
    if t then s.two else s.one
  }

  function With(s: Sys, t: bool, th: Thread): Sys {
    if t then s.(two := th) else s.(one := th)
  }

  // num, a uint16_t
  function Num(i: nat): nat {
    i % W16
  }

  // thread_one adds, thread_two subtracts, both modulo the field's width.
  function Changed(t: bool, f: Field, v: nat, i: nat): nat {
    if t then (v - Num(i)) % Width(f) else (v + Num(i)) % Width(f)
  }

  function After(i: nat, j: nat, f: Field): Thread {
    match f case One => Loading(i, j, Two) case Two => Loading(i, j, Three) case Three => Loading(i, j + 1, One)
  }

  // One step of a thread; with the lock taken, a compare-and-swap changes nothing.
  function Step(rounds: nat, s: Sys, t: bool): Sys {
    match At(s, t)
    case Waiting(i) => if i < rounds && s.lock == 0 then With(s.(lock := 1), t, Loading(i, 0, One)) else s
    case Loading(i, j, f) =>
      if j < |s.arr| then With(s, t, Storing(i, j, f, Get(s.arr[j], f))) else With(s.(lock := 0), t, Waiting(i + 1))
    case Storing(i, j, f, reg) =>
      if j < |s.arr| then With(s.(arr := s.arr[j := Put(s.arr[j], f, Changed(t, f, reg, i))]), t, After(i, j, f)) else s
  }

  function Exec(rounds: nat, s: Sys, schedule: seq<bool>): Sys
    decreases |schedule|
  {
    if schedule == [] then s else Exec(rounds, Step(rounds, s, schedule[0]), schedule[1..])
  }

  // calloc
  function Start(length: nat): Sys {
    Sys(0, seq(length, _ => Elem(0, 0, 0)), Waiting(0), Waiting(0))
  }

  // ---------- the invariant ----------

  predicate Inside(th: Thread) {
    !th.Waiting?
  }

  function Rank(f: Field): nat {
    match f case One => 0 case Two => 1 case Three => 2
  }

  // How many rounds of the thread have changed field f of element j.
  function Rounds(th: Thread, j: nat, f: Field): nat {
    th.i + if Inside(th) && (j < th.j || (j == th.j && Rank(f) < Rank(th.f))) then 1 else 0
  }

  // What n rounds add to a field.
  function Sum(n: nat): nat {
    if n == 0 then 0 else Sum(n - 1) + Num(n - 1)
  }

  // No update is lost: a field is what the rounds past it add and subtract.
  function Expected(s: Sys, j: nat, f: Field): nat {
    Balance(f, Rounds(s.one, j, f), Rounds(s.two, j, f))
  }

  // a rounds of thread_one and b rounds of thread_two, modulo the field's width.
  function Balance(f: Field, a: nat, b: nat): nat {
    (Sum(a) - Sum(b)) % Width(f)
  }

  predicate InRange(rounds: nat, length: nat, th: Thread) {
    match th
    case Waiting(i) => i <= rounds
    case Loading(i, j, f) => i < rounds && (j < length || (j == length && f == One))
    case Storing(i, j, f, reg) => i < rounds && j < length
  }

  predicate Exclusive(s: Sys) {
    !(Inside(s.one) && Inside(s.two)) && s.lock == (if Inside(s.one) || Inside(s.two) then 1 else 0)
  }

  // A value in a register is still the value in memory.
  predicate Current(s: Sys, th: Thread) {
    th.Storing? ==> th.j < |s.arr| && th.reg == Get(s.arr[th.j], th.f)
  }

  ghost predicate Accurate(s: Sys) {
    forall j, f | 0 <= j < |s.arr| :: Get(s.arr[j], f) == Expected(s, j, f)
  }

  ghost predicate Inv(rounds: nat, s: Sys) {
    && InRange(rounds, |s.arr|, s.one) && InRange(rounds, |s.arr|, s.two)
    && Exclusive(s) && Current(s, s.one) && Current(s, s.two) && Accurate(s)
  }

  lemma StartInv(rounds: nat, length: nat)
    ensures Inv(rounds, Start(length))
  {
  }

  // ---------- every step keeps it ----------

  lemma ReduceFirst(x: int, k: int, f: Field)
    ensures (x % Width(f) + k) % Width(f) == (x + k) % Width(f)
  {
  }

  // What a field becomes when one side has one more round past it.
  lemma OneMore(f: Field, a: nat, b: nat)
    ensures Changed(false, f, Balance(f, a, b), a) == Balance(f, a + 1, b)
    ensures Changed(true, f, Balance(f, a, b), b) == Balance(f, a, b + 1)
  {
    Shifted(f, a, b, Sum(a), Sum(b), Num(a), Sum(a) + Num(a), a + 1);
    ShiftedBack(f, a, b, Sum(a), Sum(b), Num(b), Sum(b) + Num(b), b + 1);
  }

  lemma Shifted(f: Field, a: nat, b: nat, x: int, y: int, k: int, x': int, a': nat)
    requires x == Sum(a) && y == Sum(b) && k == Num(a) && x' == x + k && a' == a + 1
    ensures (Balance(f, a, b) + k) % Width(f) == Balance(f, a', b)
  {
    ReduceFirst(x - y, k, f);
  }

  lemma ShiftedBack(f: Field, a: nat, b: nat, x: int, y: int, k: int, y': int, b': nat)
    requires x == Sum(a) && y == Sum(b) && k == Num(b) && y' == y + k && b' == b + 1
    ensures (Balance(f, a, b) - k) % Width(f) == Balance(f, a, b')
  {
    ReduceFirst(x - y, 0 - k, f);
  }

  lemma StoreRounds(th: Thread, j: nat, f: Field)
    requires th.Storing?
    ensures Rounds(After(th.i, th.j, th.f), j, f) == Rounds(th, j, f) + (if j == th.j && f == th.f then 1 else 0)
    ensures Rounds(th, th.j, th.f) == th.i
  {
  }

  lemma PutGet(e: Elem, f: Field, v: nat, f': Field)
    ensures Get(Put(e, f, v), f') == if f' == f then v else Get(e, f')
  {
  }

  lemma StoreExpected(rounds: nat, s: Sys, t: bool, j: nat, f: Field)
    requires Inv(rounds, s) && At(s, t).Storing? && j < |s.arr|
    ensures var s' := Step(rounds, s, t);
            Get(s'.arr[j], f) == Expected(s', j, f)
  {
    var th, s' := At(s, t), Step(rounds, s, t);
    StoreRounds(th, j, f);
    assert Get(s.arr[j], f) == Expected(s, j, f);
    PutGet(s.arr[j], th.f, Changed(t, th.f, th.reg, th.i), f);
    if j == th.j && f == th.f {
      OneMore(f, Rounds(s.one, j, f), Rounds(s.two, j, f));
    } else {
      assert Get(s'.arr[j], f) == Get(s.arr[j], f);
    }
  }

  lemma StoreInv(rounds: nat, s: Sys, t: bool)
    requires Inv(rounds, s) && At(s, t).Storing?
    ensures Inv(rounds, Step(rounds, s, t))
  {
    var s' := Step(rounds, s, t);
    forall j, f | 0 <= j < |s.arr| ensures Get(s'.arr[j], f) == Expected(s', j, f) {
      StoreExpected(rounds, s, t, j, f);
    }
  }

  lemma OtherRounds(rounds: nat, s: Sys, t: bool, j: nat, f: Field)
    requires Inv(rounds, s) && !At(s, t).Storing? && j < |s.arr|
    ensures Expected(Step(rounds, s, t), j, f) == Expected(s, j, f)
  {
  }

  lemma OtherInv(rounds: nat, s: Sys, t: bool)
    requires Inv(rounds, s) && !At(s, t).Storing?
    ensures Inv(rounds, Step(rounds, s, t))
  {
    var s' := Step(rounds, s, t);
    forall j, f | 0 <= j < |s.arr| ensures Expected(s', j, f) == Expected(s, j, f) {
      OtherRounds(rounds, s, t, j, f);
    }
  }

  lemma StepInv(rounds: nat, s: Sys, t: bool)
    requires Inv(rounds, s)
    ensures Inv(rounds, Step(rounds, s, t))
  {
    if At(s, t).Storing? {
      StoreInv(rounds, s, t);
    } else {
      OtherInv(rounds, s, t);
    }
  }

  lemma {:induction false} ExecInv(rounds: nat, s: Sys, schedule: seq<bool>)
    requires Inv(rounds, s)
    ensures Inv(rounds, Exec(rounds, s, schedule)) && |Exec(rounds, s, schedule).arr| == |s.arr|
    decreases |schedule|
  {
    if schedule != [] {
      StepInv(rounds, s, schedule[0]);
      ExecInv(rounds, Step(rounds, s, schedule[0]), schedule[1..]);
    }
  }

  // ---------- what every run shows ----------

  // Under every schedule at most one thread is between lock and unlock, and the lock word
  // is 1 exactly while one is.
  lemma MutualExclusion(rounds: nat, length: nat, schedule: seq<bool>)
    ensures var s := Exec(rounds, Start(length), schedule);
            !(Inside(s.one) && Inside(s.two)) && (s.lock == 1 <==> Inside(s.one) || Inside(s.two)) && s.lock <= 1
  {
    StartInv(rounds, length);
    ExecInv(rounds, Start(length), schedule);
  }

  // The numbers 0, 1, ... of the first n rounds added up; after 65535 they start again at 0.
  function Total(n: nat): int {
    n / 65536 * 2147450880 + n % 65536 * (n % 65536 - 1) / 2
  }

  lemma NumAt(q: nat, r: nat)
    requires r < 65536
    ensures Num(65536 * q + r) == r
  {
    DivModUnique(65536 * q + r, 65536, q, r);
  }

  lemma {:induction false} SumTwice(q: nat, r: nat)
    requires r < 65536
    ensures 2 * Sum(65536 * q + r) == q * 4294901760 + r * (r - 1)
    decreases q, r
  {
    if r > 0 {
      SumTwice(q, r - 1);
      NumAt(q, r - 1);
      assert r * (r - 1) == (r - 1) * (r - 2) + 2 * (r - 1);
    } else if q > 0 {
      SumTwice(q - 1, 65535);
      NumAt(q - 1, 65535);
    }
  }

  lemma SumTotal(n: nat)
    ensures Sum(n) == Total(n)
  {
    var q, r := n / 65536, n % 65536;
    assert n == 65536 * q + r;
    SumTwice(q, r);
  }

  // No update is lost: every field is always what the numbers of the rounds of thread_one
  // that passed it add up to, less those of thread_two, modulo its width.
  lemma NoLostUpdate(rounds: nat, length: nat, schedule: seq<bool>, j: nat)
    requires j < length
    ensures var s := Exec(rounds, Start(length), schedule);
            && |s.arr| == length
            && s.arr[j].number1 == (Total(Rounds(s.one, j, One)) - Total(Rounds(s.two, j, One))) % 4294967296
            && s.arr[j].number2 == (Total(Rounds(s.one, j, Two)) - Total(Rounds(s.two, j, Two))) % 65536
            && s.arr[j].number3 == (Total(Rounds(s.one, j, Three)) - Total(Rounds(s.two, j, Three))) % 4294967296
  {
    StartInv(rounds, length);
    ExecInv(rounds, Start(length), schedule);
    var s := Exec(rounds, Start(length), schedule);
    FieldTotal(s, j, One);
    FieldTotal(s, j, Two);
    FieldTotal(s, j, Three);
  }

  lemma FieldTotal(s: Sys, j: nat, f: Field)
    requires Accurate(s) && j < |s.arr|
    ensures Get(s.arr[j], f) == (Total(Rounds(s.one, j, f)) - Total(Rounds(s.two, j, f))) % Width(f)
  {
    assert Get(s.arr[j], f) == Expected(s, j, f);
    BalanceTotal(f, Rounds(s.one, j, f), Rounds(s.two, j, f));
  }

  lemma BalanceTotal(f: Field, a: nat, b: nat)
    ensures Balance(f, a, b) == (Total(a) - Total(b)) % Width(f)
  {
    SumTotal(a);
    SumTotal(b);
    BalanceOf(f, a, b, Total(a), Total(b));
  }

  lemma BalanceOf(f: Field, a: nat, b: nat, x: int, y: int)
    requires x == Sum(a) && y == Sum(b)
    ensures Balance(f, a, b) == (x - y) % Width(f)
  {
  }

  predicate Finished(rounds: nat, s: Sys) {
    s.one == Waiting(rounds) && s.two == Waiting(rounds)
  }

  predicate AllZero(arr: seq<Elem>) {
    forall j | 0 <= j < |arr| :: arr[j] == Elem(0, 0, 0)
  }

  // After both threads finish, every field of every element is zero again.
  lemma FinishedZero(rounds: nat, length: nat, schedule: seq<bool>)
    ensures var s := Exec(rounds, Start(length), schedule);
            Finished(rounds, s) ==> AllZero(s.arr)
  {
    StartInv(rounds, length);
    ExecInv(rounds, Start(length), schedule);
    var s := Exec(rounds, Start(length), schedule);
    if Finished(rounds, s) {
      forall j | 0 <= j < |s.arr| ensures s.arr[j] == Elem(0, 0, 0) {
        assert Get(s.arr[j], One) == Expected(s, j, One);
        assert Get(s.arr[j], Two) == Expected(s, j, Two);
        assert Get(s.arr[j], Three) == Expected(s, j, Three);
      }
    }
  }

  // Steps a thread still has to take.
  function Left(rounds: nat, length: nat, th: Thread): int {
    match th
    case Waiting(i) => (rounds - i) * (6 * length + 2)
    case Loading(i, j, f) => (rounds - i - 1) * (6 * length + 2) + 6 * (length - j) - 2 * Rank(f) + 1
    case Storing(i, j, f, reg) => (rounds - i - 1) * (6 * length + 2) + 6 * (length - j) - 2 * Rank(f)
  }

  // No deadlock: until both are finished one of the threads can take a step that brings it
  // nearer its end, the one in the critical section if there is one.
  lemma Progress(rounds: nat, length: nat, schedule: seq<bool>)
    ensures var s := Exec(rounds, Start(length), schedule);
            !Finished(rounds, s) ==>
              exists t :: Left(rounds, length, At(Step(rounds, s, t), t)) == Left(rounds, length, At(s, t)) - 1
  {
    StartInv(rounds, length);
    ExecInv(rounds, Start(length), schedule);
    var s := Exec(rounds, Start(length), schedule);
    if !Finished(rounds, s) {
      var t := Inside(s.two) || (!Inside(s.one) && s.one == Waiting(rounds));
      Advances(rounds, s, t);
    }
  }

  lemma Advances(rounds: nat, s: Sys, t: bool)
    requires Inv(rounds, s) && (Inside(At(s, t)) || (s.lock == 0 && At(s, t).i < rounds))
    ensures Left(rounds, |s.arr|, At(Step(rounds, s, t), t)) == Left(rounds, |s.arr|, At(s, t)) - 1
  {
    var th, c := At(s, t), 6 * |s.arr| + 2;
    if th.Waiting? {
      OneRound(rounds - th.i, c);
    }
  }

  lemma OneRound(k: int, c: int)
    ensures k * c == (k - 1) * c + c
  {
  }
}
