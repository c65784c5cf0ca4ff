/** The code of data-byte-align/main.c that the steps of the spinlock model come from. */
module SpinCode {
  import opened SpinLock

  function ChangedElem(t: bool, e: Elem, i: nat): Elem {
    Elem(Changed(t, One, e.number1, i), Changed(t, Two, e.number2, i), Changed(t, Three, e.number3, i))
  }

  // Round i of a thread on the whole array.
  function ChangedFrom(t: bool, arr: seq<Elem>, j: nat, i: nat): seq<Elem>
    requires j <= |arr|
  {
    arr[..j] + seq(|arr| - j, k requires 0 <= k < |arr| - j => ChangedElem(t, arr[j + k], i))
  }

  class Shared {
    var spinlock: nat
    const arr: array<Elem>

    constructor (length: nat)
      ensures spinlock == 0 && fresh(arr) && arr[..] == Start(length).arr
    {
      spinlock := 0;
      arr := new Elem[length](_ => Elem(0, 0, 0));
    }

    // One turn of the loop of spinlock_lock.
    method TryLock() returns (done: bool)
      modifies this
      ensures done <==> old(spinlock) == 0
      ensures spinlock == if done then 1 else old(spinlock)
    {
      done := spinlock == 0;
      if done {
        spinlock := 1;
      }
    }

    // spinlock_unlock
    method Unlock()
      modifies this
      ensures spinlock == 0
    {
      spinlock := 0;
    }

    // The loop over the array in thread_one, in its round i.
    method Raise(i: nat)
      modifies arr
      ensures arr[..] == ChangedFrom(false, old(arr[..]), 0, i)
    {
      var num := i % W16;
      var j := 0;
      while j < arr.Length
        invariant 0 <= j <= arr.Length
        invariant forall k | 0 <= k < j :: arr[k] == ChangedElem(false, old(arr[k]), i)
        invariant forall k | j <= k < arr.Length :: arr[k] == old(arr[k])
      {
        arr[j] := arr[j].(number1 := (arr[j].number1 + num) % W32);
        arr[j] := arr[j].(number2 := (arr[j].number2 + num) % W16);
        arr[j] := arr[j].(number3 := (arr[j].number3 + num) % W32);
        j := j + 1;
      }
    }

    // The loop over the array in thread_two, in its round i.
    method Lower(i: nat)
      modifies arr
      ensures arr[..] == ChangedFrom(true, old(arr[..]), 0, i)
    {
      var num := i % W16;
      var j := 0;
      while j < arr.Length
        invariant 0 <= j <= arr.Length
        invariant forall k | 0 <= k < j :: arr[k] == ChangedElem(true, old(arr[k]), i)
        invariant forall k | j <= k < arr.Length :: arr[k] == old(arr[k])
      {
        arr[j] := arr[j].(number1 := (arr[j].number1 - num) % W32);
        arr[j] := arr[j].(number2 := (arr[j].number2 - num) % W16);
        arr[j] := arr[j].(number3 := (arr[j].number3 - num) % W32);
        j := j + 1;
      }
    }

    // The check that ends main: it passes exactly when every field is zero.
    method FinalCheck() returns (passed: bool)
      ensures passed <==> AllZero(arr[..])
    {
      var i := 0;
      while i < arr.Length
        invariant 0 <= i <= arr.Length && forall k | 0 <= k < i :: arr[k] == Elem(0, 0, 0)
      {
        if arr[i].number1 != 0 || arr[i].number2 != 0 || arr[i].number3 != 0 {
          assert arr[..][i] != Elem(0, 0, 0);
          return false;
        }
        i := i + 1;
      }
      passed := true;
    }
  }

  // thread_one and thread_two on the shared memory, scheduled from outside one memory
  // access at a time.
  class Program {
    const shared: Shared
    var one: Thread
    var two: Thread

    ghost function View(): Sys
      reads this, shared, shared.arr
    {
      Sys(shared.spinlock, shared.arr[..], one, two)
    }

    constructor (length: nat)
      ensures View() == Start(length) && fresh(shared) && fresh(shared.arr)
    {
      var memory := new Shared(length);
      shared, one, two := memory, Waiting(0), Waiting(0);
    }

    method Goto(t: bool, th: Thread)
      modifies this
      ensures View() == With(old(View()), t, th)
    {
      if t {
        two := th;
      } else {
        one := th;
      }
    }

    // The next access of a thread: a compare-and-swap, a load, a store or the unlock.
    method Act(rounds: nat, t: bool)
      requires shared.spinlock <= 1
      modifies this, shared, shared.arr
      ensures View() == Step(rounds, old(View()), t)
    {
      match if t then two else one
      case Waiting(i) =>
        if i < rounds {
          var done := shared.TryLock();
          if done {
            Goto(t, Loading(i, 0, One));
          }
        }
      case Loading(i, j, f) =>
        if j < shared.arr.Length {
          Goto(t, Storing(i, j, f, Get(shared.arr[j], f)));
        } else {
          shared.Unlock();
          Goto(t, Waiting(i + 1));
        }
      case Storing(i, j, f, reg) =>
        if j < shared.arr.Length {
          shared.arr[j] := Put(shared.arr[j], f, Changed(t, f, reg, i));
          Goto(t, After(i, j, f));
        }
    }

    // Any schedule of the two threads.
    method Run(rounds: nat, schedule: seq<bool>)
      requires Inv(rounds, View())
      modifies this, shared, shared.arr
      ensures View() == Exec(rounds, old(View()), schedule)
    {
      var k := 0;
      while k < |schedule|
        invariant 0 <= k <= |schedule| && Inv(rounds, View())
        invariant Exec(rounds, View(), schedule[k..]) == Exec(rounds, old(View()), schedule)
      {
        assert schedule[k..][0] == schedule[k] && schedule[k..][1..] == schedule[k + 1..];
        StepInv(rounds, View(), schedule[k]);
        Act(rounds, schedule[k]);
        k := k + 1;
      }
    }
  }

  // main: under every schedule that ends both threads the final check passes.
  method CheckedRun(program: Program, rounds: nat, ghost length: nat, schedule: seq<bool>) returns (passed: bool)
    requires program.View() == Start(length)
    modifies program, program.shared, program.shared.arr
    ensures Finished(rounds, program.View()) ==> passed
  {
    StartInv(rounds, length);
    FinishedZero(rounds, length, schedule);
    program.Run(rounds, schedule);
    passed := program.shared.FinalCheck();
  }

  // ---------- the loops are what the steps of one thread add up to ----------

  function Alone(rounds: nat, s: Sys, t: bool, steps: nat): Sys
    decreases steps
  {
    if steps == 0 then s else Alone(rounds, Step(rounds, s, t), t, steps - 1)
  }

  // The load and the store of one field.
  lemma FieldRuns(rounds: nat, s: Sys, t: bool, i: nat, j: nat, f: Field)
    requires At(s, t) == Loading(i, j, f) && j < |s.arr|
    ensures Step(rounds, Step(rounds, s, t), t)
            == With(s.(arr := s.arr[j := Put(s.arr[j], f, Changed(t, f, Get(s.arr[j], f), i))]), t, After(i, j, f))
  {
  }

  lemma ElementRuns(rounds: nat, s: Sys, t: bool, i: nat, j: nat, n: nat)
    requires At(s, t) == Loading(i, j, One) && j < |s.arr| && n >= 6
    ensures Alone(rounds, s, t, n)
            == Alone(rounds, With(s.(arr := s.arr[j := ChangedElem(t, s.arr[j], i)]), t, Loading(i, j + 1, One)), t, n - 6)
  {
    var e := s.arr[j];
    var s2 := Step(rounds, Step(rounds, s, t), t);
    FieldRuns(rounds, s, t, i, j, One);
    var s4 := Step(rounds, Step(rounds, s2, t), t);
    FieldRuns(rounds, s2, t, i, j, Two);
    var s6 := Step(rounds, Step(rounds, s4, t), t);
    FieldRuns(rounds, s4, t, i, j, Three);
    assert s6 == With(s.(arr := s.arr[j := ChangedElem(t, e, i)]), t, Loading(i, j + 1, One));
    TwoSteps(rounds, s, t, n);
    TwoSteps(rounds, s2, t, n - 2);
    TwoSteps(rounds, s4, t, n - 4);
  }

  lemma TwoSteps(rounds: nat, s: Sys, t: bool, n: nat)
    requires n >= 2
    ensures Alone(rounds, s, t, n) == Alone(rounds, Step(rounds, Step(rounds, s, t), t), t, n - 2)
  {
  }

  // From lock to unlock, the steps of a thread that is not disturbed do its whole loop.
  lemma {:induction false} RoundRuns(rounds: nat, s: Sys, t: bool, i: nat, j: nat)
    requires At(s, t) == Loading(i, j, One) && j <= |s.arr|
    ensures Alone(rounds, s, t, 6 * (|s.arr| - j) + 1)
            == With(s.(arr := ChangedFrom(t, s.arr, j, i), lock := 0), t, Waiting(i + 1))
    decreases |s.arr| - j
  {
    var n := 6 * (|s.arr| - j) + 1;
    if j == |s.arr| {
      assert ChangedFrom(t, s.arr, j, i) == s.arr;
      assert Alone(rounds, s, t, 1) == Alone(rounds, Step(rounds, s, t), t, 0);
    } else {
      var arr' := s.arr[j := ChangedElem(t, s.arr[j], i)];
      ElementRuns(rounds, s, t, i, j, n);
      RoundRuns(rounds, With(s.(arr := arr'), t, Loading(i, j + 1, One)), t, i, j + 1);
      assert ChangedFrom(t, arr', j + 1, i) == ChangedFrom(t, s.arr, j, i);
    }
  }
}
