// Two threads that each increment a shared counter n times (src/core/concurrency/RaceCondition.cpp):
// without synchronisation, where `++` is a load and a later store, under a mutex, and atomically.
// A schedule lists which thread moves next; a turn given to a thread that cannot move is skipped.
module RaceCounter {

  datatype Id = A | B

  // ----- the unsynchronised counter -----

  // A thread that has loaded holds the value it will increment.
  datatype Reg = Empty | Loaded(value: int)

  datatype Thread = Thread(iterations: nat, reg: Reg)

  datatype State = State(counter: int, a: Thread, b: Thread) {
    function Get(t: Id): Thread { if t == A then a else b }

    function Set(t: Id, th: Thread): State {
      if t == A then this.(a := th) else this.(b := th)
    }

    predicate Complete(n: nat) { a.iterations == n && b.iterations == n }
  }

  const INIT := State(0, Thread(0, Empty), Thread(0, Empty))

  function Step(n: nat, s: State, t: Id): State {
    var th := s.Get(t);
    if th.iterations >= n then s
    else match th.reg
      case Empty => s.Set(t, th.(reg := Loaded(s.counter)))
      case Loaded(v) => s.Set(t, Thread(th.iterations + 1, Empty)).(counter := v + 1)
  }

  function Exec(n: nat, s: State, schedule: seq<Id>): State
    decreases schedule
  {
    if schedule == [] then s else Exec(n, Step(n, s, schedule[0]), schedule[1..])
  }

  // A load never sees more than the finished increments; after the first store the counter is
  // positive, and after each thread's second store it is at least 2.
  ghost predicate Inv(n: nat, s: State) {
    && s.a.iterations <= n && s.b.iterations <= n
    && 0 <= s.counter <= s.a.iterations + s.b.iterations
    && (s.a.iterations >= 1 || s.b.iterations >= 1 ==> s.counter >= 1)
    && (s.a.iterations >= 2 && s.b.iterations >= 2 ==> s.counter >= 2)
    && (forall t :: RegInv(s, s.Get(t)))
  }

  predicate RegInv(s: State, th: Thread) {
    th.reg.Loaded? ==>
      && 0 <= th.reg.value <= s.a.iterations + s.b.iterations
      && (th.iterations >= 1 ==> th.reg.value >= 1)
  }

  lemma InvStep(n: nat, s: State, t: Id)
    requires Inv(n, s)
    ensures Inv(n, Step(n, s, t))
  {
    var s' := Step(n, s, t);
    assert RegInv(s, s.Get(t)) && RegInv(s, s.Get(if t == A then B else A));
    forall u ensures RegInv(s', s'.Get(u)) {
      assert RegInv(s, s.Get(u));
    }
  }

  lemma {:induction false} InvExec(n: nat, s: State, schedule: seq<Id>)
    requires Inv(n, s)
    ensures Inv(n, Exec(n, s, schedule))
    decreases schedule
  {
    if schedule != [] {
      InvStep(n, s, schedule[0]);
      InvExec(n, Step(n, s, schedule[0]), schedule[1..]);
    }
  }

  function Least(n: nat): nat { if n <= 2 then n else 2 }

  lemma Bounds(n: nat, schedule: seq<Id>)
    requires Exec(n, INIT, schedule).Complete(n)
    ensures Least(n) <= Exec(n, INIT, schedule).counter <= 2 * n
  {
    InvExec(n, INIT, schedule);
  }

  // ----- schedules that reach every value in between -----

  lemma {:induction false} ExecAppend(n: nat, s: State, p: seq<Id>, q: seq<Id>)
    ensures Exec(n, s, p + q) == Exec(n, Exec(n, s, p), q)
    decreases p
  {
    if p == [] {
      assert p + q == q;
    } else {
      assert (p + q)[1..] == p[1..] + q;
      ExecAppend(n, Step(n, s, p[0]), p[1..], q);
    }
  }

  // k undisturbed iterations of one thread
  function Whole(t: Id, k: nat): seq<Id> {
    if k == 0 then [] else [t, t] + Whole(t, k - 1)
  }

  function Advanced(s: State, t: Id, k: nat): State {
    s.Set(t, Thread(s.Get(t).iterations + k, Empty)).(counter := s.counter + k)
  }

  lemma {:induction false} ExecWhole(n: nat, s: State, t: Id, k: nat)
    requires s.Get(t).reg == Empty && s.Get(t).iterations + k <= n
    ensures Exec(n, s, Whole(t, k)) == Advanced(s, t, k)
    decreases k
  {
    if k > 0 {
      var w := Whole(t, k);
      assert w[1..][1..] == Whole(t, k - 1);
      var s1 := Step(n, Step(n, s, t), t);
      assert s1 == Advanced(s, t, 1);
      ExecWhole(n, s1, t, k - 1);
      assert Exec(n, s, w) == Exec(n, Step(n, s, t), w[1..]) == Exec(n, s1, w[1..][1..]);
    }
  }

  // One thread's load and store enclose `lost` whole iterations of the other, which are lost.
  function LosingUpTo(n: nat, lost: nat): seq<Id>
    requires lost <= n && n >= 1
  {
    [A] + Whole(B, lost) + [A] + Whole(A, n - 1) + Whole(B, n - lost)
  }

  // The other thread's last store then undoes all but `kept` of the first one's iterations too.
  function KeepingOnly(n: nat, kept: nat): seq<Id>
    requires kept + 2 <= n
  {
    [A] + Whole(B, n - 1) + [A] + Whole(A, kept) + [B] + Whole(A, n - 1 - kept) + [B]
  }

  lemma RunLosingUpTo(n: nat, lost: nat)
    requires lost <= n && n >= 1
    ensures var s := Exec(n, INIT, LosingUpTo(n, lost)); s.Complete(n) && s.counter == 2 * n - lost
  {
    var s1 := Step(n, INIT, A);
    ExecAppend(n, INIT, [A], Whole(B, lost));
    ExecWhole(n, s1, B, lost);
    var s2 := Advanced(s1, B, lost);
    ExecAppend(n, INIT, [A] + Whole(B, lost), [A]);
    var s3 := Step(n, s2, A);
    assert s3 == State(1, Thread(1, Empty), Thread(lost, Empty));
    ExecAppend(n, INIT, [A] + Whole(B, lost) + [A], Whole(A, n - 1));
    ExecWhole(n, s3, A, n - 1);
    var s4 := Advanced(s3, A, n - 1);
    ExecAppend(n, INIT, [A] + Whole(B, lost) + [A] + Whole(A, n - 1), Whole(B, n - lost));
    ExecWhole(n, s4, B, n - lost);
  }

  lemma RunKeepingOnly(n: nat, kept: nat)
    requires kept + 2 <= n
    ensures var s := Exec(n, INIT, KeepingOnly(n, kept)); s.Complete(n) && s.counter == 2 + kept
  {
    var p1 := [A] + Whole(B, n - 1);
    var s1 := Step(n, INIT, A);
    ExecAppend(n, INIT, [A], Whole(B, n - 1));
    ExecWhole(n, s1, B, n - 1);
    ExecAppend(n, INIT, p1, [A]);
    var s3 := Step(n, Advanced(s1, B, n - 1), A);
    assert s3 == State(1, Thread(1, Empty), Thread(n - 1, Empty));
    ExecAppend(n, INIT, p1 + [A], Whole(A, kept));
    ExecWhole(n, s3, A, kept);
    ExecAppend(n, INIT, p1 + [A] + Whole(A, kept), [B]);
    var s5 := Step(n, Advanced(s3, A, kept), B);
    assert s5 == State(1 + kept, Thread(1 + kept, Empty), Thread(n - 1, Loaded(1 + kept)));
    ExecAppend(n, INIT, p1 + [A] + Whole(A, kept) + [B], Whole(A, n - 1 - kept));
    ExecWhole(n, s5, A, n - 1 - kept);
    ExecAppend(n, INIT, p1 + [A] + Whole(A, kept) + [B] + Whole(A, n - 1 - kept), [B]);
  }

  ghost predicate Reachable(n: nat, v: int) {
    exists schedule :: Exec(n, INIT, schedule).Complete(n) && Exec(n, INIT, schedule).counter == v
  }

  // The final values of the unsynchronised program are exactly those from min(n, 2) to 2n.
  lemma FinalValues(n: nat, v: int)
    ensures Reachable(n, v) <==> Least(n) <= v <= 2 * n
  {
    if Reachable(n, v) {
      var schedule :| Exec(n, INIT, schedule).Complete(n) && Exec(n, INIT, schedule).counter == v;
      Bounds(n, schedule);
    }
    if Least(n) <= v <= 2 * n {
      if n == 0 {
        assert Exec(0, INIT, []).Complete(0);
      } else if v >= n {
        RunLosingUpTo(n, 2 * n - v);
      } else {
        RunKeepingOnly(n, v - 2);
      }
    }
  }

  // The two threads driven by a schedule, updating the shared variable in place.
  method RunProblem(n: nat, schedule: seq<Id>) returns (global: int, complete: bool)
    ensures global == Exec(n, INIT, schedule).counter
    ensures complete <==> Exec(n, INIT, schedule).Complete(n)
    ensures complete ==> Least(n) <= global <= 2 * n
  {
    global := 0;
    var a, b := Thread(0, Empty), Thread(0, Empty);
    for i := 0 to |schedule|
      invariant Exec(n, State(global, a, b), schedule[i..]) == Exec(n, INIT, schedule)
    {
      var th := if schedule[i] == A then a else b;
      if th.iterations < n {
        if th.reg.Empty? {
          th := th.(reg := Loaded(global));
        } else {
          global := th.reg.value + 1;
          th := Thread(th.iterations + 1, Empty);
        }
        if schedule[i] == A { a := th; } else { b := th; }
      }
      assert schedule[i..][1..] == schedule[i + 1..];
    }
    complete := a.iterations == n && b.iterations == n;
    if complete {
      Bounds(n, schedule);
    }
  }

  // ----- with a mutex -----

  datatype Pc = Outside | Locked | Holding(value: int) | Stored

  datatype Guarded = Guarded(iterations: nat, pc: Pc)

  datatype Mutexed = Mutexed(counter: int, locked: bool, a: Guarded, b: Guarded) {
    function Get(t: Id): Guarded { if t == A then a else b }

    function Set(t: Id, th: Guarded): Mutexed {
      if t == A then this.(a := th) else this.(b := th)
    }

    predicate Complete(n: nat) { a.iterations == n && b.iterations == n }
  }

  const MUTEX_INIT := Mutexed(0, false, Guarded(0, Outside), Guarded(0, Outside))

  predicate CanMove(n: nat, s: Mutexed, t: Id) {
    s.Get(t).iterations < n && (s.Get(t).pc == Outside ==> !s.locked)
  }

  function MutexStep(n: nat, s: Mutexed, t: Id): Mutexed {
    if !CanMove(n, s, t) then s
    else
      var th := s.Get(t);
      match th.pc
      case Outside => s.Set(t, th.(pc := Locked)).(locked := true)
      case Locked => s.Set(t, th.(pc := Holding(s.counter)))
      case Holding(v) => s.Set(t, th.(pc := Stored)).(counter := v + 1)
      case Stored => s.Set(t, Guarded(th.iterations + 1, Outside)).(locked := false)
  }

  function MutexExec(n: nat, s: Mutexed, schedule: seq<Id>): Mutexed
    decreases schedule
  {
    if schedule == [] then s else MutexExec(n, MutexStep(n, s, schedule[0]), schedule[1..])
  }

  // The increments that have reached memory.
  function Stores(th: Guarded): nat { th.iterations + if th.pc == Stored then 1 else 0 }

  ghost predicate MutexInv(n: nat, s: Mutexed) {
    && s.counter == Stores(s.a) + Stores(s.b)
    && (s.locked <==> s.a.pc != Outside || s.b.pc != Outside)
    && (s.a.pc == Outside || s.b.pc == Outside)
    && (forall t :: s.Get(t).iterations <= n)
    && (forall t :: s.Get(t).pc != Outside ==> s.Get(t).iterations < n)
    && (forall t :: s.Get(t).pc.Holding? ==> s.Get(t).pc.value == s.counter)
  }

  lemma MutexInvStep(n: nat, s: Mutexed, t: Id)
    requires MutexInv(n, s)
    ensures MutexInv(n, MutexStep(n, s, t))
  {
    var s' := MutexStep(n, s, t);
    var other := if t == A then B else A;
    assert s'.Get(other) == s.Get(other);
    forall u
      ensures s'.Get(u).iterations <= n
      ensures s'.Get(u).pc != Outside ==> s'.Get(u).iterations < n
      ensures s'.Get(u).pc.Holding? ==> s'.Get(u).pc.value == s'.counter
    {
      assert u == t || u == other;
    }
  }

  lemma {:induction false} MutexInvExec(n: nat, s: Mutexed, schedule: seq<Id>)
    requires MutexInv(n, s)
    ensures MutexInv(n, MutexExec(n, s, schedule))
    decreases schedule
  {
    if schedule != [] {
      MutexInvStep(n, s, schedule[0]);
      MutexInvExec(n, MutexStep(n, s, schedule[0]), schedule[1..]);
    }
  }

  // With the mutex every complete schedule ends at exactly 2n, and no schedule can get stuck.
  lemma MutexCounts(n: nat, schedule: seq<Id>)
    ensures var s := MutexExec(n, MUTEX_INIT, schedule);
      && (s.Complete(n) ==> s.counter == 2 * n)
      && (!s.Complete(n) ==> exists t :: CanMove(n, s, t))
  {
    assert MutexInv(n, MUTEX_INIT);
    MutexInvExec(n, MUTEX_INIT, schedule);
    var s := MutexExec(n, MUTEX_INIT, schedule);
    assert s.Get(A) == s.a && s.Get(B) == s.b;
    if !s.Complete(n) {
      var t := if s.a.pc != Outside then A else if s.b.pc != Outside then B
               else if s.a.iterations < n then A else B;
      assert s.Get(A).iterations <= n && s.Get(B).iterations <= n;
      assert CanMove(n, s, t);
    }
  }

  // ----- atomically -----

  datatype Atomic = Atomic(counter: int, a: nat, b: nat)

  function AtomicStep(n: nat, s: Atomic, t: Id): Atomic {
    match t
    case A => if s.a < n then Atomic(s.counter + 1, s.a + 1, s.b) else s
    case B => if s.b < n then Atomic(s.counter + 1, s.a, s.b + 1) else s
  }

  function AtomicExec(n: nat, s: Atomic, schedule: seq<Id>): Atomic
    decreases schedule
  {
    if schedule == [] then s else AtomicExec(n, AtomicStep(n, s, schedule[0]), schedule[1..])
  }

  lemma {:induction false} AtomicCounts(n: nat, s: Atomic, schedule: seq<Id>)
    requires s.counter == s.a + s.b && s.a <= n && s.b <= n
    ensures var r := AtomicExec(n, s, schedule);
      r.counter == r.a + r.b && (r.a == n && r.b == n ==> r.counter == 2 * n)
    decreases schedule
  {
    if schedule != [] {
      AtomicCounts(n, AtomicStep(n, s, schedule[0]), schedule[1..]);
    }
  }

  // Each mutex step is one atomic increment (the store) or none: the mutex version refines the
  // atomic one.
  function Abstraction(s: Mutexed): Atomic { Atomic(s.counter, Stores(s.a), Stores(s.b)) }

  function Commits(n: nat, s: Mutexed, schedule: seq<Id>): seq<Id>
    decreases schedule
  {
    if schedule == [] then []
    else
      var t := schedule[0];
      (if CanMove(n, s, t) && s.Get(t).pc.Holding? then [t] else [])
      + Commits(n, MutexStep(n, s, t), schedule[1..])
  }

  lemma {:induction false} MutexRefinesAtomic(n: nat, s: Mutexed, schedule: seq<Id>)
    requires MutexInv(n, s)
    ensures Abstraction(MutexExec(n, s, schedule))
         == AtomicExec(n, Abstraction(s), Commits(n, s, schedule))
    decreases schedule
  {
    if schedule != [] {
      var t := schedule[0];
      var s' := MutexStep(n, s, t);
      MutexInvStep(n, s, t);
      MutexRefinesAtomic(n, s', schedule[1..]);
      var rest := Commits(n, s', schedule[1..]);
      if CanMove(n, s, t) && s.Get(t).pc.Holding? {
        assert Abstraction(s') == AtomicStep(n, Abstraction(s), t);
        assert Commits(n, s, schedule) == [t] + rest;
        assert ([t] + rest)[1..] == rest;
      } else {
        assert Abstraction(s') == Abstraction(s);
        assert Commits(n, s, schedule) == rest;
      }
    }
  }
}
