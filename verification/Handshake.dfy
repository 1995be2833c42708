// The two-thread handshake of src/core/concurrency/ConditionVariable.cpp as a step system: one
// mutex, one condition variable used in both directions, notifications that are lost when nobody
// waits, and spurious wakeups. `cv.wait(lock, p)` is the loop `while (!p()) wait(lock)`.
module Handshake {

  datatype Thread = Main | Worker

  datatype MainPc =
    | Spawn | Lock1 | SetData | SetReady | Unlock1 | Notify1
    | Lock2 | Check | Waiting | Reacquire | Unlock2 | Report | Join | Done

  datatype WorkerPc =
    | NotStarted | WLock | WCheck | WWaiting | WReacquire
    | Process | SetFinish | Notify | Unlock | WDone

  datatype Owner = Free | HeldBy(thread: Thread)

  datatype State = State(
    main: MainPc, worker: WorkerPc, owner: Owner,
    data: string, ready: bool, finish: bool, log: seq<string>)

  const MESSAGE := "THIS IS A PRIVATE KEY: ABCxyz123"
  const SUFFIX := " after processing"

  const INIT := State(Spawn, NotStarted, Free, "", false, false, [])

  // The next step of a thread (`pick` says which waiter a notify_one wakes) or a spurious wakeup.
  datatype Action = Run(thread: Thread, pick: Thread) | Spurious(thread: Thread)

  function Waiters(s: State): set<Thread> {
    (if s.main == Waiting then {Main} else {}) + (if s.worker == WWaiting then {Worker} else {})
  }

  // A woken thread still has to reacquire the mutex.
  function Wake(s: State, t: Thread): State {
    match t
    case Main => s.(main := Reacquire)
    case Worker => s.(worker := WReacquire)
  }

  function NotifyOne(s: State, pick: Thread): State {
    if Waiters(s) == {} then s else Wake(s, pick)
  }

  predicate Enabled(s: State, a: Action) {
    match a
    case Spurious(t) => t in Waiters(s)
    case Run(Main, pick) =>
      (match s.main
       case Lock1 | Lock2 | Reacquire => s.owner == Free
       case Notify1 => Waiters(s) != {} ==> pick in Waiters(s)
       case Waiting | Done => false
       case Join => s.worker == WDone
       case _ => true)
    case Run(Worker, pick) =>
      (match s.worker
       case WLock | WReacquire => s.owner == Free
       case Notify => Waiters(s) != {} ==> pick in Waiters(s)
       case NotStarted | WWaiting | WDone => false
       case _ => true)
  }

  function MainStep(s: State, pick: Thread): State {
    match s.main
    case Spawn => s.(main := Lock1, worker := WLock)
    case Lock1 => s.(main := SetData, owner := HeldBy(Main))
    case SetData => s.(main := SetReady, data := MESSAGE)
    case SetReady => s.(main := Unlock1, ready := true)
    case Unlock1 => s.(main := Notify1, owner := Free)
    case Notify1 => NotifyOne(s, pick).(main := Lock2)
    case Lock2 | Reacquire => s.(main := Check, owner := HeldBy(Main))
    case Check => if s.finish then s.(main := Unlock2) else s.(main := Waiting, owner := Free)
    case Unlock2 => s.(main := Report, owner := Free)
    case Report => s.(main := Join, log := s.log + [s.data])
    case Join => s.(main := Done)
    case Waiting | Done => s
  }

  function WorkerStep(s: State, pick: Thread): State {
    match s.worker
    case WLock | WReacquire => s.(worker := WCheck, owner := HeldBy(Worker))
    case WCheck => if s.ready then s.(worker := Process) else s.(worker := WWaiting, owner := Free)
    case Process => s.(worker := SetFinish, data := s.data + SUFFIX)
    case SetFinish => s.(worker := Notify, finish := true)
    case Notify => NotifyOne(s, pick).(worker := Unlock)
    case Unlock => s.(worker := WDone, owner := Free)
    case NotStarted | WWaiting | WDone => s
  }

  function Apply(s: State, a: Action): State {
    match a
    case Spurious(t) => Wake(s, t)
    case Run(Main, pick) => MainStep(s, pick)
    case Run(Worker, pick) => WorkerStep(s, pick)
  }

  // ----- runs -----

  ghost predicate Legal(run: seq<Action>)
    decreases |run|, 0
  {
    run != [] ==>
      Legal(run[..|run| - 1]) && Enabled(After(run[..|run| - 1]), run[|run| - 1])
  }

  ghost function After(run: seq<Action>): State
    requires Legal(run)
    decreases |run|, 1
  {
    if run == [] then INIT else Apply(After(run[..|run| - 1]), run[|run| - 1])
  }

  function SpuriousCount(run: seq<Action>): nat {
    if run == [] then 0
    else SpuriousCount(run[..|run| - 1]) + if run[|run| - 1].Spurious? then 1 else 0
  }

  // ----- the invariant of every run -----

  predicate MainHolds(s: State) { s.main in {SetData, SetReady, Unlock1, Check, Unlock2} }

  predicate WorkerHolds(s: State) { s.worker in {WCheck, Process, SetFinish, Notify, Unlock} }

  predicate BeforeReady(s: State) { s.main in {Spawn, Lock1, SetData, SetReady} }

  predicate Processed(s: State) { s.worker in {SetFinish, Notify, Unlock, WDone} }

  ghost predicate Inv(s: State) {
    && (s.owner == HeldBy(Main) <==> MainHolds(s))
    && (s.owner == HeldBy(Worker) <==> WorkerHolds(s))
    && (s.worker == NotStarted <==> s.main == Spawn)
    && (s.ready <==> !BeforeReady(s))
    && (s.finish <==> s.worker in {Notify, Unlock, WDone})
    && (s.worker == Process || Processed(s) ==> s.ready)
    && (s.worker == WWaiting ==> BeforeReady(s) || s.main in {Unlock1, Notify1})
    && (s.main == Waiting ==> s.worker !in {Unlock, WDone})
    && (s.main in {Unlock2, Report, Join, Done} ==> s.worker == WDone)
    && s.data == (if s.main in {Spawn, Lock1, SetData} then ""
                  else if Processed(s) then MESSAGE + SUFFIX else MESSAGE)
    && s.log == if s.main in {Join, Done} then [MESSAGE + SUFFIX] else []
  }

  lemma InvStep(s: State, a: Action)
    requires Inv(s) && Enabled(s, a)
    ensures Inv(Apply(s, a))
  {
  }

  lemma {:induction false} InvHolds(run: seq<Action>)
    requires Legal(run)
    ensures Inv(After(run))
  {
    if run != [] {
      InvHolds(run[..|run| - 1]);
      InvStep(After(run[..|run| - 1]), run[|run| - 1]);
    }
  }

  // ----- safety -----

  predicate Finished(s: State) { s.main == Done }

  // The thread's next step reads or writes data, ready or finish.
  predicate Touches(s: State, t: Thread) {
    match t
    case Main => s.main in {SetData, SetReady, Check, Report}
    case Worker => s.worker in {WCheck, Process, SetFinish}
  }

  predicate Alive(s: State, t: Thread) {
    match t
    case Main => s.main != Done
    case Worker => s.worker !in {NotStarted, WDone}
  }

  function Other(t: Thread): Thread { if t == Main then Worker else Main }

  // In every run: a thread touches the shared variables only with the mutex, or when the other
  // thread does not run; at most one thread waits; the log is at most the processed message.
  lemma Safe(run: seq<Action>)
    requires Legal(run)
    ensures var s := After(run);
      && (forall t :: Touches(s, t) && Alive(s, Other(t)) ==> s.owner == HeldBy(t))
      && |Waiters(s)| <= 1
      && (s.log == [] || s.log == [MESSAGE + SUFFIX])
      && (Finished(s) ==> s.log == [MESSAGE + SUFFIX] && s.worker == WDone && s.owner == Free)
  {
    InvHolds(run);
  }

  lemma WhatIsLogged()
    ensures MESSAGE + SUFFIX == "THIS IS A PRIVATE KEY: ABCxyz123 after processing"
  {
  }

  // ----- progress and termination -----

  // No deadlock and no lost wakeup: an unfinished run can go on without any spurious wakeup.
  lemma Progress(run: seq<Action>) returns (a: Action)
    requires Legal(run) && !Finished(After(run))
    ensures a.Run? && Enabled(After(run), a)
  {
    InvHolds(run);
    a := NextAction(After(run));
  }

  lemma NextAction(s: State) returns (a: Action)
    requires Inv(s) && !Finished(s)
    ensures a.Run? && Enabled(s, a)
  {
    var pick := if s.main == Waiting then Main else Worker;
    a := Run(if Enabled(s, Run(Main, pick)) then Main else Worker, pick);
  }

  function MainRank(pc: MainPc): nat {
    match pc
    case Spawn => 16 case Lock1 => 15 case SetData => 14 case SetReady => 13
    case Unlock1 => 12 case Notify1 => 11 case Lock2 => 7 case Reacquire => 6 case Check => 5
    case Waiting => 4 case Unlock2 => 3 case Report => 2 case Join => 1 case Done => 0
  }

  function WorkerRank(pc: WorkerPc): nat {
    match pc
    case NotStarted => 12 case WLock => 11 case WReacquire => 10 case WCheck => 9
    case WWaiting => 8 case Process => 7 case SetFinish => 6 case Notify => 5
    case Unlock => 1 case WDone => 0
  }

  function Rank(s: State): nat { MainRank(s.main) + WorkerRank(s.worker) }

  // Every step lowers the rank; a spurious wakeup raises it by two.
  lemma RankStep(s: State, a: Action)
    requires Inv(s) && Enabled(s, a)
    ensures a.Run? ==> Rank(Apply(s, a)) < Rank(s)
    ensures a.Spurious? ==> Rank(Apply(s, a)) == Rank(s) + 2
  {
  }

  lemma {:induction false} RunBound(run: seq<Action>)
    requires Legal(run)
    ensures |run| + Rank(After(run)) <= 28 + 3 * SpuriousCount(run)
  {
    if run != [] {
      RunBound(run[..|run| - 1]);
      InvHolds(run[..|run| - 1]);
      RankStep(After(run[..|run| - 1]), run[|run| - 1]);
    }
  }

  // Every run with k spurious wakeups has at most 28 + 3k steps, and one that cannot go on
  // without another spurious wakeup has logged exactly the processed message and joined.
  lemma EveryRunCompletes(run: seq<Action>)
    requires Legal(run)
    ensures |run| <= 28 + 3 * SpuriousCount(run)
    ensures (forall a: Action :: a.Run? ==> !Enabled(After(run), a)) <==> Finished(After(run))
    ensures Finished(After(run)) ==> After(run).log == [MESSAGE + SUFFIX]
  {
    RunBound(run);
    Safe(run);
    InvHolds(run);
    if !Finished(After(run)) {
      var a := Progress(run);
    }
  }

  // The scheduler picks any enabled step; a spurious wakeup only while the budget lasts.
  method Schedule(s: State, budget: nat) returns (a: Action)
    requires Inv(s) && !Finished(s)
    ensures Enabled(s, a) && (a.Spurious? ==> budget > 0)
  {
    ghost var next := NextAction(s);
    a :| Enabled(s, a) && (a.Spurious? ==> budget > 0);
  }

  // The program under an arbitrary scheduler that allows at most `spurious` spurious wakeups.
  method Execute(spurious: nat) returns (log: seq<string>)
    ensures log == [MESSAGE + SUFFIX]
  {
    var s, budget := INIT, spurious;
    while !Finished(s)
      invariant Inv(s)
      decreases Rank(s) + 3 * budget
    {
      var a := Schedule(s, budget);
      InvStep(s, a);
      RankStep(s, a);
      if a.Spurious? {
        budget := budget - 1;
      }
      s := Apply(s, a);
    }
    log := s.log;
  }
}
