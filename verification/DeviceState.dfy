// The devices of src/dp/behavioral/State.cpp, whose processing states share one static counter.
module DeviceState {
  import opened Common

  datatype Kind = Idle | Processing | Error

  // Any number of devices, the shared `index`, and how each processing so far ended.
  datatype Fleet = Fleet(states: seq<Kind>, index: nat, outcomes: seq<Outcome>)

  // One processing: which device, and whether it went well.
  datatype Outcome = Outcome(device: nat, ok: bool)

  // The state that `handle` installs; only a processing state reads and moves the counter.
  function Next(kind: Kind, index: nat): Kind {
    match kind
    case Idle => Processing
    case Error => Idle
    case Processing => if (index + 1) % 2 == 0 then Idle else Error
  }

  function Ticks(kind: Kind): nat {
    if kind == Processing then 1 else 0
  }

  function Logged(kind: Kind, index: nat, d: nat): seq<Outcome> {
    if kind == Processing then [Outcome(d, (index + 1) % 2 == 0)] else []
  }

  // One operation on device d.
  function Step(f: Fleet, d: nat): Fleet
    requires d < |f.states|
  {
    var k := f.states[d];
    Fleet(f.states[d := Next(k, f.index)], f.index + Ticks(k), f.outcomes + Logged(k, f.index, d))
  }

  ghost predicate Known(f: Fleet, schedule: seq<nat>) {
    forall k :: 0 <= k < |schedule| ==> schedule[k] < |f.states|
  }

  function Run(f: Fleet, schedule: seq<nat>): (r: Fleet)
    requires Known(f, schedule)
    ensures |r.states| == |f.states|
    decreases schedule
  {
    if schedule == [] then f
    else Run(Step(f, schedule[0]), schedule[1..])
  }

  lemma {:induction false} RunJoin(f: Fleet, a: seq<nat>, b: seq<nat>)
    requires Known(f, a) && Known(f, b)
    ensures Known(f, a + b)
    ensures Run(f, a + b) == Run(Run(f, a), b)
    decreases a
  {
    if a == [] {
      assert a + b == b;
    } else {
      RunJoin(Step(f, a[0]), a[1..], b);
      assert (a + b)[1..] == a[1..] + b;
    }
  }

  // ----- any number of devices, any schedule -----

  function Count(outcomes: seq<Outcome>, ok: bool): nat {
    if outcomes == [] then 0
    else Count(outcomes[..|outcomes| - 1], ok) + if outcomes[|outcomes| - 1].ok == ok then 1 else 0
  }

  // Outcomes alternate over the whole fleet, starting with a failure.
  ghost predicate Alternates(f: Fleet) {
    && |f.outcomes| == f.index
    && forall k :: 0 <= k < f.index ==> f.outcomes[k].ok == (k % 2 == 1)
  }

  lemma {:induction false} AlternatesRun(f: Fleet, schedule: seq<nat>)
    requires Known(f, schedule) && Alternates(f)
    ensures Alternates(Run(f, schedule))
    decreases schedule
  {
    if schedule != [] {
      AlternatesRun(Step(f, schedule[0]), schedule[1..]);
    }
  }

  lemma {:induction false} CountAlternating(outcomes: seq<Outcome>)
    requires forall k :: 0 <= k < |outcomes| ==> outcomes[k].ok == (k % 2 == 1)
    ensures Count(outcomes, false) == (|outcomes| + 1) / 2
    ensures Count(outcomes, true) == |outcomes| / 2
  {
    if outcomes != [] {
      CountAlternating(outcomes[..|outcomes| - 1]);
    }
  }

  // Whatever the devices' states and the schedule, failures are the larger half.
  lemma ErrorsAndSuccesses(states: seq<Kind>, schedule: seq<nat>)
    requires Known(Fleet(states, 0, []), schedule)
    ensures var r := Run(Fleet(states, 0, []), schedule);
      Count(r.outcomes, false) == (r.index + 1) / 2 && Count(r.outcomes, true) == r.index / 2
  {
    var f := Fleet(states, 0, []);
    AlternatesRun(f, schedule);
    CountAlternating(Run(f, schedule).outcomes);
  }

  // ----- one device alone: a period of five -----

  function Repeat(block: seq<nat>, n: nat): seq<nat> {
    if n == 0 then [] else Repeat(block, n - 1) + block
  }

  lemma {:induction false} RepeatKnown(f: Fleet, block: seq<nat>, n: nat)
    requires Known(f, block)
    ensures Known(f, Repeat(block, n))
  {
    if n > 0 {
      RepeatKnown(f, block, n - 1);
    }
  }

  function Phase(r: nat): Kind {
    match r % 5 case 0 => Idle case 1 => Processing case 2 => Error case 3 => Idle case _ => Processing
  }

  function IndexAfter(n: nat): nat {
    2 * (n / 5) + if n % 5 >= 2 then 1 else 0
  }

  // n operations on one idle device of any fleet with an even counter, and none on the others.
  lemma {:induction false} PeriodFive(f: Fleet, d: nat, n: nat)
    requires d < |f.states| && f.states[d] == Idle && f.index % 2 == 0
    ensures Known(f, Repeat([d], n))
    ensures Run(f, Repeat([d], n)).states == f.states[d := Phase(n)]
    ensures Run(f, Repeat([d], n)).index == f.index + IndexAfter(n)
  {
    RepeatKnown(f, [d], n);
    if n > 0 {
      var t := Repeat([d], n - 1);
      PeriodFive(f, d, n - 1);
      RunJoin(f, t, [d]);
      RunOne(Run(f, t), d);
      NextIndex(n);
    }
  }

  lemma NextIndex(n: nat)
    requires n > 0
    ensures IndexAfter(n) == IndexAfter(n - 1) + if Phase(n - 1) == Processing then 1 else 0
    ensures Phase(n - 1) == Processing ==> Phase(n) == if IndexAfter(n) % 2 == 0 then Idle else Error
    ensures Phase(n - 1) == Idle ==> Phase(n) == Processing
    ensures Phase(n - 1) == Error ==> Phase(n) == Idle
  {
    assert n == 5 * (n / 5) + n % 5;
    if n % 5 == 0 {
      assert (n - 1) / 5 == n / 5 - 1 && (n - 1) % 5 == 4;
    } else {
      assert (n - 1) / 5 == n / 5 && (n - 1) % 5 == n % 5 - 1;
    }
  }

  // ----- sharing the counter is unfair -----

  // In any fleet, two idle devices taking turns: a fails every time and b never does.
  lemma {:induction false} SharedIndexIsUnfair(f: Fleet, a: nat, b: nat, n: nat)
    requires a < |f.states| && b < |f.states| && a != b
    requires f.states[a] == f.states[b] == Idle && f.index % 2 == 0
    ensures var turns := Repeat([a, a, a, b, b], n);
      && Known(f, turns)
      && Run(f, turns) == Fleet(f.states, f.index + 2 * n, f.outcomes + Unfair(a, b, n))
  {
    var turn := [a, a, a, b, b];
    RepeatKnown(f, turn, n);
    if n == 0 {
      assert f.outcomes + Unfair(a, b, 0) == f.outcomes;
    } else {
      SharedIndexIsUnfair(f, a, b, n - 1);
      RunJoin(f, Repeat(turn, n - 1), turn);
      var g := Run(f, Repeat(turn, n - 1));
      Turn(g, a, b);
      AppendAssociative(f.outcomes, Unfair(a, b, n - 1), [Outcome(a, false), Outcome(b, true)]);
    }
  }

  function Unfair(a: nat, b: nat, n: nat): seq<Outcome> {
    if n == 0 then [] else Unfair(a, b, n - 1) + [Outcome(a, false), Outcome(b, true)]
  }

  lemma Turn(f: Fleet, a: nat, b: nat)
    requires a < |f.states| && b < |f.states| && a != b
    requires f.states[a] == f.states[b] == Idle && f.index % 2 == 0
    ensures Run(f, [a, a, a, b, b])
         == Fleet(f.states, f.index + 2, f.outcomes + [Outcome(a, false), Outcome(b, true)])
  {
    var f3 := f.(index := f.index + 1, outcomes := f.outcomes + [Outcome(a, false)]);
    TurnFails(f, a);
    RunTwo(f3, b);
    TurnSucceeds(f3, b);
    RunJoin(f, [a, a, a], [b, b]);
    assert [a, a, a] + [b, b] == [a, a, a, b, b];
    assert f3.outcomes + [Outcome(b, true)] == f.outcomes + [Outcome(a, false), Outcome(b, true)];
  }

  lemma TurnFails(f: Fleet, a: nat)
    requires a < |f.states| && f.states[a] == Idle && f.index % 2 == 0
    ensures Run(f, [a, a, a]) == f.(index := f.index + 1, outcomes := f.outcomes + [Outcome(a, false)])
  {
    RunThree(f, a);
    assert Step(Step(Step(f, a), a), a).states == f.states;
  }

  lemma TurnSucceeds(f: Fleet, b: nat)
    requires b < |f.states| && f.states[b] == Idle && f.index % 2 == 1
    ensures Run(f, [b, b]) == f.(index := f.index + 1, outcomes := f.outcomes + [Outcome(b, true)])
  {
    RunTwo(f, b);
    assert Step(Step(f, b), b).states == f.states;
  }

  lemma RunOne(f: Fleet, d: nat)
    requires d < |f.states|
    ensures Run(f, [d]) == Step(f, d)
  {
    assert [d][1..] == [];
  }

  lemma RunTwo(f: Fleet, d: nat)
    requires d < |f.states|
    ensures Run(f, [d, d]) == Step(Step(f, d), d)
  {
    RunOne(f, d);
    RunOne(Step(f, d), d);
    RunJoin(f, [d], [d]);
    assert [d] + [d] == [d, d];
  }

  lemma RunThree(f: Fleet, d: nat)
    requires d < |f.states|
    ensures Run(f, [d, d, d]) == Step(Step(Step(f, d), d), d)
  {
    RunTwo(f, d);
    RunOne(Step(Step(f, d), d), d);
    RunJoin(f, [d, d], [d]);
    assert [d, d] + [d] == [d, d, d];
  }

  // ----- the objects -----

  // The state objects allocated and not yet deleted, the static counter, and its history.
  class Memory {
    var live: set<State>
    var index: nat
    ghost var outcomes: seq<Outcome>

    constructor ()
      ensures live == {} && index == 0 && outcomes == []
    {
      live, index, outcomes := {}, 0, [];
    }

    method New(kind: Kind) returns (s: State)
      modifies this`live
      ensures fresh(s) && s.kind == kind && live == old(live) + {s}
    {
      s := new State(kind);
      live := live + {s};
    }

    method Delete(s: State)
      requires s in live
      modifies this`live
      ensures live == old(live) - {s}
    {
      live := live - {s};
    }
  }

  class State {
    const kind: Kind
    var ctx: DeviceContext?

    constructor (kind: Kind)
      ensures this.kind == kind && ctx == null
    {
      this.kind, ctx := kind, null;
    }

    // Replaces itself in its device; afterwards it no longer exists.
    method Handle(mem: Memory, ghost d: nat)
      requires ctx != null && ctx.state == this && this in mem.live
      modifies mem, ctx
      ensures ctx == old(ctx) && ctx.state != null && fresh(ctx.state) && ctx.state.ctx == ctx
      ensures mem.live == old(mem.live) - {this} + {ctx.state}
      ensures ctx.state.kind == Next(kind, old(mem.index))
      ensures mem.index == old(mem.index) + Ticks(kind)
      ensures mem.outcomes == old(mem.outcomes) + Logged(kind, old(mem.index), d)
    {
      match kind {
        case Idle =>
          var next := mem.New(Processing);
          ctx.ChangeState(mem, next);
        case Error =>
          var next := mem.New(Idle);
          ctx.ChangeState(mem, next);
        case Processing =>
          mem.index := mem.index + 1;
          var ok := mem.index % 2 == 0;
          mem.outcomes := mem.outcomes + [Outcome(d, ok)];
          if ok {
            var next := mem.New(Idle);
            ctx.ChangeState(mem, next);
          } else {
            var next := mem.New(Error);
            ctx.ChangeState(mem, next);
          }
      }
    }
  }

  class DeviceContext {
    var state: State?

    constructor (mem: Memory, first: State)
      requires first in mem.live
      modifies mem`live, first
      ensures state == first && first.ctx == this && mem.live == old(mem.live)
    {
      state := null;
      new;
      ChangeState(mem, first);
    }

    method ChangeState(mem: Memory, next: State)
      requires next in mem.live && next != state
      requires state != null ==> state in mem.live
      modifies mem`live, this, next
      ensures state == next && next.ctx == this
      ensures mem.live == old(mem.live) - (if old(state) == null then {} else {old(state)})
    {
      if state != null {
        mem.Delete(state);
      }
      state := next;
      state.ctx := this;
    }

    method Operation(mem: Memory, ghost d: nat)
      requires state != null && state.ctx == this && state in mem.live
      modifies mem, this
      ensures state != null && fresh(state) && state.ctx == this
      ensures mem.live == old(mem.live) - {old(state)} + {state}
      ensures state.kind == Next(old(state.kind), old(mem.index))
      ensures mem.index == old(mem.index) + Ticks(old(state.kind))
      ensures mem.outcomes == old(mem.outcomes) + Logged(old(state.kind), old(mem.index), d)
    {
      state.Handle(mem, d);
    }

    method Destroy(mem: Memory)
      requires state != null && state in mem.live
      modifies mem`live
      ensures mem.live == old(mem.live) - {state}
    {
      mem.Delete(state);
    }
  }

  // Every device has one live state object, which knows it, and no other one is live.
  ghost predicate OneEach(mem: Memory, devices: seq<DeviceContext>)
    reads mem, devices, mem.live
  {
    && (forall i :: 0 <= i < |devices| ==>
          devices[i].state != null && devices[i].state in mem.live && devices[i].state.ctx == devices[i])
    && (forall s :: s in mem.live ==> s.ctx != null && s.ctx in devices && s.ctx.state == s)
    && (forall i, j :: 0 <= i < j < |devices| ==> devices[i] != devices[j])
  }

  ghost predicate Shows(f: Fleet, mem: Memory, devices: seq<DeviceContext>)
    requires OneEach(mem, devices)
    reads mem, devices, mem.live
  {
    && |f.states| == |devices| && f.index == mem.index && f.outcomes == mem.outcomes
    && forall i :: 0 <= i < |devices| ==> f.states[i] == devices[i].state.kind
  }

  function AllIdle(n: nat): seq<Kind> {
    seq(n, _ => Idle)
  }

  // clientCode on device d.
  method Client(mem: Memory, devices: seq<DeviceContext>, d: nat, ghost f: Fleet)
    requires OneEach(mem, devices) && Shows(f, mem, devices) && d < |devices|
    modifies mem, devices[d]
    ensures OneEach(mem, devices) && Shows(Step(f, d), mem, devices)
    ensures fresh(mem.live - old(mem.live))
  {
    devices[d].Operation(mem, d);
  }

  // Deleting the devices deletes their states, each once.
  method DeleteAll(mem: Memory, devices: seq<DeviceContext>)
    requires OneEach(mem, devices)
    modifies mem`live
    ensures mem.live == {}
  {
    for i := 0 to |devices|
      invariant OneEach(mem, devices[i..])
    {
      assert devices[i..][0] == devices[i] && devices[i..][1..] == devices[i + 1..];
      devices[i].Destroy(mem);
    }
    assert devices[|devices|..] == [];
  }

  method MakeAll(mem: Memory, count: nat) returns (devices: seq<DeviceContext>)
    requires mem.live == {}
    modifies mem`live
    ensures fresh(mem.live) && (forall d :: d in devices ==> fresh(d))
    ensures |devices| == count && OneEach(mem, devices)
    ensures Shows(Fleet(AllIdle(count), mem.index, mem.outcomes), mem, devices)
  {
    devices := [];
    while |devices| < count
      invariant |devices| <= count
      invariant fresh(mem.live) && (forall d :: d in devices ==> fresh(d))
      invariant OneEach(mem, devices)
      invariant Shows(Fleet(AllIdle(|devices|), mem.index, mem.outcomes), mem, devices)
    {
      var device := MakeOne(mem, devices);
      devices := devices + [device];
    }
  }

  method MakeOne(mem: Memory, ghost devices: seq<DeviceContext>) returns (device: DeviceContext)
    requires OneEach(mem, devices)
    requires Shows(Fleet(AllIdle(|devices|), mem.index, mem.outcomes), mem, devices)
    modifies mem`live
    ensures fresh(device) && fresh(mem.live - old(mem.live))
    ensures OneEach(mem, devices + [device])
    ensures Shows(Fleet(AllIdle(|devices| + 1), mem.index, mem.outcomes), mem, devices + [device])
  {
    var first := mem.New(Idle);
    device := new DeviceContext(mem, first);
  }

  method OperateAll(mem: Memory, devices: seq<DeviceContext>, schedule: seq<nat>, ghost f: Fleet)
    requires OneEach(mem, devices) && Shows(f, mem, devices) && Known(f, schedule)
    modifies mem, devices
    ensures OneEach(mem, devices) && Shows(Run(f, schedule), mem, devices)
  {
    ghost var g := f;
    for i := 0 to |schedule|
      invariant OneEach(mem, devices) && Shows(g, mem, devices)
      invariant Known(g, schedule[i..]) && Run(g, schedule[i..]) == Run(f, schedule)
    {
      assert schedule[i..][0] == schedule[i] && schedule[i..][1..] == schedule[i + 1..];
      Client(mem, devices, schedule[i], g);
      g := Step(g, schedule[i]);
    }
  }

  // Devices are made idle, operated by the schedule and deleted; nothing of theirs stays behind.
  method RunDevices(count: nat, schedule: seq<nat>) returns (kinds: seq<Kind>, mem: Memory)
    requires Known(Fleet(AllIdle(count), 0, []), schedule)
    ensures Fleet(kinds, mem.index, mem.outcomes) == Run(Fleet(AllIdle(count), 0, []), schedule)
    ensures mem.live == {}
  {
    mem := new Memory();
    var devices := MakeAll(mem, count);
    OperateAll(mem, devices, schedule, Fleet(AllIdle(count), 0, []));
    ghost var f := Run(Fleet(AllIdle(count), 0, []), schedule);
    kinds := [];
    for i := 0 to |devices|
      invariant |kinds| == i && forall k :: 0 <= k < i ==> kinds[k] == f.states[k]
    {
      kinds := kinds + [devices[i].state.kind];
    }
    assert kinds == f.states;
    DeleteAll(mem, devices);
  }
}
