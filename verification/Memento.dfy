// The undo stack of src/dp/behavioral/Memento.cpp.
module Memento {

  // A saved state; `id` tells one allocation from another.
  datatype Snapshot = Snapshot(id: nat, state: string)

  // What a client does: back up, change the state to anything, undo.
  datatype Action = Backup | Change(state: string) | Undo

  // The originator's state, the caretaker's stack, and the snapshots made and freed so far.
  datatype Editor = Editor(state: string, stack: seq<Snapshot>, made: nat, freed: set<nat>)

  function Apply(e: Editor, a: Action): Editor {
    match a
    case Backup => e.(stack := e.stack + [Snapshot(e.made, e.state)], made := e.made + 1)
    case Change(s) => e.(state := s)
    case Undo =>
      if e.stack == [] then e
      else
        var top := e.stack[|e.stack| - 1];
        e.(state := top.state, stack := e.stack[..|e.stack| - 1], freed := e.freed + {top.id})
  }

  function Run(e: Editor, actions: seq<Action>): Editor
    decreases actions
  {
    if actions == [] then e else Run(Apply(e, actions[0]), actions[1..])
  }

  // ----- undo restores -----

  // Backups minus undos, and no prefix has more undos than backups.
  function Depth(actions: seq<Action>): int {
    if actions == [] then 0
    else Depth(actions[..|actions| - 1]) + Weight(actions[|actions| - 1])
  }

  function Weight(a: Action): int {
    match a case Backup => 1 case Change(_) => 0 case Undo => -1
  }

  ghost predicate NeverBelow(actions: seq<Action>) {
    forall n :: 0 <= n <= |actions| ==> Depth(actions[..n]) >= 0
  }

  lemma {:induction false} RunSnoc(e: Editor, actions: seq<Action>, a: Action)
    ensures Run(e, actions + [a]) == Apply(Run(e, actions), a)
    decreases actions
  {
    if actions == [] {
      assert [a][1..] == [];
    } else {
      assert (actions + [a])[1..] == actions[1..] + [a];
      RunSnoc(Apply(e, actions[0]), actions[1..], a);
    }
  }

  // Work that never undoes more than it backed up leaves the stack below it alone.
  lemma {:induction false} StackBelowKept(e: Editor, actions: seq<Action>)
    requires NeverBelow(actions)
    ensures var r := Run(e, actions);
      |r.stack| == |e.stack| + Depth(actions) && e.stack <= r.stack
    decreases |actions|
  {
    if actions == [] {
    } else {
      var n := |actions| - 1;
      var t := actions[..n];
      assert forall k :: 0 <= k <= n ==> t[..k] == actions[..k];
      StackBelowKept(e, t);
      assert actions == t + [actions[n]];
      RunSnoc(e, t, actions[n]);
      assert actions[..|actions|] == actions;
      assert Depth(actions) >= 0;
    }
  }

  // Backing up, doing any balanced work, and undoing gives back the state and the stack.
  lemma UndoRestores(e: Editor, work: seq<Action>)
    requires NeverBelow(work) && Depth(work) == 0
    ensures var r := Run(e, [Backup] + work + [Undo]); r.state == e.state && r.stack == e.stack
  {
    var e1 := Apply(e, Backup);
    assert ([Backup] + work)[1..] == work;
    RunSnoc(e, [Backup] + work, Undo);
    StackBelowKept(e1, work);
    assert Run(e1, work).stack == e1.stack;
  }

  function Undos(n: nat): seq<Action> {
    if n == 0 then [] else Undos(n - 1) + [Undo]
  }

  // Undoing n times goes back n backups, or to the oldest one; on an empty stack it changes nothing.
  lemma {:induction false} UndoingGoesBack(e: Editor, n: nat)
    ensures var r, k := Run(e, Undos(n)), if n < |e.stack| then |e.stack| - n else 0;
      && r.stack == e.stack[..k]
      && r.state == (if n == 0 || e.stack == [] then e.state else e.stack[k].state)
      && (e.stack == [] ==> r == e)
  {
    if n > 0 {
      UndoingGoesBack(e, n - 1);
      RunSnoc(e, Undos(n - 1), Undo);
    }
  }

  // A change is what the state is then, and concerns no snapshot.
  lemma ChangeHolds(e: Editor, work: seq<Action>, s: string)
    ensures var before, r := Run(e, work), Run(e, work + [Change(s)]);
      r.state == s && r.stack == before.stack && r.made == before.made && r.freed == before.freed
  {
    RunSnoc(e, work, Change(s));
  }

  // ----- every snapshot is freed once -----

  // How often snapshot `id` is on the stack.
  function Held(stack: seq<Snapshot>, id: nat): nat {
    if stack == [] then 0
    else Held(stack[..|stack| - 1], id) + if stack[|stack| - 1].id == id then 1 else 0
  }

  // A snapshot that was made is on the stack or freed: in one place, once.
  ghost predicate Accounted(e: Editor) {
    forall id: nat ::
      Held(e.stack, id) + (if id in e.freed then 1 else 0) == if id < e.made then 1 else 0
  }

  // Everything made was freed, and nothing else.
  ghost predicate AllFreed(made: nat, freed: set<nat>) {
    forall id: nat :: id in freed <==> id < made
  }

  lemma AccountedStep(e: Editor, a: Action)
    requires Accounted(e)
    ensures Accounted(Apply(e, a))
  {
    if a.Backup? {
      assert (e.stack + [Snapshot(e.made, e.state)])[..|e.stack|] == e.stack;
    }
  }

  lemma {:induction false} AccountedRun(e: Editor, actions: seq<Action>)
    requires Accounted(e)
    ensures Accounted(Run(e, actions))
    decreases actions
  {
    if actions != [] {
      AccountedStep(e, actions[0]);
      AccountedRun(Apply(e, actions[0]), actions[1..]);
    }
  }

  // ----- the code -----

  // The allocator of snapshots.
  class Pool {
    var made: nat
    var freed: set<nat>

    constructor ()
      ensures made == 0 && freed == {}
    {
      made, freed := 0, {};
    }

    method New(state: string) returns (m: Snapshot)
      modifies this
      ensures m == Snapshot(old(made), state) && made == old(made) + 1 && freed == old(freed)
    {
      m := Snapshot(made, state);
      made := made + 1;
    }

    // A snapshot that was freed before must not be freed again.
    method Free(m: Snapshot)
      requires m.id !in freed
      modifies this
      ensures freed == old(freed) + {m.id} && made == old(made)
    {
      freed := freed + {m.id};
    }
  }

  class Originator {
    var state: string

    constructor (state: string)
      ensures this.state == state
    {
      this.state := state;
    }

    method Operation(next: string)
      modifies this
      ensures state == next
    {
      state := next;
    }

    method Save(pool: Pool) returns (m: Snapshot)
      modifies pool
      ensures m == Snapshot(old(pool.made), state)
      ensures pool.made == old(pool.made) + 1 && pool.freed == old(pool.freed)
    {
      m := pool.New(state);
    }

    // Takes the state from `m` and frees `m`.
    method Restore(m: Snapshot, pool: Pool)
      requires m.id !in pool.freed
      modifies this, pool
      ensures state == m.state
      ensures pool.freed == old(pool.freed) + {m.id} && pool.made == old(pool.made)
    {
      state := m.state;
      pool.Free(m);
    }
  }

  class CareTaker {
    const originator: Originator
    const pool: Pool
    var mementos: seq<Snapshot>

    ghost function Now(): Editor
      reads this, originator, pool
    {
      Editor(originator.state, mementos, pool.made, pool.freed)
    }

    constructor (originator: Originator, pool: Pool)
      ensures this.originator == originator && this.pool == pool && mementos == []
    {
      this.originator, this.pool, mementos := originator, pool, [];
    }

    method Backup()
      modifies this, pool
      ensures Now() == Apply(old(Now()), Action.Backup)
    {
      var m := originator.Save(pool);
      mementos := mementos + [m];
    }

    method Undo()
      requires Accounted(Now())
      modifies this, originator, pool
      ensures Now() == Apply(old(Now()), Action.Undo)
    {
      if |mementos| != 0 {
        var m := mementos[|mementos| - 1];
        NotYetFreed(Now(), |mementos| - 1);
        mementos := mementos[..|mementos| - 1];
        originator.Restore(m, pool);
      }
    }

    // The destructor frees what is left; then every snapshot ever made was freed exactly once.
    method Destroy()
      requires Accounted(Now())
      modifies pool
      ensures pool.made == old(pool.made)
      ensures AllFreed(pool.made, pool.freed)
    {
      ghost var e := Now();
      for i := 0 to |mementos|
        invariant pool.made == e.made
        invariant forall id: nat ::
          id in pool.freed <==> id in e.freed || Held(mementos[..i], id) > 0
      {
        NotYetFreed(e, i);
        pool.Free(mementos[i]);
        assert mementos[..i + 1][..i] == mementos[..i];
      }
      assert mementos[..|mementos|] == mementos;
    }
  }

  lemma {:induction false} HeldHas(stack: seq<Snapshot>, i: nat, id: nat)
    requires i < |stack|
    ensures Held(stack, id) >= Held(stack[..i], id) + if stack[i].id == id then 1 else 0
    decreases |stack|
  {
    var n := |stack| - 1;
    if i < n {
      HeldHas(stack[..n], i, id);
      assert stack[..n][..i] == stack[..i];
    }
  }

  // Freeing the stack from the bottom never meets a snapshot that is gone.
  lemma NotYetFreed(e: Editor, i: nat)
    requires Accounted(e) && i < |e.stack|
    ensures e.stack[i].id !in e.freed && Held(e.stack[..i], e.stack[i].id) == 0
  {
    HeldHas(e.stack, i, e.stack[i].id);
  }

  // A client's session: the caretaker's whole life, on a state that changes as it likes.
  method Client(start: string, actions: seq<Action>) returns (state: string, pool: Pool)
    ensures state == Run(Editor(start, [], 0, {}), actions).state
    ensures AllFreed(pool.made, pool.freed)
  {
    pool := new Pool();
    var originator := new Originator(start);
    var careTaker := new CareTaker(originator, pool);
    ghost var e0 := Editor(start, [], 0, {});
    for i := 0 to |actions|
      invariant fresh(careTaker) && fresh(originator) && fresh(pool)
      invariant careTaker.originator == originator && careTaker.pool == pool
      invariant Accounted(careTaker.Now())
      invariant Run(careTaker.Now(), actions[i..]) == Run(e0, actions)
    {
      AccountedStep(careTaker.Now(), actions[i]);
      assert actions[i..][1..] == actions[i + 1..];
      match actions[i] {
        case Backup => careTaker.Backup();
        case Change(s) => originator.Operation(s);
        case Undo => careTaker.Undo();
      }
    }
    careTaker.Destroy();
    state := originator.state;
  }
}
