// Whole runs of add, remove and delete on the composite file tree: on the graph, and in place on
// the objects.
module FileRuns {
  import opened Common
  import opened Forest
  import opened FileGraph
  import opened FileTree

  datatype Op<T> = Adding(f: T, c: T) | Removing(f: T, c: T) | Destroying(x: T)

  ghost predicate Known<T>(g: Graph<T>, op: Op<T>) {
    match op
    case Adding(f, c) => f in g.up && c in g.up
    case Removing(f, c) => f in g.up && c in g.up
    case Destroying(x) => x in g.up
  }

  // Files ignore add and remove, so only a folder's can go wrong.
  ghost predicate Legal<T>(folders: set<T>, g: Graph<T>, op: Op<T>)
    requires Closed(g.up) && Known(g, op)
  {
    match op
    case Adding(f, c) => f in folders ==> g.up[c] == None && !Below(g.up, f, c)
    case Removing(f, c) => f in folders ==> g.up[c] == None || g.up[c] == Some(f)
    case Destroying(x) => g.up[x] == None
  }

  ghost function Do<T>(folders: set<T>, g: Graph<T>, op: Op<T>): Graph<T>
    requires g.WellFormed() && Closed(g.up) && Known(g, op)
  {
    match op
    case Adding(f, c) => if f in folders then g.Add(f, c) else g
    case Removing(f, c) => if f in folders then g.Remove(f, c) else g
    case Destroying(x) => g.Drop(Subtree(g.up, x))
  }

  // Every operation keeps the forest exactly when it is legal.
  lemma OpKeepsForest<T>(folders: set<T>, g: Graph<T>, op: Op<T>)
    requires IsForest(g) && Known(g, op)
    ensures IsForest(Do(folders, g, op)) <==> Legal(folders, g, op)
  {
    match op
    case Adding(f, c) => AddKeepsForest(g, f, c);
    case Removing(f, c) => RemoveKeepsForest(g, f, c);
    case Destroying(x) => DropKeepsForest(g, x);
  }

  // states[i + 1] results from states[i] by ops[i].
  ghost predicate IsRun<T>(folders: set<T>, states: seq<Graph<T>>, ops: seq<Op<T>>) {
    && |states| == |ops| + 1
    && forall i {:trigger ops[i]} :: 0 <= i < |ops| ==>
         StepOf(folders, states[i], ops[i], states[i + 1])
  }

  ghost predicate StepOf<T>(folders: set<T>, g: Graph<T>, op: Op<T>, g': Graph<T>) {
    g.WellFormed() && Closed(g.up) && Known(g, op) && g' == Do(folders, g, op)
  }

  ghost predicate LegalStep<T>(folders: set<T>, g: Graph<T>, op: Op<T>) {
    Closed(g.up) && Known(g, op) && Legal(folders, g, op)
  }

  lemma {:induction false} ForestAt<T>(folders: set<T>, states: seq<Graph<T>>, ops: seq<Op<T>>, n: nat)
    requires IsRun(folders, states, ops) && IsForest(states[0]) && n <= |ops|
    requires forall i :: 0 <= i < n ==> LegalStep(folders, states[i], ops[i])
    ensures IsForest(states[n])
    decreases n
  {
    if n > 0 {
      ForestAt(folders, states, ops, n - 1);
      assert StepOf(folders, states[n - 1], ops[n - 1], states[n]);
      OpKeepsForest(folders, states[n - 1], ops[n - 1]);
    }
  }

  // A run from a forest goes through forests only, exactly when all its operations are legal.
  lemma RunKeepsForest<T>(folders: set<T>, states: seq<Graph<T>>, ops: seq<Op<T>>)
    requires IsRun(folders, states, ops) && IsForest(states[0])
    ensures (forall i :: 0 <= i < |states| ==> IsForest(states[i]))
       <==> (forall i :: 0 <= i < |ops| ==> LegalStep(folders, states[i], ops[i]))
  {
    if forall i :: 0 <= i < |states| ==> IsForest(states[i]) {
      forall i | 0 <= i < |ops| ensures LegalStep(folders, states[i], ops[i]) {
        assert StepOf(folders, states[i], ops[i], states[i + 1]);
        OpKeepsForest(folders, states[i], ops[i]);
      }
    }
    if forall i :: 0 <= i < |ops| ==> LegalStep(folders, states[i], ops[i]) {
      forall n | 0 <= n < |states| ensures IsForest(states[n]) {
        ForestAt(folders, states, ops, n);
      }
    }
  }

  // ----- runs on the objects -----

  ghost predicate LegalRun<T>(folders: set<T>, g: Graph<T>, ops: seq<Op<T>>)
    requires IsForest(g)
    decreases ops
  {
    ops != [] ==>
      && LegalStep(folders, g, ops[0])
      && (OpKeepsForest(folders, g, ops[0]); LegalRun(folders, Do(folders, g, ops[0]), ops[1..]))
  }

  ghost function DoAll<T>(folders: set<T>, g: Graph<T>, ops: seq<Op<T>>): Graph<T>
    requires IsForest(g) && LegalRun(folders, g, ops)
    decreases ops
  {
    if ops == [] then g
    else
      OpKeepsForest(folders, g, ops[0]);
      DoAll(folders, Do(folders, g, ops[0]), ops[1..])
  }

  // The live nodes are a forest, and the folders among all nodes are these.
  ghost predicate Holds(heap: Heap, folders: set<FileSystem>)
    reads heap, heap.live
  {
    && heap.Valid() && IsForest(Snapshot(heap.live))
    && folders == set x | x in heap.created && x.isComposite
  }

  // What the destructor leaves is the graph without the subtree.
  lemma DroppedSnapshot(nodes: set<FileSystem>, gone: set<FileSystem>)
    requires gone <= nodes
    ensures Snapshot(nodes - gone) == Snapshot(nodes).Drop(gone)
  {
    var g, g' := Snapshot(nodes).Drop(gone), Snapshot(nodes - gone);
    assert g'.kids.Keys == g.kids.Keys && g'.up.Keys == g.up.Keys;
    assert g'.kids == g.kids && g'.up == g.up;
  }

  // One operation in place. What is live afterwards is the graph after the operation.
  method Perform(heap: Heap, op: Op<FileSystem>, ghost folders: set<FileSystem>)
    requires Holds(heap, folders) && LegalStep(folders, Snapshot(heap.live), op)
    modifies heap, heap.live
    ensures Holds(heap, folders) && heap.live <= old(heap.live)
    ensures Snapshot(heap.live) == Do(folders, old(Snapshot(heap.live)), op)
    ensures old(heap.freed) <= heap.freed
  {
    ghost var nodes, g := heap.live, Snapshot(heap.live);
    OpKeepsForest(folders, g, op);
    match op {
      case Adding(f, c) => f.Add(c, nodes);
      case Removing(f, c) => f.Remove(c, nodes);
      case Destroying(x) => Delete(heap, x);
    }
  }

  method Delete(heap: Heap, x: FileSystem)
    requires heap.Valid() && x in heap.live && IsForest(Snapshot(heap.live))
    modifies heap
    ensures heap.Valid() && heap.live <= old(heap.live) && old(heap.freed) <= heap.freed
    ensures Snapshot(heap.live) == old(Snapshot(heap.live).Drop(Subtree(Snapshot(heap.live).up, x)))
  {
    ghost var nodes, g := heap.live, Snapshot(heap.live);
    ghost var gone := Subtree(g.up, x);
    x.Destroy(heap, nodes, g);
    assert Snapshot(nodes) == g && heap.live == nodes - gone;
    DroppedSnapshot(nodes, gone);
  }

  // A whole legal run in place: the live nodes stay a forest, the one the operations say; every
  // node is live or was freed once, and at the end the nodes freed are those no longer there.
  method PerformAll(heap: Heap, ops: seq<Op<FileSystem>>, ghost folders: set<FileSystem>)
    requires Holds(heap, folders) && LegalRun(folders, Snapshot(heap.live), ops)
    modifies heap, heap.live
    ensures Holds(heap, folders)
    ensures Snapshot(heap.live) == DoAll(folders, old(Snapshot(heap.live)), ops)
    ensures NoDup(heap.freed) && forall x :: x in heap.created ==> (x in heap.freed <==> x !in heap.live)
  {
    ghost var g := Snapshot(heap.live);
    for i := 0 to |ops|
      invariant Holds(heap, folders) && heap.live <= old(heap.live)
      invariant LegalRun(folders, Snapshot(heap.live), ops[i..])
      invariant DoAll(folders, Snapshot(heap.live), ops[i..]) == DoAll(folders, g, ops)
    {
      assert ops[i..][0] == ops[i] && ops[i..][1..] == ops[i + 1..];
      OpKeepsForest(folders, Snapshot(heap.live), ops[i]);
      Perform(heap, ops[i], folders);
    }
  }
}
