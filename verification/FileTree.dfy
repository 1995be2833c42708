// The composite file tree of src/dp/structural/Composite.cpp, updated in place. The methods take
// the set of nodes in play as a ghost argument and are proved against the graph of those nodes.
module FileTree {
  import opened Common
  import opened Forest
  import opened FileGraph

  // The allocator: what may still be used, and what has been freed, in order.
  class Heap {
    ghost const created: set<FileSystem>
    ghost var live: set<FileSystem>
    var freed: seq<FileSystem>

    // Every node is live or freed: in one place, once.
    ghost predicate Valid()
      reads this
    {
      && NoDup(freed) && live <= created
      && (forall x :: x in freed ==> x in created && x !in live)
      && forall x :: x in created ==> x in live || x in freed
    }

    constructor (ghost nodes: set<FileSystem>)
      ensures Valid() && created == live == nodes && freed == []
    {
      created := nodes;
      live := nodes;
      freed := [];
    }

    // A node that was freed before cannot be freed again.
    method Free(x: FileSystem)
      requires Valid() && x in live
      modifies this
      ensures Valid() && live == old(live) - {x} && freed == old(freed) + [x]
    {
      AppendNoDup(freed, [x]);
      live := live - {x};
      freed := freed + [x];
    }
  }

  // Files (and links to files) are the nodes that are not composite.
  class FileSystem {
    const isComposite: bool
    const name: string
    var parent: FileSystem?
    var children: seq<FileSystem>

    constructor (name: string, isComposite: bool)
      ensures this.name == name && this.isComposite == isComposite
      ensures parent == null && children == []
    {
      this.name, this.isComposite := name, isComposite;
      parent, children := null, [];
    }

    function Parent(): Option<FileSystem>
      reads this
    {
      if parent == null then None else Some(parent)
    }

    method Add(fs: FileSystem, ghost nodes: set<FileSystem>)
      requires this in nodes && fs in nodes
      modifies this`children, fs`parent
      ensures Snapshot(nodes) == if isComposite then old(Snapshot(nodes)).Add(this, fs)
                                 else old(Snapshot(nodes))
    {
      ghost var g := Snapshot(nodes);
      if isComposite {
        children := children + [fs];
        fs.parent := this;
        assert Snapshot(nodes).kids == g.kids[this := children];
        assert Snapshot(nodes).up == g.up[fs := Some(this)];
        assert Snapshot(nodes) == g.Add(this, fs);
      }
    }

    method Remove(fs: FileSystem, ghost nodes: set<FileSystem>)
      requires this in nodes && fs in nodes
      modifies this`children, fs`parent
      ensures Snapshot(nodes) == if isComposite then old(Snapshot(nodes)).Remove(this, fs)
                                 else old(Snapshot(nodes))
    {
      ghost var g := Snapshot(nodes);
      if isComposite {
        RemoveChild(fs);
        assert Snapshot(nodes).kids == g.kids[this := children];
        assert Snapshot(nodes).up == g.up[fs := None];
        assert Snapshot(nodes) == g.Remove(this, fs);
      }
    }

    // Folder's remove: erase every occurrence from the list, then clear the parent.
    method RemoveChild(fs: FileSystem)
      modifies this`children, fs`parent
      ensures children == Without(old(children), fs) && fs.parent == null
    {
      children := Without(children, fs);
      fs.parent := null;
    }

    // A folder counts the nodes strictly below it; a file counts itself.
    method Size(ghost nodes: set<FileSystem>, ghost g: Graph<FileSystem>) returns (size: int)
      requires this in nodes && IsForest(g) && ListsOf(g, nodes) && FilesAreLeaves(g)
      ensures size == if isComposite then Count(g, this) - 1 else 1
      decreases Count(g, this)
    {
      if !isComposite {
        return 1;
      }
      size := |children|;
      for i := 0 to |children|
        invariant size == |children| - i + |ChildrenOrder(g, this, i)|
      {
        var fs := children[i];
        SizeStep(g, this, i);
        if fs.isComposite {
          var below := fs.Size(nodes, g);
          size := size + below;
        }
      }
      PostOrderLists(g, this);
    }

    // The files below a folder, appended to `out` in depth-first order.
    method GetChildrensRecursive(out: seq<FileSystem>, ghost nodes: set<FileSystem>,
                                 ghost g: Graph<FileSystem>)
      returns (all: seq<FileSystem>)
      requires this in nodes && IsForest(g) && ListsOf(g, nodes) && FilesAreLeaves(g)
      requires isComposite
      ensures all == out + Files(PostOrder(g, this))
      decreases Count(g, this)
    {
      all := out;
      for i := 0 to |children|
        invariant all == out + Files(ChildrenOrder(g, this, i))
      {
        var fs := children[i];
        FilesStep(g, this, i, out);
        if fs.isComposite {
          all := fs.GetChildrensRecursive(all, nodes, g);
        } else {
          all := all + [fs];
        }
      }
      FilesAppend(ChildrenOrder(g, this, |children|), [this]);
    }

    // The destructor: frees the children's subtrees, then the node. Every node it looks at is
    // still allocated.
    method Destroy(heap: Heap, ghost nodes: set<FileSystem>, ghost g: Graph<FileSystem>)
      requires this in nodes && IsForest(g) && ListsOf(g, nodes)
      requires heap.Valid() && Subtree(g.up, this) <= heap.live
      modifies heap
      ensures heap.Valid() && heap.freed == old(heap.freed) + PostOrder(g, this)
      ensures heap.live == old(heap.live) - Subtree(g.up, this)
      decreases Count(g, this), 1
    {
      ghost var freed := heap.freed;
      DestroyChildren(heap, nodes, g);
      OrderOfAll(g, this);
      AppendAssociative(freed, ChildrenOrder(g, this, |children|), [this]);
      heap.Free(this);
    }

    // The destructor's loop. The node itself stays allocated.
    method DestroyChildren(heap: Heap, ghost nodes: set<FileSystem>, ghost g: Graph<FileSystem>)
      requires this in nodes && IsForest(g) && ListsOf(g, nodes)
      requires heap.Valid() && Subtree(g.up, this) <= heap.live
      modifies heap
      ensures heap.Valid() && heap.freed == old(heap.freed) + ChildrenOrder(g, this, |children|)
      ensures heap.live == old(heap.live) - Elems(ChildrenOrder(g, this, |children|))
      ensures this in heap.live
      decreases Count(g, this), 0
    {
      ghost var freed, live := heap.freed, heap.live;
      BelowSelf(g.up, this);
      for i := 0 to |children|
        invariant ListsOf(g, nodes)
        invariant heap.Valid() && heap.freed == freed + ChildrenOrder(g, this, i)
        invariant heap.live == live - Elems(ChildrenOrder(g, this, i)) && this in heap.live
      {
        var fs := children[i];
        BeforeChild(g, this, i, freed, live);
        fs.Destroy(heap, nodes, g);
      }
    }
  }

  // g has the current child lists of the nodes.
  ghost predicate ListsOf(g: Graph<FileSystem>, nodes: set<FileSystem>)
    reads nodes
  {
    g.kids.Keys == nodes && forall n :: n in nodes ==> n.children == g.kids[n]
  }

  ghost function Snapshot(nodes: set<FileSystem>): (g: Graph<FileSystem>)
    reads nodes
    ensures g.WellFormed() && g.up.Keys == nodes
  {
    Graph(map n | n in nodes :: n.children, map n | n in nodes :: n.Parent())
  }

  ghost predicate FilesAreLeaves(g: Graph<FileSystem>) {
    forall n :: n in g.kids && !n.isComposite ==> g.kids[n] == []
  }

  function Files(s: seq<FileSystem>): seq<FileSystem> {
    if s == [] then []
    else (if s[0].isComposite then [] else [s[0]]) + Files(s[1..])
  }

  lemma {:induction false} FilesAppend(s: seq<FileSystem>, t: seq<FileSystem>)
    ensures Files(s + t) == Files(s) + Files(t)
  {
    if s == [] {
      assert s + t == t;
    } else {
      assert (s + t)[1..] == s[1..] + t;
      FilesAppend(s[1..], t);
    }
  }

  lemma {:induction false} FilesOfOrder(s: seq<FileSystem>)
    requires NoDup(s)
    ensures NoDup(Files(s))
    ensures forall x :: x in Files(s) <==> x in s && !x.isComposite
  {
    if s != [] {
      FilesOfOrder(s[1..]);
      assert s == [s[0]] + s[1..];
      assert s[0] !in s[1..];
      var rest := Files(s[1..]);
      assert forall k :: 0 <= k < |rest| ==> rest[k] in rest;
    }
  }

  // The files listed below a folder are exactly the file nodes that climb to it, each once.
  lemma FilesListed(g: Graph<FileSystem>, x: FileSystem)
    requires IsForest(g) && x in g.up
    ensures NoDup(Files(PostOrder(g, x)))
    ensures forall y :: y in Files(PostOrder(g, x)) <==> y in Subtree(g.up, x) && !y.isComposite
  {
    PostOrderLists(g, x);
    FilesOfOrder(PostOrder(g, x));
    assert forall y :: y in PostOrder(g, x) <==> y in Elems(PostOrder(g, x));
  }

  // They are listed in the order of the children lists: those below an earlier child first.
  lemma FilesFollowLists(g: Graph<FileSystem>, x: FileSystem, i: nat, j: nat,
                         y: FileSystem, z: FileSystem)
      returns (p: nat, q: nat)
    requires IsForest(g) && x in g.up && i < j < |g.kids[x]| && y in g.up && z in g.up
    requires Below(g.up, y, g.kids[x][i]) && Below(g.up, z, g.kids[x][j])
    requires !y.isComposite && !z.isComposite
    ensures p < q < |Files(PostOrder(g, x))|
    ensures Files(PostOrder(g, x))[p] == y && Files(PostOrder(g, x))[q] == z
  {
    var k, l := OrderFollowsLists(g, x, i, j, y, z);
    p, q := FilesKeepOrder(PostOrder(g, x), k, l);
  }

  lemma FilesKeepOrder(s: seq<FileSystem>, k: nat, l: nat) returns (p: nat, q: nat)
    requires k < l < |s| && !s[k].isComposite && !s[l].isComposite
    ensures p < q < |Files(s)| && Files(s)[p] == s[k] && Files(s)[q] == s[l]
  {
    var first, rest := s[..l], s[l..];
    FilesAppend(first, rest);
    assert s == first + rest;
    FilesAppend(first[..k], first[k..]);
    assert first == first[..k] + first[k..];
    p, q := |Files(first[..k])|, |Files(first)|;
  }

  // The size loop's step: a child adds its subtree; a file's subtree is the file.
  lemma SizeStep(g: Graph<FileSystem>, x: FileSystem, i: nat)
    requires IsForest(g) && FilesAreLeaves(g) && x in g.up && i < |g.kids[x]|
    ensures g.kids[x][i] in g.up && Count(g, g.kids[x][i]) < Count(g, x)
    ensures |ChildrenOrder(g, x, i + 1)| == |ChildrenOrder(g, x, i)| + Count(g, g.kids[x][i])
    ensures !g.kids[x][i].isComposite ==> Count(g, g.kids[x][i]) == 1
  {
    var c := g.kids[x][i];
    ChildIsSmaller(g, x, c);
    PostOrderLists(g, c);
    if !c.isComposite {
      assert PostOrder(g, c) == [c];
    }
  }

  // The listing loop's step: a child adds the files of its subtree.
  lemma FilesStep(g: Graph<FileSystem>, x: FileSystem, i: nat, out: seq<FileSystem>)
    requires IsForest(g) && FilesAreLeaves(g) && x in g.up && i < |g.kids[x]|
    ensures g.kids[x][i] in g.up && Count(g, g.kids[x][i]) < Count(g, x)
    ensures out + Files(ChildrenOrder(g, x, i)) + Files(PostOrder(g, g.kids[x][i]))
         == out + Files(ChildrenOrder(g, x, i + 1))
    ensures !g.kids[x][i].isComposite ==> Files(PostOrder(g, g.kids[x][i])) == [g.kids[x][i]]
  {
    var c := g.kids[x][i];
    ChildIsSmaller(g, x, c);
    FilesAppend(ChildrenOrder(g, x, i), PostOrder(g, c));
    AppendAssociative(out, Files(ChildrenOrder(g, x, i)), Files(PostOrder(g, c)));
    if !c.isComposite {
      assert PostOrder(g, c) == [c];
    }
  }

  // What the destructor has freed before child i is strictly below x.
  lemma OrderInside(g: Graph<FileSystem>, x: FileSystem, i: nat)
    requires IsForest(g) && x in g.up && i <= |g.kids[x]|
    ensures x !in ChildrenOrder(g, x, i)
    ensures Elems(ChildrenOrder(g, x, i)) <= Subtree(g.up, x)
  {
    ChildrenOrderLists(g, x, i);
    UnderChildren(g, x);
    forall y | y in ChildrenOrder(g, x, i) ensures y != x && y in Subtree(g.up, x) {
      assert UnderFirst(g, x, i, y);
      var j :| 0 <= j < i && Below(g.up, y, g.kids[x][j]);
      assert UnderFirst(g, x, |g.kids[x]|, y);
    }
  }

  // Child i's subtree is inside x's and apart from what was freed before it.
  lemma OrderStep(g: Graph<FileSystem>, x: FileSystem, i: nat)
    requires IsForest(g) && x in g.up && i < |g.kids[x]| && g.kids[x][i] in g.up
    ensures Subtree(g.up, g.kids[x][i]) <= Subtree(g.up, x)
    ensures Elems(ChildrenOrder(g, x, i)) !! Subtree(g.up, g.kids[x][i])
    ensures ChildrenOrder(g, x, i + 1) == ChildrenOrder(g, x, i) + PostOrder(g, g.kids[x][i])
    ensures Elems(ChildrenOrder(g, x, i + 1))
         == Elems(ChildrenOrder(g, x, i)) + Subtree(g.up, g.kids[x][i])
  {
    var c := g.kids[x][i];
    var first, last := ChildrenOrder(g, x, i), PostOrder(g, c);
    ChildrenOrderLists(g, x, i);
    PostOrderLists(g, c);
    UnderChildren(g, x);
    forall y | y in Subtree(g.up, c) ensures y in Subtree(g.up, x) && y !in first {
      UnderNext(g, x, i + 1, y);
      assert UnderFirst(g, x, |g.kids[x]|, y);
    }
    AppendNoDup(first, last);
  }

  // What the destructor's loop relies on before it frees child i, and what it has then.
  lemma BeforeChild(g: Graph<FileSystem>, x: FileSystem, i: nat,
                    freed: seq<FileSystem>, live: set<FileSystem>)
    requires IsForest(g) && x in g.up && i < |g.kids[x]| && Subtree(g.up, x) <= live
    ensures g.kids[x][i] in g.up && Count(g, g.kids[x][i]) < Count(g, x)
    ensures Subtree(g.up, g.kids[x][i]) <= live - Elems(ChildrenOrder(g, x, i))
    ensures freed + ChildrenOrder(g, x, i) + PostOrder(g, g.kids[x][i])
         == freed + ChildrenOrder(g, x, i + 1)
    ensures live - Elems(ChildrenOrder(g, x, i)) - Subtree(g.up, g.kids[x][i])
         == live - Elems(ChildrenOrder(g, x, i + 1))
    ensures x in live - Elems(ChildrenOrder(g, x, i + 1))
  {
    ChildIsSmaller(g, x, g.kids[x][i]);
    OrderInside(g, x, i + 1);
    BelowSelf(g.up, x);
    OrderStep(g, x, i);
    AppendAssociative(freed, ChildrenOrder(g, x, i), PostOrder(g, g.kids[x][i]));
  }

  lemma OrderOfAll(g: Graph<FileSystem>, x: FileSystem)
    requires IsForest(g) && x in g.up
    ensures Subtree(g.up, x) == Elems(ChildrenOrder(g, x, |g.kids[x]|)) + {x}
    ensures PostOrder(g, x) == ChildrenOrder(g, x, |g.kids[x]|) + [x]
  {
    PostOrderLists(g, x);
    var order := ChildrenOrder(g, x, |g.kids[x]|);
    forall y ensures y in Subtree(g.up, x) <==> y in Elems(order) + {x} {
      assert y in Elems(order + [x]) <==> y in Elems(order) || y == x;
    }
  }
}
