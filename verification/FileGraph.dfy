// The composite file tree as a value: child lists and parent links of a set of nodes.
module FileGraph {
  import opened Common
  import opened Forest

  datatype Graph<T> = Graph(kids: map<T, seq<T>>, up: Links<T>) {

    ghost predicate WellFormed() { kids.Keys == up.Keys }

    // push_back on f's list, then set c's parent
    ghost function Add(f: T, c: T): Graph<T>
      requires WellFormed() && f in up && c in up
    {
      Graph(kids[f := kids[f] + [c]], up[c := Some(f)])
    }

    // drop every occurrence from f's list, then clear c's parent
    ghost function Remove(f: T, c: T): Graph<T>
      requires WellFormed() && f in up && c in up
    {
      Graph(kids[f := Without(kids[f], c)], up[c := None])
    }

    // forget the nodes of gone
    ghost function Drop(gone: set<T>): Graph<T> { Graph(kids - gone, up - gone) }
  }

  function Without<T(==)>(s: seq<T>, c: T): (r: seq<T>)
    ensures forall x :: x in r ==> x in s && x != c
    ensures forall x :: x in s && x != c ==> x in r
  {
    if s == [] then []
    else if s[0] == c then Without(s[1..], c) else [s[0]] + Without(s[1..], c)
  }

  // c is in f's list exactly when c's parent is f; lists have no repetition; parents make no cycle.
  ghost predicate IsForest<T>(g: Graph<T>) {
    && g.WellFormed()
    && Linked(g)
    && Closed(g.up) && Rooted(g.up)
    && forall f :: f in g.kids ==> NoDup(g.kids[f])
  }

  ghost predicate Linked<T>(g: Graph<T>)
    requires g.WellFormed()
  {
    && (forall f, c :: f in g.kids && c in g.kids[f] ==> c in g.up && g.up[c] == Some(f))
    && (forall c :: c in g.up && g.up[c].Some? ==>
          g.up[c].value in g.kids && c in g.kids[g.up[c].value])
  }

  lemma {:induction false} WithoutAbsent<T>(s: seq<T>, c: T)
    requires c !in s
    ensures Without(s, c) == s
  {
    if s != [] {
      WithoutAbsent(s[1..], c);
    }
  }

  lemma {:induction false} WithoutAppend<T>(s: seq<T>, t: seq<T>, c: T)
    ensures Without(s + t, c) == Without(s, c) + Without(t, c)
  {
    if s == [] {
      assert s + t == t;
    } else {
      assert (s + t)[1..] == s[1..] + t;
      WithoutAppend(s[1..], t, c);
    }
  }

  lemma {:induction false} WithoutNoDup<T>(s: seq<T>, c: T)
    requires NoDup(s)
    ensures NoDup(Without(s, c))
  {
    if s != [] {
      WithoutNoDup(s[1..], c);
      assert s[0] !in s[1..];
      var rest := Without(s[1..], c);
      assert forall k :: 0 <= k < |rest| ==> rest[k] in rest;
    }
  }

  // ----- add and remove -----

  // Adding keeps the forest exactly when the node has no parent and is not f or above it.
  lemma AddKeepsForest<T>(g: Graph<T>, f: T, c: T)
    requires IsForest(g) && f in g.up && c in g.up
    ensures IsForest(g.Add(f, c)) <==> g.up[c] == None && !Below(g.up, f, c)
  {
    var g' := g.Add(f, c);
    AttachedClosed(g.up, f, c);
    if g.up[c] == None {
      assert c !in g.kids[f];
      if Below(g.up, f, c) {
        AttachCycle(g.up, f, c);
      } else {
        AttachRooted(g.up, f, c);
        assert NoDup(g'.kids[f]);
      }
    } else {
      var p := g.up[c].value;
      assert c in g.kids[p];
      if p == f {
        var i :| 0 <= i < |g.kids[f]| && g.kids[f][i] == c;
        assert g'.kids[f][i] == g'.kids[f][|g.kids[f]|];
        assert !NoDup(g'.kids[f]);
      } else {
        assert p in g'.kids && c in g'.kids[p] && g'.up[c] == Some(f) != Some(p);
        assert !Linked(g');
      }
    }
  }

  // Removing keeps the forest exactly when the node is f's child or has no parent.
  lemma RemoveKeepsForest<T>(g: Graph<T>, f: T, c: T)
    requires IsForest(g) && f in g.up && c in g.up
    ensures IsForest(g.Remove(f, c)) <==> g.up[c] == None || g.up[c] == Some(f)
  {
    var g' := g.Remove(f, c);
    DetachRooted(g.up, c);
    WithoutNoDup(g.kids[f], c);
    if g.up[c].Some? && g.up[c].value != f {
      var p := g.up[c].value;
      assert p in g'.kids && c in g'.kids[p] && g'.up[c] == None;
      assert !Linked(g');
    }
  }

  // An added node comes last in its folder; the other children keep their places, the other lists
  // and parents stay.
  lemma AddedLast<T>(g: Graph<T>, f: T, c: T)
    requires IsForest(g) && f in g.up && c in g.up
    ensures var r := g.Add(f, c);
      && |r.kids[f]| == |g.kids[f]| + 1 && r.kids[f][|g.kids[f]|] == c
      && (forall i :: 0 <= i < |g.kids[f]| ==> r.kids[f][i] == g.kids[f][i])
      && r.kids.Keys == g.kids.Keys && r.up.Keys == g.up.Keys && r.up[c] == Some(f)
      && (forall x :: x in g.kids && x != f ==> r.kids[x] == g.kids[x])
      && (forall x :: x in g.up && x != c ==> r.up[x] == g.up[x])
  {
  }

  // Removing what was just added restores lists and parents.
  lemma AddThenRemove<T>(g: Graph<T>, f: T, c: T)
    requires IsForest(g) && f in g.up && c in g.up && g.up[c] == None
    ensures g.Add(f, c).Remove(f, c) == g
  {
    assert c !in g.kids[f];
    WithoutAppend(g.kids[f], [c], c);
    WithoutAbsent(g.kids[f], c);
    assert Without(g.kids[f] + [c], c) == g.kids[f];
    var r := g.Add(f, c).Remove(f, c);
    assert r.kids == g.kids && r.up == g.up;
  }

  // The subtree of a, as a count.
  ghost function Count<T>(g: Graph<T>, a: T): nat
    requires Closed(g.up)
  {
    |Subtree(g.up, a)|
  }

  // Adding c grows f and every ancestor of f by c's whole subtree, and no other node.
  lemma AddChangesSizes<T>(g: Graph<T>, f: T, c: T, a: T)
    requires IsForest(g) && f in g.up && c in g.up && a in g.up && IsForest(g.Add(f, c))
    ensures Count(g.Add(f, c), a) == Count(g, a) + if Below(g.up, f, a) then Count(g, c) else 0
  {
    AddKeepsForest(g, f, c);
    AttachSubtree(g.up, f, c, a);
  }

  // Removing a child shrinks f and its ancestors by the child's subtree, and no other node.
  lemma RemoveChangesSizes<T>(g: Graph<T>, f: T, c: T, a: T)
    requires IsForest(g) && f in g.up && c in g.up && g.up[c] == Some(f) && a in g.up
    ensures Closed(g.Remove(f, c).up)
    ensures Count(g, a) == Count(g.Remove(f, c), a)
         + if Below(g.up, f, a) then Count(g, c) else 0
  {
    var down := g.up[c := None];
    DetachedIsAttachable(g.up, f, c);
    AttachSubtree(down, f, c, a);
    AttachSubtree(down, f, c, c);
    AttachBelow(down, f, c, f, a);
  }

  // Dropping a whole subtree leaves a forest exactly when its top is a root.
  lemma DropKeepsForest<T>(g: Graph<T>, x: T)
    requires IsForest(g) && x in g.up
    ensures IsForest(g.Drop(Subtree(g.up, x))) <==> g.up[x] == None
  {
    var g' := g.Drop(Subtree(g.up, x));
    if g.up[x] == None {
      DropRooted(g.up, x);
      DropLinked(g, x);
    } else {
      var p := g.up[x].value;
      ParentNotBelow(g.up, x);
      BelowSelf(g.up, x);
      assert p in g'.kids && x in g'.kids[p] && x !in g'.up;
      assert !Linked(g');
    }
  }

  lemma DropLinked<T>(g: Graph<T>, x: T)
    requires IsForest(g) && x in g.up && g.up[x] == None
    ensures Linked(g.Drop(Subtree(g.up, x)))
  {
    var g' := g.Drop(Subtree(g.up, x));
    forall f, c | f in g'.kids && c in g'.kids[f] ensures c in g'.up && g'.up[c] == Some(f) {
      assert g.up[c] == Some(f);
      BelowStep(g.up, c, x);
    }
    forall c | c in g'.up && g'.up[c].Some?
      ensures g'.up[c].value in g'.kids && c in g'.kids[g'.up[c].value]
    {
      ParentStays(g, x, c);
    }
  }

  lemma ParentStays<T>(g: Graph<T>, x: T, c: T)
    requires IsForest(g) && x in g.up && c in g.up && !Below(g.up, c, x) && g.up[c].Some?
    ensures g.up[c].value in g.up && !Below(g.up, g.up[c].value, x)
    ensures c in g.kids[g.up[c].value]
  {
    BelowStep(g.up, c, x);
  }

  lemma DropRooted<T>(up: Links<T>, x: T)
    requires Closed(up) && Rooted(up) && x in up && up[x] == None
    ensures Closed(up - Subtree(up, x)) && Rooted(up - Subtree(up, x))
  {
    var gone := Subtree(up, x);
    forall y | y in up - gone && up[y].Some? ensures up[y].value in up - gone {
      BelowStep(up, y, x);
    }
    forall y | y in up - gone ensures Ends(up - gone, y) {
      assert Ends(up, y);
      var k: nat :| Climb(up, y, k) == None;
      ClimbDropped(up, gone, y, k);
    }
  }

  lemma {:induction false} ClimbDropped<T>(up: Links<T>, gone: set<T>, y: T, k: nat)
    requires Closed(up) && Closed(up - gone) && y in up - gone
    ensures Climb(up - gone, y, k) == Climb(up, y, k)
    decreases k
  {
    if k > 0 && up[y].Some? {
      assert (up - gone)[y] == up[y];
      ClimbDropped(up, gone, up[y].value, k - 1);
    }
  }

  // ----- the recursion over child lists -----

  lemma ChildIsSmaller<T>(g: Graph<T>, x: T, c: T)
    requires IsForest(g) && x in g.up && c in g.kids[x]
    ensures c in g.up && Count(g, c) < Count(g, x)
  {
    ParentNotBelow(g.up, c);
    BelowSelf(g.up, x);
    forall y | y in Subtree(g.up, c) ensures y in Subtree(g.up, x) {
      BelowSelf(g.up, x);
      BelowStep(g.up, c, x);
      BelowTransitive(g.up, y, c, x);
    }
    StrictSubset(Subtree(g.up, c), Subtree(g.up, x), x);
  }

  lemma StrictSubset<T>(a: set<T>, b: set<T>, x: T)
    requires a <= b && x in b && x !in a
    ensures |a| < |b|
  {
    assert b == a + (b - a);
    assert |b - a| > 0;
  }

  // A folder's children before the folder, each child's subtree in list order: the order in
  // which the destructor frees the nodes.
  ghost function PostOrder<T>(g: Graph<T>, x: T): seq<T>
    requires IsForest(g) && x in g.up
    decreases Count(g, x), |g.kids[x]| + 1
  {
    ChildrenOrder(g, x, |g.kids[x]|) + [x]
  }

  // The part of it for the first i children.
  ghost function ChildrenOrder<T>(g: Graph<T>, x: T, i: nat): seq<T>
    requires IsForest(g) && x in g.up && i <= |g.kids[x]|
    decreases Count(g, x), i
  {
    if i == 0 then []
    else
      ChildIsSmaller(g, x, g.kids[x][i - 1]);
      ChildrenOrder(g, x, i - 1) + PostOrder(g, g.kids[x][i - 1])
  }

  ghost function Elems<T>(s: seq<T>): set<T> { set x | x in s }

  // The nodes below one of the first i children.
  ghost predicate UnderFirst<T>(g: Graph<T>, x: T, i: nat, y: T)
    requires IsForest(g) && x in g.up && i <= |g.kids[x]| && y in g.up
  {
    exists j :: 0 <= j < i && Below(g.up, y, g.kids[x][j])
  }

  // The recursion over child lists meets every node that climbs to x, once.
  lemma {:induction false} PostOrderLists<T>(g: Graph<T>, x: T)
    requires IsForest(g) && x in g.up
    ensures NoDup(PostOrder(g, x)) && Elems(PostOrder(g, x)) == Subtree(g.up, x)
    ensures |PostOrder(g, x)| == Count(g, x)
    decreases Count(g, x), |g.kids[x]| + 1
  {
    var n := |g.kids[x]|;
    ChildrenOrderLists(g, x, n);
    UnderChildren(g, x);
    var order := ChildrenOrder(g, x, n);
    BelowSelf(g.up, x);
    AppendNoDup(order, [x]);
    forall y ensures y in PostOrder(g, x) <==> y in Subtree(g.up, x) {
      assert y in PostOrder(g, x) <==> y in order || y == x;
    }
    assert Elems(PostOrder(g, x)) == Subtree(g.up, x);
    NoDupCount(PostOrder(g, x));
  }

  lemma {:induction false} ChildrenOrderLists<T>(g: Graph<T>, x: T, i: nat)
    requires IsForest(g) && x in g.up && i <= |g.kids[x]|
    ensures NoDup(ChildrenOrder(g, x, i))
    ensures forall y :: y in ChildrenOrder(g, x, i) <==> y in g.up && UnderFirst(g, x, i, y)
    decreases Count(g, x), i
  {
    if i > 0 {
      var c := g.kids[x][i - 1];
      ChildIsSmaller(g, x, c);
      ChildrenOrderLists(g, x, i - 1);
      PostOrderLists(g, c);
      var first, last := ChildrenOrder(g, x, i - 1), PostOrder(g, c);
      forall y ensures y in last <==> y in g.up && Below(g.up, y, c) {
        assert y in last <==> y in Elems(last);
      }
      NextChild(g, x, i, first, last);
    }
  }

  lemma {:induction false} OrderGrows<T>(g: Graph<T>, x: T, i: nat, j: nat)
    requires IsForest(g) && x in g.up && i <= j <= |g.kids[x]|
    ensures ChildrenOrder(g, x, i) <= ChildrenOrder(g, x, j)
    decreases j
  {
    if i < j {
      OrderGrows(g, x, i, j - 1);
      ChildIsSmaller(g, x, g.kids[x][j - 1]);
    }
  }

  // What is below an earlier child comes before what is below a later one, and the node last.
  lemma OrderFollowsLists<T>(g: Graph<T>, x: T, i: nat, j: nat, y: T, z: T) returns (p: nat, q: nat)
    requires IsForest(g) && x in g.up && i < j < |g.kids[x]| && y in g.up && z in g.up
    requires Below(g.up, y, g.kids[x][i]) && Below(g.up, z, g.kids[x][j])
    ensures p < q < |PostOrder(g, x)| - 1
    ensures PostOrder(g, x)[p] == y && PostOrder(g, x)[q] == z
    ensures PostOrder(g, x)[|PostOrder(g, x)| - 1] == x
  {
    OrderHolds(g, x, j);
    p := PositionBefore(g, x, j, i, y);
    var k := PositionIn(g, g.kids[x][j], z);
    q := |ChildrenOrder(g, x, j)| + k;
    Positions(ChildrenOrder(g, x, j), PostOrder(g, g.kids[x][j]),
              ChildrenOrder(g, x, |g.kids[x]|), x, p, k);
  }

  lemma OrderHolds<T>(g: Graph<T>, x: T, j: nat)
    requires IsForest(g) && x in g.up && j < |g.kids[x]|
    ensures g.kids[x][j] in g.up
    ensures ChildrenOrder(g, x, j) + PostOrder(g, g.kids[x][j]) <= ChildrenOrder(g, x, |g.kids[x]|)
  {
    ChildIsSmaller(g, x, g.kids[x][j]);
    OrderGrows(g, x, j + 1, |g.kids[x]|);
  }

  lemma Positions<T>(first: seq<T>, last: seq<T>, all: seq<T>, x: T, p: nat, k: nat)
    requires first + last <= all && p < |first| && k < |last|
    ensures |first| + k < |all|
    ensures (all + [x])[p] == first[p] && (all + [x])[|first| + k] == last[k]
  {
    assert (first + last)[p] == all[p] && (first + last)[|first| + k] == all[|first| + k];
  }

  lemma PositionBefore<T>(g: Graph<T>, x: T, j: nat, i: nat, y: T) returns (p: nat)
    requires IsForest(g) && x in g.up && i < j <= |g.kids[x]| && y in g.up
    requires Below(g.up, y, g.kids[x][i])
    ensures p < |ChildrenOrder(g, x, j)| && ChildrenOrder(g, x, j)[p] == y
  {
    ChildrenOrderLists(g, x, j);
    assert UnderFirst(g, x, j, y);
    p :| 0 <= p < |ChildrenOrder(g, x, j)| && ChildrenOrder(g, x, j)[p] == y;
  }

  lemma PositionIn<T>(g: Graph<T>, x: T, y: T) returns (p: nat)
    requires IsForest(g) && x in g.up && y in g.up && Below(g.up, y, x)
    ensures p < |PostOrder(g, x)| && PostOrder(g, x)[p] == y
  {
    PostOrderLists(g, x);
    assert y in Elems(PostOrder(g, x));
    p :| 0 <= p < |PostOrder(g, x)| && PostOrder(g, x)[p] == y;
  }

  lemma UnderNext<T>(g: Graph<T>, x: T, i: nat, y: T)
    requires IsForest(g) && x in g.up && 0 < i <= |g.kids[x]| && y in g.up
    ensures UnderFirst(g, x, i, y)
       <==> UnderFirst(g, x, i - 1, y) || Below(g.up, y, g.kids[x][i - 1])
    ensures !(UnderFirst(g, x, i - 1, y) && Below(g.up, y, g.kids[x][i - 1]))
  {
    if UnderFirst(g, x, i - 1, y) {
      var j :| 0 <= j < i - 1 && Below(g.up, y, g.kids[x][j]);
      UnderOneChild(g, x, j, i - 1, y);
    }
  }

  lemma UnderOneChild<T>(g: Graph<T>, x: T, i: nat, j: nat, y: T)
    requires IsForest(g) && x in g.up && i < j < |g.kids[x]| && y in g.up
    ensures !(Below(g.up, y, g.kids[x][i]) && Below(g.up, y, g.kids[x][j]))
  {
    var c, d := g.kids[x][i], g.kids[x][j];
    assert c in g.kids[x] && d in g.kids[x];
    SiblingsDisjoint(g.up, c, d);
    assert y in Subtree(g.up, c) ==> y !in Subtree(g.up, d);
  }

  lemma NextChild<T>(g: Graph<T>, x: T, i: nat, first: seq<T>, last: seq<T>)
    requires IsForest(g) && x in g.up && 0 < i <= |g.kids[x]|
    requires NoDup(first) && NoDup(last)
    requires forall y :: y in first <==> y in g.up && UnderFirst(g, x, i - 1, y)
    requires forall y :: y in last <==> y in g.up && Below(g.up, y, g.kids[x][i - 1])
    ensures NoDup(first + last)
    ensures forall y :: y in first + last <==> y in g.up && UnderFirst(g, x, i, y)
  {
    forall y | y in g.up
      ensures y in first + last <==> UnderFirst(g, x, i, y)
      ensures !(y in first && y in last)
    {
      UnderNext(g, x, i, y);
    }
    AppendNoDup(first, last);
  }

  // Strictly below x means below one of its children.
  lemma UnderChildren<T>(g: Graph<T>, x: T)
    requires IsForest(g) && x in g.up
    ensures forall y :: y in g.up ==>
      (UnderFirst(g, x, |g.kids[x]|, y) <==> Below(g.up, y, x) && y != x)
  {
    forall y | y in g.up
      ensures UnderFirst(g, x, |g.kids[x]|, y) <==> Below(g.up, y, x) && y != x
    {
      if UnderFirst(g, x, |g.kids[x]|, y) {
        var j :| 0 <= j < |g.kids[x]| && Below(g.up, y, g.kids[x][j]);
        var c := g.kids[x][j];
        BelowSelf(g.up, x);
        BelowStep(g.up, c, x);
        BelowTransitive(g.up, y, c, x);
        ParentNotBelow(g.up, c);
      }
      if Below(g.up, y, x) && y != x {
        var c := LastStep(g, y, x);
        var j :| 0 <= j < |g.kids[x]| && g.kids[x][j] == c;
      }
    }
  }

  lemma LastStep<T>(g: Graph<T>, y: T, x: T) returns (c: T)
    requires IsForest(g) && x in g.up && y in g.up && Below(g.up, y, x) && y != x
    ensures c in g.kids[x] && c in g.up && Below(g.up, y, c)
  {
    var k: nat :| Climb(g.up, y, k) == Some(x);
    ClimbSum(g.up, y, k - 1, 1);
    ClimbSum(g.up, y, k - 1, 0);
    c := Climb(g.up, y, k - 1).value;
    assert Climb(g.up, c, 1) == Some(x);
    assert g.up[c] == Some(x) by {
      if g.up[c].Some? {
        assert Climb(g.up, c, 1) == Climb(g.up, g.up[c].value, 0);
      }
    }
  }

  lemma {:induction false} NoDupCount<T>(s: seq<T>)
    requires NoDup(s)
    ensures |Elems(s)| == |s|
  {
    if s != [] {
      NoDupCount(s[1..]);
      assert s == [s[0]] + s[1..];
      assert Elems(s) == {s[0]} + Elems(s[1..]);
      assert s[0] !in s[1..];
    }
  }
}
