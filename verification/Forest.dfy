// Forests given by parent links: who is below whom, and how attaching and detaching a node
// changes that. Nothing here looks at child lists.
module Forest {

  import opened Common

  type Links<T> = map<T, Option<T>>

  ghost predicate Closed<T>(up: Links<T>) {
    forall x {:trigger up[x]} :: x in up && up[x].Some? ==> up[x].value in up
  }

  // The k-th ancestor of x, if there is one.
  ghost function Climb<T>(up: Links<T>, x: T, k: nat): Option<T>
    requires Closed(up) && x in up
  {
    if k == 0 then Some(x)
    else match up[x]
      case None => None
      case Some(p) => Climb(up, p, k - 1)
  }

  // x is a or a descendant of a.
  ghost predicate Below<T>(up: Links<T>, x: T, a: T)
    requires Closed(up) && x in up
  {
    exists k: nat :: Climb(up, x, k) == Some(a)
  }

  ghost predicate Ends<T>(up: Links<T>, x: T)
    requires Closed(up) && x in up
  {
    exists k: nat :: Climb(up, x, k) == None
  }

  // Every climb ends: there is no cycle.
  ghost predicate Rooted<T>(up: Links<T>)
    requires Closed(up)
  {
    forall x {:trigger Ends(up, x)} :: x in up ==> Ends(up, x)
  }

  ghost function Subtree<T>(up: Links<T>, a: T): set<T>
    requires Closed(up)
  {
    set x | x in up && Below(up, x, a)
  }

  // ----- climbing -----

  lemma {:induction false} ClimbSum<T>(up: Links<T>, x: T, i: nat, j: nat)
    requires Closed(up) && x in up
    ensures Climb(up, x, i).Some? ==> Climb(up, x, i).value in up
    ensures Climb(up, x, i + j)
         == if Climb(up, x, i).None? then None else Climb(up, Climb(up, x, i).value, j)
    decreases i
  {
    if i > 0 && up[x].Some? {
      ClimbSum(up, up[x].value, i - 1, j);
    }
  }

  lemma {:induction false} ClimbRound<T>(up: Links<T>, x: T, k: nat, rounds: nat)
    requires Closed(up) && x in up && Climb(up, x, k) == Some(x)
    ensures Climb(up, x, k * rounds) == Some(x)
    decreases rounds
  {
    if rounds > 0 {
      ClimbRound(up, x, k, rounds - 1);
      ClimbSum(up, x, k * (rounds - 1), k);
      assert k * rounds == k * (rounds - 1) + k;
    }
  }

  // Where every climb ends, nothing is its own proper ancestor.
  lemma NoCycle<T>(up: Links<T>, x: T, k: nat)
    requires Closed(up) && x in up && Ends(up, x) && Climb(up, x, k) == Some(x)
    ensures k == 0
  {
    if k > 0 {
      var end: nat :| Climb(up, x, end) == None;
      ClimbRound(up, x, k, end);
      assert k * end >= end;
      ClimbSum(up, x, end, k * end - end);
    }
  }

  lemma BelowSelf<T>(up: Links<T>, x: T)
    requires Closed(up) && x in up
    ensures Below(up, x, x)
  {
    assert Climb(up, x, 0) == Some(x);
  }

  lemma BelowStep<T>(up: Links<T>, x: T, a: T)
    requires Closed(up) && x in up
    ensures Below(up, x, a) <==> x == a || (up[x].Some? && Below(up, up[x].value, a))
  {
    if Below(up, x, a) && x != a {
      var k: nat :| Climb(up, x, k) == Some(a);
      assert k > 0;
      assert Climb(up, up[x].value, k - 1) == Some(a);
    }
    if up[x].Some? && Below(up, up[x].value, a) {
      var k: nat :| Climb(up, up[x].value, k) == Some(a);
      assert Climb(up, x, k + 1) == Some(a);
    }
    BelowSelf(up, x);
  }

  lemma BelowTransitive<T>(up: Links<T>, x: T, y: T, z: T)
    requires Closed(up) && x in up && y in up && Below(up, x, y) && Below(up, y, z)
    ensures Below(up, x, z)
  {
    var i: nat :| Climb(up, x, i) == Some(y);
    var j: nat :| Climb(up, y, j) == Some(z);
    ClimbSum(up, x, i, j);
  }

  lemma BelowIsNode<T>(up: Links<T>, x: T, a: T)
    requires Closed(up) && x in up && Below(up, x, a)
    ensures a in up
  {
    var k: nat :| Climb(up, x, k) == Some(a);
    ClimbSum(up, x, k, 0);
  }

  // Two ancestors of a node are on one line.
  lemma Comparable<T>(up: Links<T>, x: T, a: T, b: T)
    requires Closed(up) && x in up && a in up && b in up && Below(up, x, a) && Below(up, x, b)
    ensures Below(up, a, b) || Below(up, b, a)
  {
    var i: nat :| Climb(up, x, i) == Some(a);
    var j: nat :| Climb(up, x, j) == Some(b);
    if i <= j {
      ClimbSum(up, x, i, j - i);
    } else {
      ClimbSum(up, x, j, i - j);
    }
  }

  lemma Antisymmetric<T>(up: Links<T>, a: T, b: T)
    requires Closed(up) && Rooted(up) && a in up && b in up && Below(up, a, b) && Below(up, b, a)
    ensures a == b
  {
    var i: nat :| Climb(up, a, i) == Some(b);
    var j: nat :| Climb(up, b, j) == Some(a);
    ClimbSum(up, a, i, j);
    NoCycle(up, a, i + j);
  }

  // Different nodes with the same parent have disjoint subtrees, without the parent.
  lemma SiblingsDisjoint<T>(up: Links<T>, c: T, d: T)
    requires Closed(up) && Rooted(up) && c in up && d in up
    requires c != d && up[c] == up[d] && up[c].Some?
    ensures Subtree(up, c) !! Subtree(up, d)
    ensures up[c].value !in Subtree(up, c)
  {
    var p := up[c].value;
    ParentNotBelow(up, c);
    ParentNotBelow(up, d);
    forall x | x in Subtree(up, c) && x in Subtree(up, d) ensures false {
      Comparable(up, x, c, d);
      BelowStep(up, c, d);
      BelowStep(up, d, c);
    }
  }

  lemma ParentNotBelow<T>(up: Links<T>, c: T)
    requires Closed(up) && Rooted(up) && c in up && up[c].Some?
    ensures !Below(up, up[c].value, c)
  {
    var p := up[c].value;
    if Below(up, p, c) {
      BelowStep(up, c, p);
      BelowSelf(up, p);
      Antisymmetric(up, p, c);
      assert Climb(up, c, 1) == Climb(up, p, 0) == Some(c);
      NoCycle(up, c, 1);
    }
  }

  // ----- attaching a root below a node -----

  ghost predicate Attachable<T>(up: Links<T>, f: T, c: T) {
    && Closed(up) && Rooted(up) && f in up && c in up
    && up[c] == None && !Below(up, f, c)
  }

  // Climbs that do not meet c are unchanged.
  lemma {:induction false} ClimbAvoids<T>(up: Links<T>, c: T, link: Option<T>, x: T, k: nat)
    requires Closed(up) && Closed(up[c := link]) && x in up && c in up
    requires forall i: nat :: i < k ==> Climb(up, x, i) != Some(c)
    ensures Climb(up[c := link], x, k) == Climb(up, x, k)
    decreases k
  {
    if k > 0 {
      assert Climb(up, x, 0) == Some(x);
      if up[x].Some? {
        forall i: nat | i < k - 1 ensures Climb(up, up[x].value, i) != Some(c) {
          assert Climb(up, x, i + 1) == Climb(up, up[x].value, i);
        }
        ClimbAvoids(up, c, link, up[x].value, k - 1);
      }
    }
  }

  // The first time a climb meets c, if it does.
  lemma {:induction false} FirstMeeting<T>(up: Links<T>, x: T, c: T, k: nat) returns (i: nat)
    requires Closed(up) && x in up && Climb(up, x, k) == Some(c)
    ensures i <= k && Climb(up, x, i) == Some(c)
    ensures forall j: nat :: j < i ==> Climb(up, x, j) != Some(c)
    decreases k
  {
    if j: nat :| j < k && Climb(up, x, j) == Some(c) {
      i := FirstMeeting(up, x, c, j);
    } else {
      i := k;
    }
  }

  lemma BelowUnchanged<T>(up: Links<T>, c: T, link: Option<T>, x: T)
    requires Closed(up) && Closed(up[c := link]) && x in up && c in up && !Below(up, x, c)
    ensures forall a :: Below(up[c := link], x, a) <==> Below(up, x, a)
    ensures Ends(up[c := link], x) <==> Ends(up, x)
  {
    var up' := up[c := link];
    forall k: nat ensures Climb(up', x, k) == Climb(up, x, k) {
      ClimbAvoids(up, c, link, x, k);
    }
    assert forall a, k: nat :: Climb(up, x, k) == Some(a) <==> Climb(up', x, k) == Some(a);
  }

  // A link change at c does not change who is below c, if c's new ancestors are not below c.
  lemma BelowOfChanged<T>(up: Links<T>, c: T, link: Option<T>, x: T)
    requires Closed(up) && Closed(up[c := link]) && x in up && c in up
    ensures Below(up[c := link], x, c) <==> Below(up, x, c)
  {
    var up' := up[c := link];
    if Below(up, x, c) {
      var k: nat :| Climb(up, x, k) == Some(c);
      var i := FirstMeeting(up, x, c, k);
      ClimbAvoids(up, c, link, x, i);
    }
    if Below(up', x, c) {
      var k: nat :| Climb(up', x, k) == Some(c);
      var i := FirstMeeting(up', x, c, k);
      ClimbAvoids(up', c, up[c], x, i);
      assert up'[c := up[c]] == up;
    }
  }

  lemma AttachedClosed<T>(up: Links<T>, f: T, c: T)
    requires Closed(up) && f in up && c in up
    ensures Closed(up[c := Some(f)]) && Closed(up[c := None])
  {
  }

  // After attaching, exactly the nodes below c have gained exactly the ancestors of f.
  lemma AttachBelow<T>(up: Links<T>, f: T, c: T, x: T, a: T)
    requires Attachable(up, f, c) && x in up
    ensures Closed(up[c := Some(f)])
    ensures Below(up[c := Some(f)], x, a)
       <==> Below(up, x, a) || (Below(up, x, c) && Below(up, f, a))
  {
    AttachedClosed(up, f, c);
    var up' := up[c := Some(f)];
    BelowUnchanged(up, c, Some(f), f);
    BelowOfChanged(up, c, Some(f), x);
    if !Below(up, x, c) {
      BelowUnchanged(up, c, Some(f), x);
    } else {
      BelowStep(up', c, a);
      if Below(up', x, a) {
        BelowIsNode(up', x, a);
        Comparable(up', x, a, c);
        BelowOfChanged(up, c, Some(f), a);
        if Below(up', a, c) {
          BelowBelowRoot(up, f, c, x, a);
        }
      }
      if Below(up, f, a) {
        BelowTransitive(up', x, c, a);
      }
      if Below(up, x, a) {
        BelowIsNode(up, x, a);
        BelowBelowRoot(up, f, c, x, a);
      }
    }
  }

  // Inside the subtree of the attached root nothing changes.
  lemma {:induction false} BelowBelowRoot<T>(up: Links<T>, f: T, c: T, x: T, a: T)
    requires Attachable(up, f, c) && x in up && a in up && Below(up, x, c)
    requires Closed(up[c := Some(f)])
    ensures Below(up, a, c) && Below(up[c := Some(f)], x, a) ==> Below(up, x, a)
    ensures Below(up, x, a) ==> Below(up[c := Some(f)], x, a)
  {
    var up' := up[c := Some(f)];
    var n: nat :| Climb(up, x, n) == Some(c);
    BelowWithin(up, f, c, x, a, n);
  }

  lemma {:induction false} BelowWithin<T>(up: Links<T>, f: T, c: T, x: T, a: T, n: nat)
    requires Attachable(up, f, c) && x in up && a in up && Climb(up, x, n) == Some(c)
    requires Closed(up[c := Some(f)])
    ensures Below(up, a, c) && Below(up[c := Some(f)], x, a) ==> Below(up, x, a)
    ensures Below(up, x, a) ==> Below(up[c := Some(f)], x, a)
    decreases n
  {
    var up' := up[c := Some(f)];
    BelowStep(up, x, a);
    BelowStep(up', x, a);
    if x == c {
      BelowUnchanged(up, c, Some(f), f);
      if Below(up, a, c) && Below(up', f, a) {
        BelowTransitive(up, f, a, c);
      }
    } else {
      BelowWithin(up, f, c, up[x].value, a, n - 1);
    }
  }

  lemma AttachRooted<T>(up: Links<T>, f: T, c: T)
    requires Attachable(up, f, c)
    ensures Closed(up[c := Some(f)]) && Rooted(up[c := Some(f)])
  {
    AttachedClosed(up, f, c);
    var up' := up[c := Some(f)];
    BelowUnchanged(up, c, Some(f), f);
    var k: nat :| Climb(up', f, k) == None;
    assert Climb(up', c, k + 1) == None;
    forall x | x in up' ensures Ends(up', x) {
      if !Below(up, x, c) {
        BelowUnchanged(up, c, Some(f), x);
      } else {
        BelowOfChanged(up, c, Some(f), x);
        var i: nat :| Climb(up', x, i) == Some(c);
        ClimbSum(up', x, i, k + 1);
      }
    }
  }

  // Attaching a node below itself makes a cycle.
  lemma AttachCycle<T>(up: Links<T>, f: T, c: T)
    requires Closed(up) && f in up && c in up && Below(up, f, c)
    ensures Closed(up[c := Some(f)]) && !Rooted(up[c := Some(f)])
  {
    AttachedClosed(up, f, c);
    var up' := up[c := Some(f)];
    BelowOfChanged(up, c, Some(f), f);
    var k: nat :| Climb(up', f, k) == Some(c);
    assert Climb(up', c, k + 1) == Some(c);
    if Ends(up', c) {
      NoCycle(up', c, k + 1);
    }
  }

  // Attaching c grows the subtrees of f and of its ancestors by c's subtree, and no others.
  lemma AttachSubtree<T>(up: Links<T>, f: T, c: T, a: T)
    requires Attachable(up, f, c) && a in up
    ensures Closed(up[c := Some(f)])
    ensures Subtree(up[c := Some(f)], a)
         == Subtree(up, a) + if Below(up, f, a) then Subtree(up, c) else {}
    ensures Below(up, f, a) ==> Subtree(up, a) !! Subtree(up, c)
  {
    forall x | x in up
      ensures Closed(up[c := Some(f)]) && (Below(up[c := Some(f)], x, a)
         <==> Below(up, x, a) || (Below(up, x, c) && Below(up, f, a)))
    {
      AttachBelow(up, f, c, x, a);
    }
    if Below(up, f, a) {
      forall x | x in Subtree(up, a) && x in Subtree(up, c) ensures false {
        Comparable(up, x, a, c);
        BelowStep(up, c, a);
        BelowSelf(up, c);
        if Below(up, a, c) {
          BelowTransitive(up, f, a, c);
        }
      }
    }
  }

  // ----- detaching -----

  lemma DetachRooted<T>(up: Links<T>, c: T)
    requires Closed(up) && Rooted(up) && c in up
    ensures Closed(up[c := None]) && Rooted(up[c := None])
  {
    var up' := up[c := None];
    assert Closed(up');
    assert Climb(up', c, 1) == None;
    forall x | x in up' ensures Ends(up', x) {
      if Below(up, x, c) {
        BelowOfChanged(up, c, None, x);
        var i: nat :| Climb(up', x, i) == Some(c);
        ClimbSum(up', x, i, 1);
      } else {
        BelowUnchanged(up, c, None, x);
      }
    }
  }

  // A detached child can be attached where it was.
  lemma DetachedIsAttachable<T>(up: Links<T>, f: T, c: T)
    requires Closed(up) && Rooted(up) && f in up && c in up && up[c] == Some(f)
    ensures Attachable(up[c := None], f, c) && up[c := None][c := Some(f)] == up
  {
    DetachRooted(up, c);
    ParentNotBelow(up, c);
    BelowOfChanged(up, c, None, f);
  }
}
