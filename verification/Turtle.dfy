// The recording turtle of tests/mock/FakeTurtle.h.
module Turtle {

  datatype Cmd = Forward(distance: int) | Turn(degrees: int) | PenUp | PenDown | GoTo(x: int, y: int)

  type Point = (int, int)

  function Plus(v: Point, w: Point): Point { (v.0 + w.0, v.1 + w.1) }

  datatype State = State(x: int, y: int, direction: int, penDown: bool, path: seq<Point>) {
    function At(): Point { (x, y) }

    function Record(): State {
      if penDown then this.(path := path + [At()]) else this
    }
  }

  // C++ remainder by 360: the sign of the dividend.
  function Rem(a: int): (r: int)
    ensures -360 < r < 360
    ensures a >= 0 ==> r == a % 360
    ensures a <= 0 ==> r <= 0
  {
    if a >= 0 then a % 360 else -((-a) % 360)
  }

  // A move along the heading; headings other than 0, 90, 180 and 270 do not move.
  function Moved(s: State, d: int): State {
    match s.direction
    case 0 => s.(y := s.y + d)
    case 90 => s.(x := s.x + d)
    case 180 => s.(y := s.y - d)
    case 270 => s.(x := s.x - d)
    case _ => s
  }

  function Apply(s: State, c: Cmd): State {
    match c
    case Forward(d) => Moved(s.Record(), d).Record()
    case Turn(g) => s.(direction := Rem(s.direction + g))
    case PenUp => s.(penDown := false)
    case PenDown => s.(penDown := true)
    case GoTo(x, y) => s.(x := x, y := y)
  }

  function Exec(s: State, prog: seq<Cmd>): State
    decreases prog
  {
    if prog == [] then s else Exec(Apply(s, prog[0]), prog[1..])
  }

  lemma {:induction false} ExecAppend(s: State, p: seq<Cmd>, q: seq<Cmd>)
    ensures Exec(s, p + q) == Exec(Exec(s, p), q)
    decreases p
  {
    if p == [] {
      assert p + q == q;
    } else {
      assert (p + q)[1..] == p[1..] + q;
      ExecAppend(Apply(s, p[0]), p[1..], q);
    }
  }

  class FakeTurtle {
    var x: int
    var y: int
    var direction: int
    var penDown: bool
    var path: seq<Point>

    ghost function Now(): State
      reads this
    {
      State(x, y, direction, penDown, path)
    }

    constructor ()
      ensures Now() == State(0, 0, 0, false, [])
    {
      x, y, direction, penDown, path := 0, 0, 0, false, [];
    }

    method PenUp()
      modifies this
      ensures Now() == Apply(old(Now()), Cmd.PenUp)
    {
      penDown := false;
    }

    method PenDown()
      modifies this
      ensures Now() == Apply(old(Now()), Cmd.PenDown)
    {
      penDown := true;
    }

    method Forward(distance: int)
      modifies this
      ensures Now() == Apply(old(Now()), Cmd.Forward(distance))
    {
      if penDown {
        path := path + [(x, y)];
      }
      match direction {
        case 0 => y := y + distance;
        case 90 => x := x + distance;
        case 180 => y := y - distance;
        case 270 => x := x - distance;
        case _ =>
      }
      if penDown {
        path := path + [(x, y)];
      }
    }

    method Turn(degrees: int)
      modifies this
      ensures Now() == Apply(old(Now()), Cmd.Turn(degrees))
    {
      direction := Rem(direction + degrees);
    }

    method GoTo(x: int, y: int)
      modifies this
      ensures Now() == Apply(old(Now()), Cmd.GoTo(x, y))
    {
      this.x, this.y := x, y;
    }
  }

  // How far a move leads on each heading.
  function Offset(h: int, d: int): Point {
    match h
    case 0 => (0, d)
    case 90 => (d, 0)
    case 180 => (0, -d)
    case 270 => (-d, 0)
    case _ => (0, 0)
  }

  lemma ForwardPose(s: State, d: int)
    ensures Apply(s, Forward(d)).At() == Plus(s.At(), Offset(s.direction, d))
    ensures Apply(s, Forward(d)).direction == s.direction
  {
  }

  lemma ExecTwo(s: State, c: Cmd, d: Cmd)
    ensures Exec(s, [c, d]) == Apply(Apply(s, c), d)
  {
    assert [c, d][1..] == [d];
    assert Exec(Apply(s, c), [d]) == Apply(Apply(s, c), d);
  }

  // ----- the recorded path -----

  function Forwards(prog: seq<Cmd>): nat {
    if prog == [] then 0 else (if prog[0].Forward? then 1 else 0) + Forwards(prog[1..])
  }

  lemma ForwardsAppend(p: seq<Cmd>, q: seq<Cmd>)
    ensures Forwards(p + q) == Forwards(p) + Forwards(q)
  {
    if p == [] {
      assert p + q == q;
    } else {
      assert (p + q)[1..] == p[1..] + q;
    }
  }

  // A jump leads to its target and records nothing, whatever came before.
  lemma GoToJumps(s: State, prog: seq<Cmd>, x: int, y: int)
    ensures var before, r := Exec(s, prog), Exec(s, prog + [GoTo(x, y)]);
      && r.At() == (x, y) && r.direction == before.direction
      && r.penDown == before.penDown && r.path == before.path
  {
    ExecAppend(s, prog, [GoTo(x, y)]);
    assert [GoTo(x, y)][1..] == [];
  }

  // With the pen up a program leaves the path as it is, whatever it does, jumps included.
  lemma {:induction false} PenUpLeavesPath(s: State, prog: seq<Cmd>)
    requires !s.penDown && PenDown !in prog
    ensures Exec(s, prog).path == s.path && !Exec(s, prog).penDown
    decreases prog
  {
    if prog != [] {
      assert prog[0] in prog;
      assert forall c :: c in prog[1..] ==> c in prog;
      PenUpLeavesPath(Apply(s, prog[0]), prog[1..]);
    }
  }

  // Points recorded in pairs, each pair starting where the one before ended.
  ghost predicate Joined(path: seq<Point>, start: Point, end: Point)
  {
    && |path| % 2 == 0
    && (path == [] ==> start == end)
    && (path != [] ==> path[0] == start && path[|path| - 1] == end)
    && forall i :: 0 <= i < |path| - 2 && i % 2 == 1 ==> path[i] == path[i + 1]
  }

  lemma JoinedGrows(start: Point, corner: Point, rest: seq<Point>, end: Point)
    requires Joined(rest, corner, end)
    ensures Joined([start, corner] + rest, start, end)
  {
    var path := [start, corner] + rest;
    forall i | 0 <= i < |path| - 2 && i % 2 == 1 ensures path[i] == path[i + 1] {
      if i >= 2 {
        assert rest[i - 2] == rest[i - 1];
      }
    }
  }

  // With the pen down, moves and turns extend the path by two points a move, joined end to end.
  lemma {:induction false} RecordsJoinedPath(s: State, prog: seq<Cmd>) returns (added: seq<Point>)
    requires s.penDown && forall c :: c in prog ==> c.Forward? || c.Turn?
    ensures Exec(s, prog).path == s.path + added && |added| == 2 * Forwards(prog)
    ensures Joined(added, s.At(), Exec(s, prog).At())
    ensures Exec(s, prog).penDown
    decreases prog
  {
    if prog == [] {
      added := [];
    } else {
      var s1 := Apply(s, prog[0]);
      assert prog[0] in prog;
      assert forall c :: c in prog[1..] ==> c in prog;
      var rest := RecordsJoinedPath(s1, prog[1..]);
      if prog[0].Forward? {
        added := [s.At(), s1.At()] + rest;
        assert s1.path == s.path + [s.At(), s1.At()];
        assert s.path + [s.At(), s1.At()] + rest == s.path + added;
        JoinedGrows(s.At(), s1.At(), rest, Exec(s, prog).At());
      } else {
        added := rest;
      }
    }
  }
}
