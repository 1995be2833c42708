// The painter of tests/mock/Painter.h, and the squares a turtle draws to either side.
module Painting {
  import opened Turtle
  import opened FourRuns

  function Side(size: int, g: int): seq<Cmd> { [Forward(size), Turn(g)] }

  function Repeat(prog: seq<Cmd>, n: nat): seq<Cmd> {
    if n == 0 then [] else Repeat(prog, n - 1) + prog
  }

  function Square(size: int): seq<Cmd> { [PenDown] + FourTimes(Side(size, 90)) + [PenUp] }

  class Painter {
    const turtle: FakeTurtle

    constructor (turtle: FakeTurtle)
      ensures this.turtle == turtle
    {
      this.turtle := turtle;
    }

    method DrawSquare(size: int)
      modifies turtle
      ensures turtle.Now() == Exec(old(turtle.Now()), Square(size))
    {
      ghost var s0, side := turtle.Now(), Side(size, 90);
      turtle.PenDown();
      ghost var done := [Cmd.PenDown];
      assert turtle.Now() == Exec(s0, done);
      for i := 0 to 4
        invariant turtle.Now() == Exec(s0, done)
        invariant done == [Cmd.PenDown] + Repeat(side, i)
      {
        turtle.Forward(size);
        turtle.Turn(90);
        ExecAppend(s0, done, side);
        ExecTwo(Exec(s0, done), side[0], side[1]);
        done := done + side;
      }
      turtle.PenUp();
      ExecAppend(s0, done, [Cmd.PenUp]);
      RepeatFour(side);
    }
  }

  lemma RepeatFour(prog: seq<Cmd>)
    ensures Repeat(prog, 4) == FourTimes(prog)
  {
    assert Repeat(prog, 1) == prog;
    assert Repeat(prog, 2) == prog + prog;
    assert Repeat(prog, 3) == prog + prog + prog;
  }

  // ----- any number of sides -----

  // The heading after n turns by g, and where n sides lead.
  function Heading(h: int, g: int, n: nat): int {
    if n == 0 then h else Rem(Heading(h, g, n - 1) + g)
  }

  function Sides(h: int, g: int, n: nat, d: int): Point {
    if n == 0 then (0, 0) else Plus(Sides(h, g, n - 1, d), Offset(Heading(h, g, n - 1), d))
  }

  lemma SidePose(s: State, g: int, d: int)
    ensures Exec(s, Side(d, g)).At() == Plus(s.At(), Offset(s.direction, d))
    ensures Exec(s, Side(d, g)).direction == Rem(s.direction + g)
  {
    ExecTwo(s, Forward(d), Turn(g));
    ForwardPose(s, d);
  }

  // Sides of any number, turned by any angle, from any heading.
  lemma {:induction false} SidesPose(s: State, g: int, n: nat, d: int)
    ensures var r := Exec(s, Repeat(Side(d, g), n));
      && r.At() == Plus(s.At(), Sides(s.direction, g, n, d))
      && r.direction == Heading(s.direction, g, n)
  {
    if n > 0 {
      var t := Repeat(Side(d, g), n - 1);
      SidesPose(s, g, n - 1, d);
      ExecAppend(s, t, Side(d, g));
      SidePose(Exec(s, t), g, d);
      PlusAssociates(s.At(), Sides(s.direction, g, n - 1, d), Offset(Heading(s.direction, g, n - 1), d));
    }
  }

  // ----- four sides, to the right and to the left -----

  function Right(h: int): int { if h < 270 then h + 90 else h - 270 }

  function Left(h: int): int { if h > -270 then h - 90 else h + 270 }

  lemma NextHeading(h: int)
    requires -360 < h < 360
    ensures Rem(h + 90) == Right(h) && Rem(h - 90) == Left(h)
  {
  }

  // Four sides through known headings; n is 4.
  lemma FourSides(h: int, g: int, h1: int, h2: int, h3: int, d: int, n: nat)
    requires h1 == Rem(h + g) && h2 == Rem(h1 + g) && h3 == Rem(h2 + g) && n == 4
    ensures Sides(h, g, n, d) == FourOffsets(h, h1, h2, h3, d)
    ensures Heading(h, g, n) == Rem(h3 + g)
  {
    assert Heading(h, g, n - 3) == h1;
    assert Heading(h, g, n - 2) == h2;
    assert Heading(h, g, n - 1) == h3;
    var a, b, c, e := Offset(h, d), Offset(h1, d), Offset(h2, d), Offset(h3, d);
    assert Sides(h, g, n - 3, d) == Plus((0, 0), a) == a;
    assert Sides(h, g, n - 2, d) == Plus(a, b);
    assert Sides(h, g, n - 1, d) == Plus(Plus(a, b), c);
  }

  // The turtle only moves on a heading of 0, 90, 180 or 270, so sides are missing from a square that
  // starts on a negative one: with right turns until the heading is positive, ..
  function RightMissing(h: int, d: int): Point {
    match h
    case -90 => (d, 0)
    case -180 => (d, d)
    case -270 => (0, d)
    case _ => (0, 0)
  }

  // .. and with left turns from where it becomes negative.
  function LeftMissing(h: int, d: int): Point {
    match h
    case 90 => (d, d)
    case 180 => (d, 0)
    case 0 => (0, d)
    case -90 => (0, d)
    case -180 => (0, d)
    case -270 => (0, d)
    case _ => (0, 0)
  }

  lemma RightSides(h: int, d: int, n: nat)
    requires -360 < h < 360 && n == 4
    ensures Sides(h, 90, n, d) == RightMissing(h, d)
    ensures Heading(h, 90, n) == if h >= 0 then h else h + 360
  {
    var h1 := Right(h);
    var h2 := Right(h1);
    var h3 := Right(h2);
    NextHeading(h);
    NextHeading(h1);
    NextHeading(h2);
    NextHeading(h3);
    FourSides(h, 90, h1, h2, h3, d, n);
    Walks(h, h1, h2, h3);
    if OnAxis(h) {
      RightOffsets(h, h1, h2, h3, d);
    } else {
      OffAxis(h, h1, h2, h3, d);
    }
  }

  lemma LeftSides(h: int, d: int, n: nat)
    requires -360 < h < 360 && n == 4
    ensures Sides(h, -90, n, d) == LeftMissing(h, d)
    ensures Heading(h, -90, n) == if h > 0 then h - 360 else h
  {
    var h1 := Left(h);
    var h2 := Left(h1);
    var h3 := Left(h2);
    NextHeading(h);
    NextHeading(h1);
    NextHeading(h2);
    NextHeading(h3);
    FourSides(h, -90, h1, h2, h3, d, n);
    Walks(h, h1, h2, h3);
    if OnAxis(h) {
      LeftOffsets(h, h1, h2, h3, d);
    } else {
      OffAxis(h, h1, h2, h3, d);
    }
  }

  // The headings of four sides, where the first one is a quarter turn; elsewhere nothing moves.
  predicate RightWalk(h: int, h1: int, h2: int, h3: int) {
    || (h == 0 && h1 == 90 && h2 == 180 && h3 == 270)
    || (h == 90 && h1 == 180 && h2 == 270 && h3 == 0)
    || (h == 180 && h1 == 270 && h2 == 0 && h3 == 90)
    || (h == 270 && h1 == 0 && h2 == 90 && h3 == 180)
    || (h == -90 && h1 == 0 && h2 == 90 && h3 == 180)
    || (h == -180 && h1 == -90 && h2 == 0 && h3 == 90)
    || (h == -270 && h1 == -180 && h2 == -90 && h3 == 0)
  }

  predicate LeftWalk(h: int, h1: int, h2: int, h3: int) {
    || (h == 0 && h1 == -90 && h2 == -180 && h3 == -270)
    || (h == 90 && h1 == 0 && h2 == -90 && h3 == -180)
    || (h == 180 && h1 == 90 && h2 == 0 && h3 == -90)
    || (h == 270 && h1 == 180 && h2 == 90 && h3 == 0)
    || (h == -90 && h1 == -180 && h2 == -270 && h3 == 0)
    || (h == -180 && h1 == -270 && h2 == 0 && h3 == -90)
    || (h == -270 && h1 == 0 && h2 == -90 && h3 == -180)
  }

  predicate OnAxis(h: int) { h in {-270, -180, -90, 0, 90, 180, 270} }

  lemma Walks(h: int, h1: int, h2: int, h3: int)
    requires -360 < h < 360
    ensures h1 == Right(h) && h2 == Right(h1) && h3 == Right(h2) ==>
      if OnAxis(h) then RightWalk(h, h1, h2, h3) else !OnAxis(h1) && !OnAxis(h2) && !OnAxis(h3)
    ensures h1 == Left(h) && h2 == Left(h1) && h3 == Left(h2) ==>
      if OnAxis(h) then LeftWalk(h, h1, h2, h3) else !OnAxis(h1) && !OnAxis(h2) && !OnAxis(h3)
  {
  }

  function FourOffsets(h: int, h1: int, h2: int, h3: int, d: int): Point {
    Plus(Plus(Plus(Offset(h, d), Offset(h1, d)), Offset(h2, d)), Offset(h3, d))
  }

  lemma RightOffsets(h: int, h1: int, h2: int, h3: int, d: int)
    requires RightWalk(h, h1, h2, h3)
    ensures FourOffsets(h, h1, h2, h3, d) == RightMissing(h, d)
  {
  }

  lemma LeftOffsets(h: int, h1: int, h2: int, h3: int, d: int)
    requires LeftWalk(h, h1, h2, h3)
    ensures FourOffsets(h, h1, h2, h3, d) == LeftMissing(h, d)
  {
  }

  lemma OffAxis(h: int, h1: int, h2: int, h3: int, d: int)
    requires !OnAxis(h) && !OnAxis(h1) && !OnAxis(h2) && !OnAxis(h3)
    ensures FourOffsets(h, h1, h2, h3, d) == (0, 0) == RightMissing(h, d) == LeftMissing(h, d)
  {
  }

  lemma {:induction false} ForwardsRepeat(d: int, g: int, n: nat)
    ensures Forwards(Repeat(Side(d, g), n)) == n
  {
    if n > 0 {
      var side := Side(d, g);
      ForwardsRepeat(d, g, n - 1);
      ForwardsAppend(Repeat(side, n - 1), side);
      assert side[1..] == [Turn(g)];
      assert Forwards(side[1..]) == 0;
    }
  }

  lemma RightSquare(s: State, size: int, n: nat)
    requires -360 < s.direction < 360 && n == 4
    ensures var r := Exec(s, Repeat(Side(size, 90), n));
      && r.At() == Plus(s.At(), RightMissing(s.direction, size))
      && r.direction == if s.direction >= 0 then s.direction else s.direction + 360
  {
    SidesPose(s, 90, n, size);
    RightSides(s.direction, size, n);
  }

  // From every heading the turtle can have, a square closes unless the heading is a negative
  // quarter turn (and the square is not a point); the heading comes back exactly when it was not
  // negative; the eight points recorded are joined.
  lemma SquareCloses(s: State, size: int) returns (added: seq<Point>)
    requires -360 < s.direction < 360
    ensures Exec(s, Square(size)).At() == s.At()
       <==> size == 0 || s.direction !in {-90, -180, -270}
    ensures Exec(s, Square(size)).direction == s.direction <==> s.direction >= 0
    ensures !Exec(s, Square(size)).penDown
    ensures Exec(s, Square(size)).path == s.path + added && |added| == 8
    ensures Joined(added, s.At(), Exec(s, Square(size)).At())
  {
    var s0, side := Apply(s, PenDown), Side(size, 90);
    var prog := FourTimes(side);
    assert forall c :: c in FourTimes(side) ==> c in side;
    RepeatFour(side);
    added := RecordsJoinedPath(s0, prog);
    ForwardsRepeat(size, 90, 4);
    RightSquare(s0, size, 4);
    ExecAppend(s, [PenDown] + prog, [PenUp]);
    ExecAppend(s, [PenDown], prog);
    var r := Exec(s0, prog);
    assert Exec(s, Square(size)) == r.(penDown := false);
  }

  // A side with the pen down records its two ends.
  lemma SidePath(s: State, g: int, d: int)
    requires s.penDown
    ensures var r := Exec(s, Side(d, g));
      r.penDown && r.path == s.path + [s.At(), Plus(s.At(), Offset(s.direction, d))]
  {
    ExecTwo(s, Forward(d), Turn(g));
    ForwardPath(s, d);
  }

  lemma ForwardPath(s: State, d: int)
    requires s.penDown
    ensures Apply(s, Forward(d)).path == s.path + [s.At(), Plus(s.At(), Offset(s.direction, d))]
    ensures Apply(s, Forward(d)).penDown
  {
    ForwardPose(s, d);
    assert s.path + [s.At()] + [Apply(s, Forward(d)).At()] == s.path + [s.At(), Apply(s, Forward(d)).At()];
  }

  // The points recorded along a closed line with four corners.
  function Around(a: Point, b: Point, c: Point, d: Point): seq<Point> { [a, b, b, c, c, d, d, a] }

  // The square drawn at (x, y) from an axis heading: its first side is ahead, the others follow to
  // the right, each of the given size.
  function Drawn(h: int, x: int, y: int, d: int): seq<Point> {
    match h
    case 0 => Around((x, y), (x, y + d), (x + d, y + d), (x + d, y))
    case 90 => Around((x, y), (x + d, y), (x + d, y - d), (x, y - d))
    case 180 => Around((x, y), (x, y - d), (x - d, y - d), (x - d, y))
    case _ => Around((x, y), (x - d, y), (x - d, y + d), (x, y + d))
  }

  lemma SquareDrawn(s: State, size: int)
    requires Axis(s.direction)
    ensures Exec(s, Square(size)).path == s.path + Drawn(s.direction, s.x, s.y, size)
  {
    var s0, side := Apply(s, PenDown), Side(size, 90);
    FourSidesPath(s0, size);
    DrawnByOffsets(s.direction, s.At(), size);
    ExecAppend(s, [PenDown] + FourTimes(side), [PenUp]);
    ExecAppend(s, [PenDown], FourTimes(side));
    assert Exec(s, Square(size)) == Exec(s0, FourTimes(side)).(penDown := false);
  }

  lemma DrawnByOffsets(h: int, p: Point, d: int)
    requires Axis(h)
    ensures var p1 := Plus(p, Offset(h, d));
      var p2 := Plus(p1, Offset(Right(h), d));
      var p3 := Plus(p2, Offset(Right(Right(h)), d));
      var p4 := Plus(p3, Offset(Right(Right(Right(h))), d));
      [p, p1, p1, p2, p2, p3, p3, p4] == Drawn(h, p.0, p.1, d)
  {
    if h == 0 {
    } else if h == 90 {
    } else if h == 180 {
    } else {
      assert h == 270;
    }
  }

  lemma FourSidesPath(s: State, d: int)
    requires s.penDown && Axis(s.direction)
    ensures var h, p := s.direction, s.At();
      var p1 := Plus(p, Offset(h, d));
      var p2 := Plus(p1, Offset(Right(h), d));
      var p3 := Plus(p2, Offset(Right(Right(h)), d));
      var p4 := Plus(p3, Offset(Right(Right(Right(h))), d));
      Exec(s, FourTimes(Side(d, 90))).path == s.path + [p, p1, p1, p2, p2, p3, p3, p4]
  {
    var side := Side(d, 90);
    var s1 := Exec(s, side);
    var s2 := Exec(s1, side);
    var s3 := Exec(s2, side);
    ExecFourTimes(s, side);
    SidePath(s, 90, d);
    SidePose(s, 90, d);
    NextHeading(s.direction);
    SidePath(s1, 90, d);
    SidePose(s1, 90, d);
    NextHeading(s1.direction);
    SidePath(s2, 90, d);
    SidePose(s2, 90, d);
    NextHeading(s2.direction);
    SidePath(s3, 90, d);
    FourPairs(s.path, s.At(), s1.At(), s2.At(), s3.At(), Plus(s3.At(), Offset(s3.direction, d)));
  }

  lemma FourPairs(path: seq<Point>, p: Point, p1: Point, p2: Point, p3: Point, p4: Point)
    ensures path + [p, p1] + [p1, p2] + [p2, p3] + [p3, p4] == path + [p, p1, p1, p2, p2, p3, p3, p4]
  {
  }

  // A square to the left closes, from every heading, exactly when it is a point, the heading is
  // west, or the turtle never moves; it brings the heading back exactly when that was not positive.
  lemma LeftSquareCloses(s: State, size: int)
    requires -360 < s.direction < 360
    ensures var r := Exec(s, FourTimes(Side(size, -90)));
      && r.At() == Plus(s.At(), LeftMissing(s.direction, size))
      && (r.At() == s.At() <==> size == 0 || s.direction == 270 || !OnAxis(s.direction))
      && (r.direction == s.direction <==> s.direction <= 0)
  {
    RepeatFour(Side(size, -90));
    LeftSquare(s, size, 4);
  }

  lemma LeftSquare(s: State, size: int, n: nat)
    requires -360 < s.direction < 360 && n == 4
    ensures var r := Exec(s, Repeat(Side(size, -90), n));
      && r.At() == Plus(s.At(), LeftMissing(s.direction, size))
      && r.direction == if s.direction > 0 then s.direction - 360 else s.direction
  {
    SidesPose(s, -90, n, size);
    LeftSides(s.direction, size, n);
  }
}
