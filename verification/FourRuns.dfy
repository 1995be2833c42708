// Rotation symmetry of the turtle of tests/mock/FakeTurtle.h: what a program of moves and quarter
// turns does from any quarter heading, and when four runs of it close.
module FourRuns {
  import opened Turtle

  function Rotate(h: int, v: Point): Point {
    match h
    case 90 => (v.1, -v.0)
    case 180 => (-v.0, -v.1)
    case 270 => (-v.1, v.0)
    case _ => v
  }

  predicate Axis(h: int) { h in {0, 90, 180, 270} }

  // Headings and programs by quarter turns, to either side.
  predicate Quarter(h: int) { -360 < h < 360 && h % 90 == 0 }

  predicate QuarterTurns(prog: seq<Cmd>) {
    forall i :: 0 <= i < |prog| ==>
      prog[i].Forward? || (prog[i].Turn? && prog[i].degrees % 90 == 0)
  }

  function Net(prog: seq<Cmd>): int {
    if prog == [] then 0
    else (if prog[0].Turn? then prog[0].degrees else 0) + Net(prog[1..])
  }

  // Where a program started at the origin heading north ends up if every move is made.
  function Displacement(prog: seq<Cmd>): Point {
    if prog == [] then (0, 0)
    else match prog[0]
      case Forward(d) => Plus((0, d), Displacement(prog[1..]))
      case Turn(g) => Rotate(Face(g), Displacement(prog[1..]))
      case _ => Displacement(prog[1..])
  }

  // The moves that are not made because the heading is negative, added up along the program.
  function Lost(h: int, prog: seq<Cmd>): Point
    decreases prog
  {
    if prog == [] then (0, 0)
    else match prog[0]
      case Forward(d) => Plus(Missed(h, d), Lost(h, prog[1..]))
      case Turn(g) => Lost(Rem(h + g), prog[1..])
      case _ => Lost(h, prog[1..])
  }

  function Missed(h: int, d: int): Point { if h < 0 then Rotate(Face(h), (0, d)) else (0, 0) }

  // ----- angles -----

  // The same heading from 0 up to 360.
  function Face(h: int): (f: int)
    ensures 0 <= f < 360
    decreases if h < 0 then 360 - h else h
  {
    if h < 0 then Face(h + 360) else if h >= 360 then Face(h - 360) else h
  }

  lemma {:induction false} FaceIsMod(h: int)
    ensures Face(h) == h % 360
    decreases if h < 0 then 360 - h else h
  {
    if h < 0 {
      FaceIsMod(h + 360);
      ModIs(h, (h + 360) / 360 - 1, Face(h));
    } else if h >= 360 {
      FaceIsMod(h - 360);
      ModIs(h, (h - 360) / 360 + 1, Face(h));
    }
  }

  lemma ModIs(a: int, q: int, r: int)
    requires a == 360 * q + r && 0 <= r < 360
    ensures a % 360 == r
  {
  }

  lemma FaceOnAxis(a: int)
    requires a % 90 == 0
    ensures Axis(Face(a))
  {
    FaceIsMod(a);
    var q := a / 90;
    ModIs(a, q / 4, 90 * (q % 4));
  }

  // An angle below 720 brought under a full turn.
  function Wrap(a: int): int { if a < 360 then a else a - 360 }

  lemma FaceSum(h: int, g: int)
    ensures Face(h + g) == Wrap(Face(h) + Face(g))
  {
    FaceIsMod(h);
    FaceIsMod(g);
    FaceIsMod(h + g);
    var r := h % 360 + g % 360;
    ModIs(h + g, h / 360 + g / 360 + (if r < 360 then 0 else 1), Wrap(r));
  }

  lemma SumOfTurns(h: int, g: int, m: int)
    requires Face(h) == Face(g)
    ensures Face(h + m) == Face(g + m)
  {
    FaceSum(h, m);
    FaceSum(g, m);
  }

  // The C++ remainder is the same heading.
  lemma RemFace(a: int)
    ensures Face(Rem(a)) == Face(a)
  {
    FaceIsMod(a);
    FaceIsMod(Rem(a));
    if a < 0 {
      var q, r := (-a) / 360, (-a) % 360;
      assert a == 360 * (-q) - r && Rem(a) == -r;
      if r == 0 {
        ModIs(a, -q, 0);
      } else {
        ModIs(a, -q - 1, 360 - r);
        ModIs(-r, -1, 360 - r);
      }
    }
  }

  // And a quarter turn stays one.
  lemma RemQuarter(a: int)
    requires a % 90 == 0
    ensures Face(Rem(a)) == Face(a) && Quarter(Rem(a))
  {
    RemFace(a);
    RemStaysQuarter(a);
  }

  lemma RemStaysQuarter(a: int)
    requires a % 90 == 0
    ensures Rem(a) % 90 == 0
  {
    var k := a / 90;
    if a < 0 {
      NinetyTimes(Rem(a), k + 4 * ((-a) / 360));
    } else {
      NinetyTimes(Rem(a), k - 4 * (a / 360));
    }
  }

  lemma NinetyTimes(a: int, k: int)
    requires a == 90 * k
    ensures a % 90 == 0
  {
  }

  lemma RotateTwice(h: int, g: int, v: Point)
    requires h % 90 == 0 && g % 90 == 0
    ensures Rotate(Face(h), Rotate(Face(g), v)) == Rotate(Face(h + g), v)
  {
    FaceOnAxis(h);
    FaceOnAxis(g);
    FaceSum(h, g);
  }

  lemma RotatePlus(h: int, v: Point, w: Point)
    ensures Rotate(h, Plus(v, w)) == Plus(Rotate(h, v), Rotate(h, w))
  {
  }

  // ----- what a program does -----

  // The moves that are made, added up along the program.
  function Travelled(h: int, prog: seq<Cmd>): Point
    decreases prog
  {
    if prog == [] then (0, 0)
    else match prog[0]
      case Forward(d) => Plus(Offset(h, d), Travelled(h, prog[1..]))
      case Turn(g) => Travelled(Rem(h + g), prog[1..])
      case _ => Travelled(h, prog[1..])
  }

  lemma {:induction false} ExecTravels(s: State, prog: seq<Cmd>)
    requires QuarterTurns(prog)
    ensures Exec(s, prog).At() == Plus(s.At(), Travelled(s.direction, prog))
    decreases prog
  {
    if prog != [] {
      var s1, rest := Apply(s, prog[0]), prog[1..];
      if prog[0].Forward? {
        var d := prog[0].distance;
        ForwardPose(s, d);
        ExecTravels(s1, rest);
        PlusAssociates(s.At(), Offset(s.direction, d), Travelled(s.direction, rest));
      } else {
        ExecTravels(s1, rest);
      }
    }
  }

  lemma PlusAssociates(u: Point, v: Point, w: Point)
    ensures Plus(u, Plus(v, w)) == Plus(Plus(u, v), w)
  {
  }

  // A forward command from a quarter heading is made or lost.
  lemma MadeOrLost(h: int, d: int)
    requires Quarter(h)
    ensures Plus(Offset(h, d), Missed(h, d)) == Rotate(Face(h), (0, d))
  {
    FaceOnAxis(h);
  }

  // From every quarter heading, what is made and what is lost is the rotated displacement.
  ghost predicate Balanced(h: int, prog: seq<Cmd>) {
    Plus(Travelled(h, prog), Lost(h, prog)) == Rotate(Face(h), Displacement(prog))
  }

  lemma {:induction false} MadeAndLost(h: int, prog: seq<Cmd>)
    requires Quarter(h) && QuarterTurns(prog)
    ensures Balanced(h, prog)
    decreases prog
  {
    if prog == [] {
      RotateNothing(Face(h));
    } else if prog[0].Forward? {
      MadeAndLost(h, prog[1..]);
      MadeOrLost(h, prog[0].distance);
      ForwardBalances(h, prog[0].distance, prog[1..]);
    } else {
      RemQuarter(h + prog[0].degrees);
      MadeAndLost(Rem(h + prog[0].degrees), prog[1..]);
      TurnRotates(h, prog[0].degrees, Rem(h + prog[0].degrees), Displacement(prog[1..]));
    }
  }

  lemma ForwardBalances(h: int, d: int, rest: seq<Cmd>)
    requires Balanced(h, rest) && Plus(Offset(h, d), Missed(h, d)) == Rotate(Face(h), (0, d))
    ensures Plus(Plus(Offset(h, d), Travelled(h, rest)), Plus(Missed(h, d), Lost(h, rest)))
         == Rotate(Face(h), Plus((0, d), Displacement(rest)))
  {
    RotatePlus(Face(h), (0, d), Displacement(rest));
    PlusSwaps(Offset(h, d), Travelled(h, rest), Missed(h, d), Lost(h, rest));
  }

  lemma PlusSwaps(a: Point, b: Point, c: Point, d: Point)
    ensures Plus(Plus(a, b), Plus(c, d)) == Plus(Plus(a, c), Plus(b, d))
  {
  }

  // Rotating by the turn and then by the heading is rotating by the heading after the turn.
  lemma TurnRotates(h: int, g: int, after: int, v: Point)
    requires h % 90 == 0 && g % 90 == 0 && Face(after) == Face(h + g)
    ensures Rotate(Face(h), Rotate(Face(g), v)) == Rotate(Face(after), v)
  {
    RotateTwice(h, g, v);
  }

  // So from every quarter heading a program moves by its rotated displacement, but for the moves
  // that are lost on the way.
  lemma ProgramMoves(s: State, prog: seq<Cmd>)
    requires Quarter(s.direction) && QuarterTurns(prog)
    ensures Plus(Exec(s, prog).At(), Lost(s.direction, prog))
         == Plus(s.At(), Rotate(Face(s.direction), Displacement(prog)))
  {
    ExecTravels(s, prog);
    MadeAndLost(s.direction, prog);
    PlusAssociates(s.At(), Travelled(s.direction, prog), Lost(s.direction, prog));
  }

  lemma RotateNothing(h: int)
    ensures Rotate(h, (0, 0)) == (0, 0)
  {
  }

  function HeadingAfter(h: int, prog: seq<Cmd>): int
    decreases prog
  {
    if prog == [] then h
    else HeadingAfter(if prog[0].Turn? then Rem(h + prog[0].degrees) else h, prog[1..])
  }

  lemma {:induction false} ExecHeading(s: State, prog: seq<Cmd>)
    ensures Exec(s, prog).direction == HeadingAfter(s.direction, prog)
    decreases prog
  {
    if prog != [] {
      ExecHeading(Apply(s, prog[0]), prog[1..]);
    }
  }

  // Whatever its turns, a program turns by their sum, up to full turns.
  lemma {:induction false} TurnsByNet(h: int, prog: seq<Cmd>)
    ensures Face(HeadingAfter(h, prog)) == Face(h + Net(prog))
    decreases prog
  {
    if prog != [] {
      var rest := prog[1..];
      if prog[0].Turn? {
        var g := prog[0].degrees;
        TurnsByNet(Rem(h + g), rest);
        RemFace(h + g);
        SumOfTurns(Rem(h + g), h + g, Net(rest));
      } else {
        TurnsByNet(h, rest);
      }
    }
  }

  // ----- one program after another -----

  lemma {:induction false} NetQuarters(prog: seq<Cmd>)
    requires QuarterTurns(prog)
    ensures Net(prog) % 90 == 0
  {
    if prog != [] {
      NetQuarters(prog[1..]);
    }
  }

  lemma {:induction false} NetAppend(p: seq<Cmd>, q: seq<Cmd>)
    ensures Net(p + q) == Net(p) + Net(q)
  {
    if p == [] {
      assert p + q == q;
    } else {
      assert (p + q)[1..] == p[1..] + q;
      NetAppend(p[1..], q);
    }
  }

  // The second program is displaced as the first one has turned.
  lemma {:induction false} DisplacementAppend(p: seq<Cmd>, q: seq<Cmd>)
    requires QuarterTurns(p) && QuarterTurns(q)
    ensures Displacement(p + q) == Plus(Displacement(p), Rotate(Face(Net(p)), Displacement(q)))
  {
    if p == [] {
      assert p + q == q;
    } else {
      var rest := p[1..];
      assert (p + q)[1..] == rest + q;
      DisplacementAppend(rest, q);
      if p[0].Turn? {
        NetQuarters(rest);
        TurnBoth(p[0].degrees, Net(rest), Displacement(rest), Displacement(q));
      } else {
        PlusAssociates((0, p[0].distance), Displacement(rest), Rotate(Face(Net(rest)), Displacement(q)));
      }
    }
  }

  lemma TurnBoth(g: int, n: int, v: Point, w: Point)
    requires g % 90 == 0 && n % 90 == 0
    ensures Rotate(Face(g), Plus(v, Rotate(Face(n), w)))
         == Plus(Rotate(Face(g), v), Rotate(Face(g + n), w))
  {
    RotatePlus(Face(g), v, Rotate(Face(n), w));
    RotateTwice(g, n, w);
  }

  function FourTimes(prog: seq<Cmd>): seq<Cmd> { prog + prog + prog + prog }

  // Four equally spaced rotations of a vector cancel, unless they are all the same.
  lemma RotationsCancel(v: Point, t: int, t2: int, t3: int, d2: Point, d3: Point, d4: Point)
    requires Axis(t) && t2 == Wrap(t + t) && t3 == Wrap(t2 + t)
    requires d2 == Plus(v, Rotate(t, v)) && d3 == Plus(d2, Rotate(t2, v))
    requires d4 == Plus(d3, Rotate(t3, v))
    ensures d4 == if t != 0 then (0, 0) else (4 * v.0, 4 * v.1)
    ensures Wrap(t3 + t) == 0
  {
  }

  lemma FourDisplacements(prog: seq<Cmd>)
    requires QuarterTurns(prog)
    ensures var v := Displacement(prog);
      Displacement(FourTimes(prog)) == if Face(Net(prog)) != 0 then (0, 0) else (4 * v.0, 4 * v.1)
    ensures Face(Net(FourTimes(prog))) == 0
  {
    var v := Displacement(prog);
    var p2 := prog + prog;
    var p3 := p2 + prog;
    QuartersAppend(prog, prog);
    QuartersAppend(p2, prog);
    DisplacementAppend(prog, prog);
    DisplacementAppend(p2, prog);
    DisplacementAppend(p3, prog);
    NetAppendMod(prog, prog);
    NetAppendMod(p2, prog);
    NetAppendMod(p3, prog);
    NetQuarters(prog);
    FaceOnAxis(Net(prog));
    RotationsCancel(v, Face(Net(prog)), Face(Net(p2)), Face(Net(p3)),
                    Displacement(p2), Displacement(p3), Displacement(p3 + prog));
  }

  lemma QuartersAppend(p: seq<Cmd>, q: seq<Cmd>)
    requires QuarterTurns(p) && QuarterTurns(q)
    ensures QuarterTurns(p + q)
  {
  }

  lemma NetAppendMod(p: seq<Cmd>, q: seq<Cmd>)
    ensures Face(Net(p + q)) == Wrap(Face(Net(p)) + Face(Net(q)))
  {
    NetAppend(p, q);
    FaceSum(Net(p), Net(q));
  }

  // Four runs of a program of moves and quarter turns restore the heading up to full turns. They
  // restore the position exactly when nothing is lost on balance, if one run turns; if it does not
  // turn, exactly when the lost moves make up for the four displacements.
  lemma FourRunsClose(s: State, prog: seq<Cmd>)
    requires Quarter(s.direction) && QuarterTurns(prog)
    ensures Face(Exec(s, FourTimes(prog)).direction) == Face(s.direction)
    ensures Exec(s, FourTimes(prog)).At() == s.At()
       <==> Lost(s.direction, FourTimes(prog)) == Unclosed(s.direction, prog)
  {
    ProgramMoves(s, FourTimes(prog));
    ExecHeading(s, FourTimes(prog));
    TurnsByNet(s.direction, FourTimes(prog));
    FourDisplacements(prog);
    SumOfTurns(Net(FourTimes(prog)), 0, s.direction);
    RotateNothing(Face(s.direction));
  }

  // What four runs would leave if every move were made.
  function Unclosed(h: int, prog: seq<Cmd>): Point {
    var v := Displacement(prog);
    if Face(Net(prog)) != 0 then (0, 0) else Rotate(Face(h), (4 * v.0, 4 * v.1))
  }

  // ----- right turns lose nothing -----

  predicate NoLeftTurns(prog: seq<Cmd>) {
    forall i :: 0 <= i < |prog| && prog[i].Turn? ==> prog[i].degrees >= 0
  }

  lemma {:induction false} RightTurnsLoseNothing(h: int, prog: seq<Cmd>)
    requires 0 <= h < 360 && QuarterTurns(prog) && NoLeftTurns(prog)
    ensures Lost(h, prog) == (0, 0) && 0 <= HeadingAfter(h, prog) < 360
    decreases prog
  {
    if prog != [] {
      RightTurnsLoseNothing(if prog[0].Turn? then Rem(h + prog[0].degrees) else h, prog[1..]);
    }
  }

  // So four runs of a program without left turns, from an axis heading, restore the heading itself,
  // and the position exactly when one run turns or already closes.
  lemma RightTurnsClose(s: State, prog: seq<Cmd>)
    requires Axis(s.direction) && QuarterTurns(prog) && NoLeftTurns(prog)
    ensures Exec(s, FourTimes(prog)).direction == s.direction
    ensures Exec(s, FourTimes(prog)).At() == s.At()
       <==> Face(Net(prog)) != 0 || Exec(s, prog).At() == s.At()
  {
    FourRunsClose(s, prog);
    ExecHeading(s, FourTimes(prog));
    RightTurnsLoseNothing(s.direction, FourTimes(prog));
    SameHeading(Exec(s, FourTimes(prog)).direction, s.direction);
    RightTurnsMove(s, prog);
  }

  lemma RightTurnsMove(s: State, prog: seq<Cmd>)
    requires Axis(s.direction) && QuarterTurns(prog) && NoLeftTurns(prog)
    ensures var v := Displacement(prog);
      Exec(s, prog).At() == s.At() <==> (0, 0) == Rotate(Face(s.direction), (4 * v.0, 4 * v.1))
  {
    ProgramMoves(s, prog);
    RightTurnsLoseNothing(s.direction, prog);
    MovedAway(s.At(), Face(s.direction), Exec(s, prog).At(), Displacement(prog));
  }

  lemma MovedAway(p: Point, h: int, r: Point, v: Point)
    requires Plus(r, (0, 0)) == Plus(p, Rotate(h, v))
    ensures r == p <==> (0, 0) == Rotate(h, (4 * v.0, 4 * v.1))
  {
    RotationIsInjective(h, v);
  }

  lemma SameHeading(h: int, g: int)
    requires 0 <= h < 360 && 0 <= g < 360 && Face(h) == Face(g)
    ensures h == g
  {
  }

  lemma RotationIsInjective(h: int, v: Point)
    ensures Rotate(h, v) == (0, 0) <==> v == (0, 0)
    ensures Rotate(h, (4 * v.0, 4 * v.1)) == (0, 0) <==> v == (0, 0)
  {
  }

  lemma ExecFourTimes(s: State, prog: seq<Cmd>)
    ensures Exec(s, FourTimes(prog)) == Exec(Exec(Exec(Exec(s, prog), prog), prog), prog)
  {
    ExecAppend(s, prog, prog);
    ExecAppend(s, prog + prog, prog);
    ExecAppend(s, prog + prog + prog, prog);
  }
}
