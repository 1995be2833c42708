// The feedback loop of src/controller/pid/PIDSim.cpp: the controller's output is added to the
// plant value. With the loop's gains the clamp never engages exactly when the initial error is
// at most 400, and then the error converges to zero geometrically.
module PidSim {
  import opened Pid

  const GAINS := Gains(0.1, 100.0, -100.0, 0.1, 0.01, 0.5)

  // h holds the errors of iterations 0, 1, .. of the closed loop that starts with error e0:
  // the plant moves by the clamped law of all errors so far.
  ghost predicate IsRun(g: Gains, e0: real, h: seq<real>)
    requires g.dt != 0.0
  {
    && h != [] && h[0] == e0
    && forall i :: 0 < i < |h| ==> h[i] == Moved(g, h[..i])
  }

  function Moved(g: Gains, h: seq<real>): real
    requires g.dt != 0.0 && h != []
  {
    h[|h| - 1] - Clamp(g, Law(g, h))
  }

  lemma RunPrefix(g: Gains, e0: real, h: seq<real>, n: nat)
    requires g.dt != 0.0 && IsRun(g, e0, h) && 0 < n <= |h|
    ensures IsRun(g, e0, h[..n])
  {
    var t := h[..n];
    forall i | 0 < i < |t| ensures t[i] == Moved(g, t[..i]) {
      assert t[..i] == h[..i];
    }
  }

  datatype Line = Line(setpoint: real, val: real, inc: real)

  // The line printed at the iteration with error history h.
  function Printed(g: Gains, setpoint: real, h: seq<real>): Line
    requires g.dt != 0.0 && h != []
  {
    Line(setpoint, setpoint - h[|h| - 1], Clamp(g, Law(g, h)))
  }

  // The simulation loop; `lines` is what it prints.
  method Simulate(g: Gains, setpoint: real, start: real, iterations: nat)
    returns (val: real, lines: seq<Line>, ghost h: seq<real>)
    requires g.dt != 0.0
    ensures IsRun(g, setpoint - start, h) && |h| == iterations + 1
    ensures val == setpoint - h[iterations]
    ensures |lines| == iterations
    ensures forall i :: 0 <= i < iterations ==> lines[i] == Printed(g, setpoint, h[..i + 1])
    ensures forall i :: 0 <= i < iterations ==>
      lines[i].setpoint == setpoint && lines[i].val == setpoint - h[i] && lines[i].inc == h[i] - h[i + 1]
  {
    var pid := new PIDImpl(g);
    val, lines, h := start, [], [setpoint - start];
    for i := 0 to iterations
      invariant fresh(pid) && pid.Valid() && pid.gains == g
      invariant |h| == i + 1 && IsRun(g, setpoint - start, h)
      invariant pid.errors == h[..i]
      invariant val == setpoint - h[i]
      invariant |lines| == i
      invariant forall k :: 0 <= k < i ==> lines[k] == Printed(g, setpoint, h[..k + 1])
    {
      var inc := pid.Calculate(setpoint, val);
      assert pid.errors == h && h[..i + 1] == h;
      assert Printed(g, setpoint, h) == Line(setpoint, val, inc);
      lines := lines + [Line(setpoint, val, inc)];
      val := val + inc;
      h := Extended(g, setpoint - start, h, setpoint - val);
    }
    forall i | 0 <= i < iterations
      ensures lines[i] == Line(setpoint, setpoint - h[i], h[i] - h[i + 1])
    {
      PrintedLine(g, setpoint, setpoint - start, h, i);
    }
  }

  // A line shows the value before the iteration and what the iteration adds to it.
  lemma PrintedLine(g: Gains, setpoint: real, e0: real, h: seq<real>, i: nat)
    requires g.dt != 0.0 && IsRun(g, e0, h) && i + 1 < |h|
    ensures Printed(g, setpoint, h[..i + 1]) == Line(setpoint, setpoint - h[i], h[i] - h[i + 1])
  {
    assert h[i + 1] == Moved(g, h[..i + 1]);
  }

  ghost function Extended(g: Gains, e0: real, h: seq<real>, e: real): (t: seq<real>)
    requires g.dt != 0.0 && IsRun(g, e0, h) && e == Moved(g, h)
    ensures IsRun(g, e0, t) && t == h + [e] && t[..|h|] == h
    ensures forall k :: 0 < k <= |h| ==> t[..k] == h[..k]
  {
    assert forall i :: 0 < i < |h| ==> (h + [e])[..i] == h[..i];
    assert (h + [e])[..|h|] == h;
    h + [e]
  }

  // ----- the linear loop -----

  // error, previous error, integral term before the step
  datatype Loop = Loop(e: real, p: real, j: real)

  function Output(s: Loop): real {
    0.25 * s.e - 0.1 * s.p + s.j
  }

  function Step(s: Loop): Loop {
    Loop(s.e - Output(s), s.e, s.j + 0.05 * s.e)
  }

  function Linear(e0: real, n: nat): Loop {
    if n == 0 then Loop(e0, 0.0, 0.0) else Step(Linear(e0, n - 1))
  }

  // What the linear state keeps of an error history.
  function Summary(h: seq<real>): Loop
    requires h != []
  {
    Loop(h[|h| - 1], Previous(h), 0.05 * Sum(h[..|h| - 1]))
  }

  lemma LawIsLinear(h: seq<real>)
    requires h != []
    ensures Law(GAINS, h) == Output(Summary(h))
  {
  }

  // ----- a quadratic form the loop contracts -----

  function Energy(s: Loop): real {
    8.0 * s.e * s.e - 12.0 * s.e * s.p + 16.0 * s.e * s.j + 6.0 * s.p * s.p
    - 10.0 * s.p * s.j + 40.0 * s.j * s.j
  }

  function Sq(x: real): (y: real)
    ensures y >= 0.0
  {
    x * x
  }

  lemma EnergyShrinks(s: Loop)
    ensures Energy(Step(s)) <= 0.94 * Energy(s)
  {
    ShrinkIdentity(s.e, s.p, s.j);
    RestIsPositive(s.p, s.j);
  }

  // What the bound leaves over, as a square and a form in p and j alone.
  lemma ShrinkIdentity(e: real, p: real, j: real)
    ensures var s := Loop(e, p, j);
      58200.0 * (0.94 * Energy(s) - Energy(Step(s)))
      == 4.0 * Sq(291.0 * e - 284.0 * p + 246.0 * j) + 8.0 * Rest(p, j)
  {
  }

  function Rest(p: real, j: real): real { 121.0 * Sq(p) + 1479.0 * (p * j) + 10482.0 * Sq(j) }

  lemma RestIsPositive(p: real, j: real)
    ensures Rest(p, j) >= 0.0
  {
    assert 484.0 * Rest(p, j) == Sq(242.0 * p + 1479.0 * j) + 2885847.0 * Sq(j);
  }

  // The form dominates the squared error and the squared output.
  lemma EnergyDominatesError(s: Loop)
    ensures Sq(s.e) <= 0.58 * Energy(s)
  {
    var e, p, j := s.e, s.p, s.j;
    var rest := 348.0 * Sq(p) + 6989.0 * (p * j) + 39324.0 * Sq(j);
    assert 348.0 * rest == Sq(348.0 * p + 3494.5 * j) + 1473221.75 * Sq(j);
    assert 2275.0 * (0.58 * Energy(s) - Sq(e)) == Sq(91.0 * e - 87.0 * p + 116.0 * j) + rest;
  }

  lemma EnergyDominatesOutput(s: Loop)
    ensures 32.0 * Sq(Output(s)) <= Energy(s)
  {
    var e, p, j := s.e, s.p, s.j;
    var rest := 176.0 * Sq(p) - 540.0 * (p * j) + 1200.0 * Sq(j);
    assert 176.0 * rest == Sq(176.0 * p - 270.0 * j) + 138300.0 * Sq(j);
    assert 150.0 * (Energy(s) - 32.0 * Sq(Output(s))) == Sq(30.0 * e - 26.0 * p) + rest;
  }

  function Pow(x: real, n: nat): real {
    if n == 0 then 1.0 else x * Pow(x, n - 1)
  }

  lemma {:induction false} EnergyDecays(e0: real, n: nat)
    ensures Energy(Linear(e0, n)) <= 8.0 * Sq(e0) * Pow(0.94, n)
  {
    if n > 0 {
      EnergyDecays(e0, n - 1);
      EnergyShrinks(Linear(e0, n - 1));
    }
  }

  // From iteration 1 on the form stays below its value there.
  lemma {:induction false} EnergyAfterFirst(e0: real, n: nat)
    requires n >= 1
    ensures Energy(Linear(e0, n)) <= 1.7 * Sq(e0)
  {
    if n > 1 {
      EnergyAfterFirst(e0, n - 1);
      EnergyShrinks(Linear(e0, n - 1));
      EnergyDominatesError(Linear(e0, n - 1));
    } else {
      assert Linear(e0, 1) == Step(Linear(e0, 0)) == Loop(0.75 * e0, e0, 0.05 * e0);
    }
  }

  function Abs(x: real): real {
    if x < 0.0 then -x else x
  }

  lemma SquareOrder(x: real, bound: real)
    requires bound >= 0.0 && Sq(x) <= Sq(bound)
    ensures Abs(x) <= bound
  {
    if Abs(x) > bound {
      SquareGrows(bound, Abs(x) - bound);
    }
  }

  lemma SquareGrows(x: real, gap: real)
    requires x >= 0.0 && gap > 0.0
    ensures Sq(x + gap) > Sq(x)
  {
    assert Sq(x + gap) == Sq(x) + (2.0 * x + gap) * gap;
  }

  // The largest demand of a run is its first one.
  lemma DemandPeaksFirst(e0: real, n: nat)
    ensures Abs(Output(Linear(e0, n))) <= 0.25 * Abs(e0)
  {
    if n > 0 {
      EnergyAfterFirst(e0, n);
      EnergyDominatesOutput(Linear(e0, n));
      assert Sq(0.25 * Abs(e0)) == 0.0625 * Sq(e0);
      SquareOrder(Output(Linear(e0, n)), 0.25 * Abs(e0));
    }
  }

  // As long as the first error is at most 400, the clamped loop is the linear one.
  lemma {:induction false} FollowsLinear(e0: real, h: seq<real>)
    requires Abs(e0) <= 400.0 && IsRun(GAINS, e0, h)
    ensures Summary(h) == Linear(e0, |h| - 1)
    ensures Law(GAINS, h) == Output(Linear(e0, |h| - 1))
    decreases |h|
  {
    var n := |h| - 1;
    LawIsLinear(h);
    if n > 0 {
      var t := h[..n];
      RunPrefix(GAINS, e0, h, n);
      FollowsLinear(e0, t);
      DemandPeaksFirst(e0, n - 1);
      assert h[n] == Moved(GAINS, t);
      SummaryOfStep(t, h[n]);
      assert t + [h[n]] == h;
    }
  }

  lemma SummaryOfStep(t: seq<real>, e: real)
    requires t != [] && e == t[|t| - 1] - Output(Summary(t))
    ensures Summary(t + [e]) == Step(Summary(t))
  {
    assert (t + [e])[..|t|] == t;
  }

  // The clamp never engages, over unbounded runs, exactly when the first error is at most 400.
  lemma ClampNeverEngages(e0: real)
    ensures (forall h :: IsRun(GAINS, e0, h) ==> GAINS.min <= Law(GAINS, h) <= GAINS.max)
       <==> Abs(e0) <= 400.0
  {
    if Abs(e0) <= 400.0 {
      forall h | IsRun(GAINS, e0, h) ensures GAINS.min <= Law(GAINS, h) <= GAINS.max {
        FollowsLinear(e0, h);
        DemandPeaksFirst(e0, |h| - 1);
      }
    } else {
      assert IsRun(GAINS, e0, [e0]);
      LawIsLinear([e0]);
      assert Summary([e0]) == Loop(e0, 0.0, 0.0);
    }
  }

  lemma {:induction false} PowPositive(x: real, n: nat)
    requires x > 0.0
    ensures Pow(x, n) > 0.0
  {
    if n > 0 {
      PowPositive(x, n - 1);
    }
  }

  lemma {:induction false} RateSquared(n: nat)
    ensures Pow(0.94, n) <= Sq(Pow(0.97, n))
  {
    if n > 0 {
      RateSquared(n - 1);
      var a, b := Pow(0.94, n - 1), Pow(0.97, n - 1);
      assert Sq(0.97 * b) == 0.9409 * Sq(b);
    }
  }

  // A geometric bound with ratio 0.97.
  function Envelope(e0: real, n: nat): real {
    2.2 * Abs(e0) * Pow(0.97, n)
  }

  // The error of the real, clamped loop shrinks geometrically, at every iteration of any run.
  lemma Converges(e0: real, h: seq<real>)
    requires Abs(e0) <= 400.0 && IsRun(GAINS, e0, h)
    ensures Abs(h[|h| - 1]) <= Envelope(e0, |h| - 1)
  {
    var n := |h| - 1;
    FollowsLinear(e0, h);
    LinearConverges(e0, n);
  }

  lemma LinearConverges(e0: real, n: nat)
    ensures Abs(Linear(e0, n).e) <= Envelope(e0, n)
  {
    PowPositive(0.97, n);
    EnergyDecays(e0, n);
    EnergyDominatesError(Linear(e0, n));
    RateSquared(n);
    ErrorFromEnergy(Linear(e0, n).e, Energy(Linear(e0, n)), e0, Pow(0.94, n), Pow(0.97, n));
  }

  lemma ErrorFromEnergy(e: real, energy: real, e0: real, decay: real, rate: real)
    requires Sq(e) <= 0.58 * energy && energy <= 8.0 * Sq(e0) * decay
    requires decay <= Sq(rate) && rate > 0.0
    ensures Abs(e) <= 2.2 * Abs(e0) * rate
  {
    var k := Sq(e0);
    assert k * decay <= k * Sq(rate);
    var bound := 2.2 * Abs(e0) * rate;
    assert Sq(bound) == 4.84 * (k * Sq(rate));
    SquareOrder(e, bound);
  }

  lemma {:induction false} Bernoulli(n: nat)
    ensures Pow(0.97, n) * (1.0 + 0.03 * n as real) <= 1.0
  {
    if n > 0 {
      Bernoulli(n - 1);
      PowPositive(0.97, n - 1);
      var b, t := Pow(0.97, n - 1), 1.0 + 0.03 * (n - 1) as real;
      assert 0.97 * (t + 0.03) <= t;
      assert b * (0.97 * (t + 0.03)) <= b * t;
    }
  }

  lemma Threshold(c: real, eps: real) returns (N: nat)
    requires c >= 0.0 && eps > 0.0
    ensures c < N as real * (0.03 * eps)
  {
    var d := 0.03 * eps;
    var q := c / d;
    N := q.Floor + 1;
    assert q * d == c;
    assert (N as real - q) * d > 0.0;
  }

  lemma BelowThreshold(c: real, eps: real, N: nat, n: nat, b: real)
    requires n >= N && 0.0 < b && b * (1.0 + 0.03 * n as real) <= 1.0
    requires eps > 0.0 && c < N as real * (0.03 * eps)
    ensures c * b < eps
  {
    var t := 0.03 * n as real;
    assert b * (1.0 + t) == b + b * t;
    assert c < t * eps by {
      assert (n - N) as real * (0.03 * eps) >= 0.0;
    }
    assert c * b < t * eps * b == eps * (b * t);
    var slack := 1.0 - b * t;
    assert eps * slack > 0.0;
  }

  // Hence the error tends to zero, uniformly over all runs from e0.
  lemma ErrorVanishes(e0: real, eps: real) returns (N: nat)
    requires Abs(e0) <= 400.0 && eps > 0.0
    ensures forall h :: IsRun(GAINS, e0, h) && |h| > N ==> Abs(h[|h| - 1]) < eps
  {
    var c := 2.2 * Abs(e0);
    N := Threshold(c, eps);
    forall h | IsRun(GAINS, e0, h) && |h| > N ensures Abs(h[|h| - 1]) < eps {
      Converges(e0, h);
      EnvelopeBelow(e0, eps, N, |h| - 1);
    }
  }

  lemma EnvelopeBelow(e0: real, eps: real, N: nat, n: nat)
    requires n >= N && eps > 0.0 && 2.2 * Abs(e0) < N as real * (0.03 * eps)
    ensures Envelope(e0, n) < eps
  {
    Bernoulli(n);
    PowPositive(0.97, n);
    BelowThreshold(2.2 * Abs(e0), eps, N, n, Pow(0.97, n));
  }

  lemma {:induction false} PowAdd(x: real, m: nat, n: nat)
    ensures Pow(x, m + n) == Pow(x, m) * Pow(x, n)
  {
    if m > 0 {
      PowAdd(x, m - 1, n);
    }
  }

  // The loop as the program runs it: 200 iterations from 20 towards 100.
  method Run() returns (val: real)
    ensures Abs(100.0 - val) < 0.5
  {
    var lines;
    ghost var h;
    val, lines, h := Simulate(GAINS, 100.0, 20.0, 200);
    Converges(80.0, h);
    Rate200();
  }

  lemma Rate200()
    ensures Pow(0.97, 200) <= 0.0024
  {
    var p1, p2, p4, p8 := 0.97, Pow(0.97, 2), Pow(0.97, 4), Pow(0.97, 8);
    PowAdd(0.97, 1, 1); PowAdd(0.97, 2, 2); PowAdd(0.97, 4, 4); PowAdd(0.97, 8, 8);
    PowAdd(0.97, 16, 16); PowAdd(0.97, 32, 32); PowAdd(0.97, 64, 64);
    PowAdd(0.97, 64, 8); PowAdd(0.97, 128, 72);
  }
}
