// The PID controller of src/controller/pid, over exact reals: the stateful controller is
// proved against the textbook law on the whole error history.
module Pid {

  datatype Gains = Gains(dt: real, max: real, min: real, kp: real, kd: real, ki: real)

  function Sum(xs: seq<real>): real {
    if xs == [] then 0.0 else Sum(xs[..|xs| - 1]) + xs[|xs| - 1]
  }

  // Saturation in the order the controller tests its limits.
  function Clamp(g: Gains, x: real): real {
    if x > g.max then g.max else if x < g.min then g.min else x
  }

  // The error before the latest one; the controller starts from 0.
  function Previous(errors: seq<real>): real {
    if |errors| < 2 then 0.0 else errors[|errors| - 2]
  }

  // Proportional, integral and derivative terms on a non-empty history of errors.
  function Law(g: Gains, errors: seq<real>): real
    requires errors != [] && g.dt != 0.0
  {
    var e := errors[|errors| - 1];
    Terms(g, e, g.dt * Sum(errors), (e - Previous(errors)) / g.dt)
  }

  function Terms(g: Gains, error: real, integral: real, derivative: real): real {
    g.kp * error + g.ki * integral + g.kd * derivative
  }

  class PIDImpl {
    const gains: Gains
    var preError: real
    var integral: real
    ghost var errors: seq<real>  // every error seen so far

    ghost predicate Valid()
      reads this
    {
      && gains.dt != 0.0
      && integral == gains.dt * Sum(errors)
      && preError == if errors == [] then 0.0 else errors[|errors| - 1]
    }

    constructor (gains: Gains)
      requires gains.dt != 0.0
      ensures Valid() && this.gains == gains && errors == []
    {
      this.gains := gains;
      preError, integral, errors := 0.0, 0.0, [];
    }

    method Calculate(setpoint: real, pv: real) returns (output: real)
      requires Valid()
      modifies this
      ensures Valid() && errors == old(errors) + [setpoint - pv]
      ensures output == Clamp(gains, Law(gains, errors))
      ensures Law(gains, errors) > gains.max ==> output == gains.max
      ensures Law(gains, errors) <= gains.max && Law(gains, errors) < gains.min ==> output == gains.min
      ensures gains.min <= Law(gains, errors) <= gains.max ==> output == Law(gains, errors)
    {
      var error := setpoint - pv;
      ghost var all := errors + [error];
      OneMore(errors, error);
      AddToProduct(gains.dt, Sum(errors), error, Sum(all));
      var pOut := gains.kp * error;
      integral := integral + error * gains.dt;
      var iOut := gains.ki * integral;
      var derivative := (error - preError) / gains.dt;
      var dOut := gains.kd * derivative;
      output := pOut + iOut + dOut;
      LawByTerms(gains, all, error, integral, derivative);
      if output > gains.max {
        output := gains.max;
      } else if output < gains.min {
        output := gains.min;
      }
      preError := error;
      errors := all;
    }
  }

  lemma LawByTerms(g: Gains, errors: seq<real>, error: real, integral: real, derivative: real)
    requires errors != [] && g.dt != 0.0
    requires error == errors[|errors| - 1] && integral == g.dt * Sum(errors)
    requires derivative == (error - Previous(errors)) / g.dt
    ensures Law(g, errors) == Terms(g, error, integral, derivative)
  {
  }

  lemma OneMore(errors: seq<real>, e: real)
    ensures Sum(errors + [e]) == Sum(errors) + e
    ensures Previous(errors + [e]) == if errors == [] then 0.0 else errors[|errors| - 1]
  {
    assert (errors + [e])[..|errors|] == errors;
  }

  lemma AddToProduct(a: real, x: real, y: real, sum: real)
    requires sum == x + y
    ensures a * sum == a * x + y * a
  {
    assert a * (x + y) == a * x + y * a;
  }
}
