/** The Cox-Ross-Rubinstein binomial lattice of src/pricing/binomial.py.

    The transcendental set-up (dt, exp, sqrt) is not modelled: the caller
    supplies u = exp(sigma*sqrt(dt)), growth = exp(r*dt) and
    disc = exp(-r*dt) as reals.  The reciprocal d = 1/u and the
    risk-neutral probability p = (growth - d)/(u - d) are computed here,
    and every division of the source fails in the model exactly where it
    fails in the code. */
module Binomial {
  import opened Outcomes

  /** Payoff family.  The source compares option_type with "call" and
      treats every other string as a put. */
  datatype Kind = Call | Put

  /** What is being priced, apart from the spot: strike, payoff family
      and exercise style. */
  datatype Instrument = Instrument(strike: real, kind: Kind, american: bool)

  /** The tree of one pricing call, which depends on r, sigma, T and N but
      not on the spot: up and down factors, risk-neutral probability,
      one-step discount factor and number of steps. */
  datatype Tree = Tree(u: real, d: real, p: real, disc: real, steps: nat)

  /** Sensitivities returned by delta_gamma. */
  datatype Greeks = Greeks(delta: real, gamma: real)

  function KindOf(optionType: string): (k: Kind)
    ensures k == Call <==> optionType == "call"
    ensures k == Put <==> optionType != "call"
  {
    if optionType == "call" then Call else Put
  }

  function Max(a: real, b: real): (m: real)
  {
    if a >= b then a else b
  }

  /** x raised to a natural power, as Python's float ** int. */
  function Pow(x: real, n: nat): (r: real)
  {
    if n == 0 then 1.0 else x * Pow(x, n - 1)
  }

  /** Price of the underlying at node j (j up-moves) of level i. */
  function Spot(t: Tree, s0: real, i: nat, j: nat): (s: real)
    requires j <= i
  {
    s0 * Pow(t.u, j) * Pow(t.d, i - j)
  }

  /** Immediate-exercise value of the payoff at underlying price s. */
  function Payoff(kind: Kind, strike: real, s: real): (v: real)
    ensures v >= 0.0
    ensures kind == Call ==> v >= s - strike && (v == 0.0 || v == s - strike)
    ensures kind == Put ==> v >= strike - s && (v == 0.0 || v == strike - s)
  {
    match kind
    case Call => Max(s - strike, 0.0)
    case Put => Max(strike - s, 0.0)
  }

  /** Discounted risk-neutral expectation of the two successor values. */
  function Hold(t: Tree, up: real, down: real): (v: real)
  {
    t.disc * (t.p * up + (1.0 - t.p) * down)
  }

  /** For u != 0, the reciprocal 1/u equals u exactly when u * u == 1. */
  lemma ReciprocalDistinctIff(u: real)
    requires u != 0.0
    ensures u * (1.0 / u) == 1.0
    ensures u - 1.0 / u == 0.0 <==> u * u == 1.0
  {
    var d := 1.0 / u;
    assert u * d == 1.0;
    assert (u - d) * u == u * u - 1.0;
  }

  /** The tree set up from the values that the source derives with exp and
      sqrt.  Defined only where the source's divisions succeed. */
  function Setup(u: real, growth: real, disc: real, steps: nat): (t: Tree)
    requires u != 0.0 && u * u != 1.0
    ensures t.u == u && t.disc == disc && t.steps == steps
    ensures t.d * t.u == 1.0 && t.d != t.u
    ensures t.p * (t.u - t.d) == growth - t.d
  {
    var d := 1.0 / u;
    ReciprocalDistinctIff(u);
    Tree(u, d, (growth - d) / (u - d), disc, steps)
  }

  /** Value of node j of level i: the terminal payoff at level steps,
      otherwise the discounted continuation value, raised to the
      immediate-exercise payoff when the instrument is American. */
  function NodeValue(t: Tree, s0: real, opt: Instrument, i: nat, j: nat): (v: real)
    requires j <= i <= t.steps
    decreases t.steps - i
  {
    if i == t.steps then
      Payoff(opt.kind, opt.strike, Spot(t, s0, i, j))
    else
      var hold := Hold(t, NodeValue(t, s0, opt, i + 1, j + 1), NodeValue(t, s0, opt, i + 1, j));
      if opt.american then Max(hold, Payoff(opt.kind, opt.strike, Spot(t, s0, i, j))) else hold
  }

  /** The option price: the value of the root of the lattice. */
  function Price(t: Tree, s0: real, opt: Instrument): (v: real)
  {
    NodeValue(t, s0, opt, 0, 0)
  }

  /** The terminal underlying prices, index j being j up-moves out of steps:
      N + 1 entries, the first s0 * d^N, each next one the previous
      with one down-move traded for an up-move. */
  function TerminalPrices(t: Tree, s0: real): (prices: seq<real>)
    ensures |prices| == t.steps + 1
    ensures prices[0] == s0 * Pow(t.d, t.steps)
    ensures forall j :: 0 <= j < t.steps ==> prices[j + 1] * t.d == prices[j] * t.u
  {
    var prices := seq(t.steps + 1, j requires 0 <= j <= t.steps => Spot(t, s0, t.steps, j));
    forall j | 0 <= j < t.steps
      ensures prices[j + 1] * t.d == prices[j] * t.u
    {
      TradeDownForUp(t, s0, j);
    }
    assert prices[0] == s0 * Pow(t.u, 0) * Pow(t.d, t.steps);
    prices
  }

  /** Trading one down-move for an up-move at the last level. */
  lemma TradeDownForUp(t: Tree, s0: real, j: nat)
    requires j < t.steps
    ensures Spot(t, s0, t.steps, j + 1) * t.d == Spot(t, s0, t.steps, j) * t.u
  {
    var x, y := Pow(t.u, j), Pow(t.d, t.steps - j - 1);
    assert Pow(t.u, j + 1) == t.u * x;
    assert Pow(t.d, t.steps - j) == t.d * y;
    assert Spot(t, s0, t.steps, j + 1) == s0 * (t.u * x) * y;
    assert Spot(t, s0, t.steps, j) == s0 * x * (t.d * y);
  }

  /** The payoff of every terminal price, in the same order; none is negative. */
  function Payoffs(opt: Instrument, prices: seq<real>): (values: seq<real>)
    ensures |values| == |prices|
    ensures forall j :: 0 <= j < |prices| ==> values[j] >= 0.0
    ensures forall j :: 0 <= j < |prices| ==> values[j] == Payoff(opt.kind, opt.strike, prices[j])
  {
    seq(|prices|, j requires 0 <= j < |prices| => Payoff(opt.kind, opt.strike, prices[j]))
  }

  /** binomial_option_price: builds the terminal payoffs, then replaces the
      list of values level by level, from level steps - 1 down to 0, by a
      list one entry shorter, and returns the single value left. */
  method BinomialOptionPrice(s0: real, strike: real, u: real, growth: real, disc: real,
                             steps: nat, optionType: string, american: bool)
    returns (r: Result<real>)
    ensures r.Err? <==> steps == 0 || u == 0.0 || u * u == 1.0
    ensures steps > 0 && u != 0.0 && u * u != 1.0 ==>
      r == Ok(Price(Setup(u, growth, disc, steps), s0, Instrument(strike, KindOf(optionType), american)))
  {
    if steps == 0 {
      return Err(ZeroDivision);  // dt = T / N
    }
    if u == 0.0 {
      return Err(ZeroDivision);  // d = 1 / u
    }
    var d := 1.0 / u;
    ReciprocalDistinctIff(u);
    if u - d == 0.0 {
      return Err(ZeroDivision);  // p = (...) / (u - d)
    }
    var p := (growth - d) / (u - d);
    var t := Tree(u, d, p, disc, steps);
    var opt := Instrument(strike, KindOf(optionType), american);
    assert t == Setup(u, growth, disc, steps);

    var values := Payoffs(opt, TerminalPrices(t, s0));
    for i := steps downto 0
      invariant |values| == i + 1
      invariant forall j :: 0 <= j <= i ==> values[j] == NodeValue(t, s0, opt, i, j)
    {
      var newValues := [];
      for j := 0 to i + 1
        invariant |newValues| == j
        invariant forall k :: 0 <= k < j ==> newValues[k] == NodeValue(t, s0, opt, i, k)
      {
        var hold := Hold(t, values[j + 1], values[j]);
        if american {
          var exercise := Payoff(opt.kind, strike, Spot(t, s0, i, j));
          newValues := newValues + [Max(hold, exercise)];
        } else {
          newValues := newValues + [hold];
        }
      }
      values := newValues;
    }
    return Ok(values[0]);
  }

  /** The finite-difference sensitivities that delta_gamma computes: three
      European prices on one tree, at s0, s0 + h and s0 - h with
      h = 0.01 * s0, combined by central differences. */
  function CentralDifferences(t: Tree, s0: real, strike: real, kind: Kind): (g: Greeks)
    requires s0 != 0.0
  {
    var h := 0.01 * s0;
    var opt := Instrument(strike, kind, false);
    var v := Price(t, s0, opt);
    var vUp := Price(t, s0 + h, opt);
    var vDown := Price(t, s0 - h, opt);
    Greeks(CentralDelta(vUp, vDown, h), CentralGamma(v, vUp, vDown, h))
  }

  /** First-order central difference of prices taken at spot + h and spot - h. */
  function CentralDelta(vUp: real, vDown: real, h: real): (delta: real)
    requires h != 0.0
  {
    (vUp - vDown) / (2.0 * h)
  }

  /** Second-order central difference of prices taken at spot, spot + h and spot - h. */
  function CentralGamma(v: real, vUp: real, vDown: real, h: real): (gamma: real)
    requires h != 0.0
  {
    (vUp - 2.0 * v + vDown) / (h * h)
  }

  /** delta_gamma: three calls of the pricer that differ only in the spot;
      the american flag is never passed, so all three are European. */
  method DeltaGamma(s0: real, strike: real, u: real, growth: real, disc: real,
                    steps: nat, optionType: string)
    returns (r: Result<Greeks>)
    ensures r.Err? <==> steps == 0 || u == 0.0 || u * u == 1.0 || s0 == 0.0
    ensures steps > 0 && u != 0.0 && u * u != 1.0 && s0 != 0.0 ==>
      r == Ok(CentralDifferences(Setup(u, growth, disc, steps), s0, strike, KindOf(optionType)))
  {
    var h := 0.01 * s0;
    var v := BinomialOptionPrice(s0, strike, u, growth, disc, steps, optionType, false);
    if v.Err? {
      return Err(v.error);
    }
    var vUp := BinomialOptionPrice(s0 + h, strike, u, growth, disc, steps, optionType, false);
    var vDown := BinomialOptionPrice(s0 - h, strike, u, growth, disc, steps, optionType, false);
    if h == 0.0 {
      return Err(ZeroDivision);  // (V_up - V_down) / (2 * h)
    }
    r := Ok(Greeks(CentralDelta(vUp.value, vDown.value, h), CentralGamma(v.value, vUp.value, vDown.value, h)));
  }
}
