/** Properties of the binomial lattice of module Binomial: the set-up of
    the tree, ordering of the terminal level, non-negativity, early
    exercise, the one-step case and put-call parity. */
module BinomialTheory {
  import opened Binomial
  import opened RealArith

  /** The risk-neutral probability is a probability and the discount
      factor is not negative.  The source does not check this. */
  ghost predicate Sound(t: Tree)
  {
    0.0 <= t.p <= 1.0 && 0.0 <= t.disc
  }

  /** The discounted expected growth of the underlying over one step is 1:
      disc * (p * u + (1 - p) * d) == 1. */
  ghost predicate RiskNeutral(t: Tree)
  {
    t.disc * (t.p * t.u + (1.0 - t.p) * t.d) == 1.0
  }

  /** Both move factors are positive, as exp(sigma * sqrt(dt)) and its
      reciprocal are. */
  ghost predicate PositiveMoves(t: Tree)
  {
    t.u > 0.0 && t.d > 0.0
  }

  // ---------------------------------------------------------------------
  // The set-up of the tree

  /** With growth = exp(r dt) and disc = exp(-r dt), so growth * disc == 1,
      the tree of Setup is risk-neutral and its factors are positive. */
  lemma SetupIsRiskNeutral(u: real, growth: real, disc: real, steps: nat)
    requires u > 0.0 && u * u != 1.0 && growth * disc == 1.0
    ensures RiskNeutral(Setup(u, growth, disc, steps))
    ensures PositiveMoves(Setup(u, growth, disc, steps))
  {
    var t := Setup(u, growth, disc, steps);
    var p, d := t.p, t.d;
    assert p * u + (1.0 - p) * d == p * (u - d) + d;
    assert p * u + (1.0 - p) * d == growth;
    assert d > 0.0 by {
      assert d * u == 1.0;
    }
  }

  /** The computed p lies in [0, 1] exactly when the one-step growth lies
      between the down factor and the up factor. */
  lemma SetupProbabilityInRange(u: real, growth: real, disc: real, steps: nat)
    requires u > 0.0 && u * u != 1.0
    ensures var t := Setup(u, growth, disc, steps);
      (0.0 <= t.p <= 1.0) <==>
      (if t.d < t.u then t.d <= growth <= t.u else t.u <= growth <= t.d)
  {
    var t := Setup(u, growth, disc, steps);
    var p, d := t.p, t.d;
    assert p * (u - d) == growth - d;
    assert (1.0 - p) * (u - d) == u - growth;
    SignOfProduct(p, u - d);
    SignOfProduct(1.0 - p, u - d);
  }

  /** The tree that the pricer builds is Sound and RiskNeutral and has
      PositiveMoves when the one-step growth lies between d = 1/u and u,
      growth * disc == 1 and disc > 0 (as exp(r dt) and exp(-r dt) are).
      An ordered terminal level also needs u >= 1, and the American-call
      lemmas also need disc <= 1 and a non-negative strike. */
  lemma SetupSound(u: real, growth: real, disc: real, steps: nat)
    requires u > 0.0 && u * u != 1.0 && growth * disc == 1.0 && disc > 0.0
    requires (1.0 / u <= growth <= u) || (u <= growth <= 1.0 / u)
    ensures var t := Setup(u, growth, disc, steps);
      Sound(t) && RiskNeutral(t) && PositiveMoves(t)
  {
    SetupIsRiskNeutral(u, growth, disc, steps);
    SetupProbabilityInRange(u, growth, disc, steps);
  }

  // ---------------------------------------------------------------------
  // Powers and the terminal level

  lemma {:induction false} PowPositive(x: real, n: nat)
    requires x > 0.0
    ensures Pow(x, n) > 0.0
  {
    if n > 0 {
      PowPositive(x, n - 1);
    }
  }

  lemma {:induction false} PowAtMostOne(x: real, n: nat)
    requires 0.0 <= x <= 1.0
    ensures 0.0 <= Pow(x, n) <= 1.0
  {
    if n > 0 {
      PowAtMostOne(x, n - 1);
      var q := Pow(x, n - 1);
      assert x * q >= 0.0;
      assert q - x * q == (1.0 - x) * q;
      assert (1.0 - x) * q >= 0.0;
    }
  }

  /** The spot after an up-move from spot s. */
  function UpMove(t: Tree, s: real): (s': real)
  {
    s * t.u
  }

  /** The spot after a down-move from spot s. */
  function DownMove(t: Tree, s: real): (s': real)
  {
    s * t.d
  }

  /** One up-move multiplies a node's spot by u, one down-move by d. */
  lemma SpotStep(t: Tree, s0: real, i: nat, j: nat)
    requires j <= i
    ensures Spot(t, s0, i + 1, j + 1) == UpMove(t, Spot(t, s0, i, j))
    ensures Spot(t, s0, i + 1, j) == DownMove(t, Spot(t, s0, i, j))
  {
    var x, y := Pow(t.u, j), Pow(t.d, i - j);
    assert Pow(t.u, j + 1) == t.u * x;
    assert Pow(t.d, i + 1 - j) == t.d * y;
    assert Spot(t, s0, i + 1, j + 1) == s0 * (t.u * x) * y;
    assert Spot(t, s0, i + 1, j) == s0 * x * (t.d * y);
  }

  lemma SpotNonNegative(t: Tree, s0: real, i: nat, j: nat)
    requires PositiveMoves(t) && s0 >= 0.0 && j <= i
    ensures Spot(t, s0, i, j) >= 0.0
  {
    PowPositive(t.u, j);
    PowPositive(t.d, i - j);
    var x, y := Pow(t.u, j), Pow(t.d, i - j);
    assert s0 * x >= 0.0;
  }

  /** With 0 < d <= u and a non-negative spot, the terminal prices are
      nondecreasing in the number of up-moves. */
  lemma TerminalPricesAscending(t: Tree, s0: real)
    requires 0.0 < t.d <= t.u && s0 >= 0.0
    ensures forall j :: 0 <= j < t.steps ==> TerminalPrices(t, s0)[j] <= TerminalPrices(t, s0)[j + 1]
  {
    forall j | 0 <= j < t.steps
      ensures TerminalPrices(t, s0)[j] <= TerminalPrices(t, s0)[j + 1]
    {
      AdjacentTerminalPrices(t, s0, j);
    }
  }

  lemma AdjacentTerminalPrices(t: Tree, s0: real, j: nat)
    requires 0.0 < t.d <= t.u && s0 >= 0.0 && j < t.steps
    ensures TerminalPrices(t, s0)[j] <= TerminalPrices(t, s0)[j + 1]
  {
    var prices := TerminalPrices(t, s0);
    assert prices[j] >= 0.0 by {
      SpotNonNegative(t, s0, t.steps, j);
    }
    GrowsWithUpMove(prices[j], prices[j + 1], t.u, t.d);
  }

  /** A non-negative price x and the price y with y * d == x * u satisfy
      x <= y when 0 < d <= u. */
  lemma GrowsWithUpMove(x: real, y: real, u: real, d: real)
    requires x >= 0.0 && 0.0 < d <= u && y * d == x * u
    ensures x <= y
  {
    MulMonotone(x, d, u);
    assert (y - x) * d == y * d - x * d;
    SignOfProduct(y - x, d);
  }

  /** Under the same conditions call payoffs are nondecreasing and put
      payoffs nonincreasing in the number of up-moves. */
  lemma TerminalPayoffsMonotone(t: Tree, s0: real, opt: Instrument)
    requires 0.0 < t.d <= t.u && s0 >= 0.0
    ensures var values := Payoffs(opt, TerminalPrices(t, s0));
      forall j :: 0 <= j < t.steps ==>
        if opt.kind == Call then values[j] <= values[j + 1] else values[j] >= values[j + 1]
  {
    TerminalPricesAscending(t, s0);
  }

  // ---------------------------------------------------------------------
  // The continuation value

  /** The continuation value of two non-negative successors is not
      negative. */
  lemma HoldNonNegative(t: Tree, up: real, down: real)
    requires Sound(t) && up >= 0.0 && down >= 0.0
    ensures Hold(t, up, down) >= 0.0
  {
    ProductNonNegative(t.p, up);
    ProductNonNegative(1.0 - t.p, down);
    ProductNonNegative(t.disc, t.p * up + (1.0 - t.p) * down);
  }

  /** The continuation value never falls when a successor value rises. */
  lemma HoldMonotone(t: Tree, up: real, down: real, up': real, down': real)
    requires Sound(t) && up <= up' && down <= down'
    ensures Hold(t, up, down) <= Hold(t, up', down')
  {
    HoldLinear(t, up, down, up', down');
    HoldNonNegative(t, up' - up, down' - down);
  }

  lemma HoldLinear(t: Tree, up: real, down: real, up': real, down': real)
    ensures Hold(t, up', down') - Hold(t, up, down) == Hold(t, up' - up, down' - down)
    ensures Hold(t, up', down') + Hold(t, up, down) == Hold(t, up' + up, down' + down)
  {
  }

  /** On a risk-neutral tree the continuation value of c * u and c * d is c. */
  lemma HoldOfMoves(t: Tree, c: real)
    requires RiskNeutral(t)
    ensures Hold(t, UpMove(t, c), DownMove(t, c)) == c
  {
    var p := t.p;
    assert Hold(t, c * t.u, c * t.d) == c * (t.disc * (p * t.u + (1.0 - p) * t.d));
  }

  lemma MaxDifference(a: real, b: real, a': real, b': real)
    ensures Max(a', b') - Max(a, b) <= Max(a' - a, b' - b)
  {
  }

  // ---------------------------------------------------------------------
  // The value function: the source's recursion with the spot carried along

  /** The value of a node of level i whose underlying price is s: the
      recursion of NodeValue with the spot carried along the tree
      (times u on an up-move, times d on a down-move). */
  function Value(t: Tree, opt: Instrument, i: nat, s: real): (v: real)
    requires i <= t.steps
    decreases t.steps - i
  {
    if i == t.steps then
      Payoff(opt.kind, opt.strike, s)
    else
      Backstep(t, opt.american, Value(t, opt, i + 1, UpMove(t, s)), Value(t, opt, i + 1, DownMove(t, s)),
               Payoff(opt.kind, opt.strike, s))
  }

  /** One backward-induction step on plain values: the continuation value,
      raised to the exercise value when the node is American. */
  function Backstep(t: Tree, american: bool, up: real, down: real, exercise: real): (v: real)
  {
    var hold := Hold(t, up, down);
    if american then Max(hold, exercise) else hold
  }

  /** One level of the value function, stated for an arbitrary spot. */
  lemma ValueUnfold(t: Tree, opt: Instrument, i: nat, s: real)
    requires i < t.steps
    ensures Value(t, opt, i, s)
         == Backstep(t, opt.american, Value(t, opt, i + 1, UpMove(t, s)), Value(t, opt, i + 1, DownMove(t, s)),
                     Payoff(opt.kind, opt.strike, s))
  {
  }

  /** One level of the source's recursion, written with Backstep. */
  lemma NodeValueUnfold(t: Tree, s0: real, opt: Instrument, i: nat, j: nat)
    requires j <= i < t.steps
    ensures NodeValue(t, s0, opt, i, j)
         == Backstep(t, opt.american, NodeValue(t, s0, opt, i + 1, j + 1), NodeValue(t, s0, opt, i + 1, j),
                     Payoff(opt.kind, opt.strike, Spot(t, s0, i, j)))
  {
  }

  /** Every node of the source's lattice has the value that the value
      function gives for that node's spot. */
  lemma {:induction false} NodeValueIsValue(t: Tree, s0: real, opt: Instrument, i: nat, j: nat)
    requires j <= i <= t.steps
    ensures NodeValue(t, s0, opt, i, j) == Value(t, opt, i, Spot(t, s0, i, j))
    decreases t.steps - i
  {
    if i < t.steps {
      NodeValueIsValue(t, s0, opt, i + 1, j + 1);
      NodeValueIsValue(t, s0, opt, i + 1, j);
      SpotStep(t, s0, i, j);
      NodeValueUnfold(t, s0, opt, i, j);
      ValueUnfold(t, opt, i, Spot(t, s0, i, j));
    }
  }

  /** The price at spot s0 is the value function at level 0 and spot s0. */
  lemma PriceIsValue(t: Tree, s0: real, opt: Instrument)
    ensures Price(t, s0, opt) == Value(t, opt, 0, s0)
  {
    NodeValueIsValue(t, s0, opt, 0, 0);
    assert Spot(t, s0, 0, 0) == s0;
  }

  // ---------------------------------------------------------------------
  // Non-negativity and early exercise

  /** With 0 <= p <= 1 and disc >= 0 every node value is non-negative. */
  lemma {:induction false} NodeValueNonNegative(t: Tree, s0: real, opt: Instrument, i: nat, j: nat)
    requires Sound(t) && j <= i <= t.steps
    ensures NodeValue(t, s0, opt, i, j) >= 0.0
    decreases t.steps - i
  {
    if i < t.steps {
      NodeValueNonNegative(t, s0, opt, i + 1, j + 1);
      NodeValueNonNegative(t, s0, opt, i + 1, j);
      HoldNonNegative(t, NodeValue(t, s0, opt, i + 1, j + 1), NodeValue(t, s0, opt, i + 1, j));
    }
  }

  lemma PriceNonNegative(t: Tree, s0: real, opt: Instrument)
    requires Sound(t)
    ensures Price(t, s0, opt) >= 0.0
  {
    NodeValueNonNegative(t, s0, opt, 0, 0);
  }

  /** An American node is worth at least its continuation value and at
      least the payoff of exercising at the node's spot. */
  lemma AmericanNodeBounds(t: Tree, s0: real, opt: Instrument, i: nat, j: nat)
    requires opt.american && j <= i < t.steps
    ensures NodeValue(t, s0, opt, i, j) >= Payoff(opt.kind, opt.strike, Spot(t, s0, i, j))
    ensures NodeValue(t, s0, opt, i, j) >=
      Hold(t, NodeValue(t, s0, opt, i + 1, j + 1), NodeValue(t, s0, opt, i + 1, j))
  {
  }

  /** With 0 <= p <= 1 and disc >= 0, early exercise never lowers a node. */
  lemma {:induction false} AmericanDominatesAt(t: Tree, s0: real, strike: real, kind: Kind, i: nat, j: nat)
    requires Sound(t) && j <= i <= t.steps
    ensures NodeValue(t, s0, Instrument(strike, kind, true), i, j) >=
            NodeValue(t, s0, Instrument(strike, kind, false), i, j)
    decreases t.steps - i
  {
    if i < t.steps {
      var am, eu := Instrument(strike, kind, true), Instrument(strike, kind, false);
      AmericanDominatesAt(t, s0, strike, kind, i + 1, j + 1);
      AmericanDominatesAt(t, s0, strike, kind, i + 1, j);
      HoldMonotone(t, NodeValue(t, s0, eu, i + 1, j + 1), NodeValue(t, s0, eu, i + 1, j),
                      NodeValue(t, s0, am, i + 1, j + 1), NodeValue(t, s0, am, i + 1, j));
    }
  }

  lemma AmericanAtLeastEuropean(t: Tree, s0: real, strike: real, kind: Kind)
    requires Sound(t)
    ensures Price(t, s0, Instrument(strike, kind, true)) >= Price(t, s0, Instrument(strike, kind, false))
  {
    AmericanDominatesAt(t, s0, strike, kind, 0, 0);
  }

  /** A one-step tree: the European price is the discounted risk-neutral
      expectation of the payoffs at s0 * u and s0 * d; the American one
      also compares with exercising at once at s0. */
  lemma OneStepPrice(t: Tree, s0: real, opt: Instrument)
    requires t.steps == 1
    ensures var hold := Hold(t, Payoff(opt.kind, opt.strike, UpMove(t, s0)), Payoff(opt.kind, opt.strike, DownMove(t, s0)));
      Price(t, s0, opt) == if opt.american then Max(hold, Payoff(opt.kind, opt.strike, s0)) else hold
  {
    SpotStep(t, s0, 0, 0);
    assert Spot(t, s0, 0, 0) == s0;
    assert NodeValue(t, s0, opt, 1, 1) == Payoff(opt.kind, opt.strike, UpMove(t, s0));
    assert NodeValue(t, s0, opt, 1, 0) == Payoff(opt.kind, opt.strike, DownMove(t, s0));
  }

  // ---------------------------------------------------------------------
  // Put-call parity and the American call

  /** The strike discounted from the last level back to level i:
      strike * disc^(steps - i). */
  function DiscountedStrike(t: Tree, strike: real, i: nat): (k: real)
    requires i <= t.steps
  {
    strike * Pow(t.disc, t.steps - i)
  }

  /** With 0 <= disc <= 1 discounting never raises a non-negative strike. */
  lemma DiscountedAtMost(t: Tree, strike: real, i: nat)
    requires 0.0 <= t.disc <= 1.0 && strike >= 0.0 && i <= t.steps
    ensures 0.0 <= DiscountedStrike(t, strike, i) <= strike
  {
    var x := Pow(t.disc, t.steps - i);
    assert DiscountedStrike(t, strike, i) == strike * x;
    assert 0.0 <= x <= 1.0 by {
      PowAtMostOne(t.disc, t.steps - i);
    }
    assert strike * x <= strike by {
      MulMonotone(strike, x, 1.0);
    }
    assert strike * x >= 0.0 by {
      ProductNonNegative(strike, x);
    }
  }

  /** At the root the strike is discounted over all the steps. */
  lemma DiscountedAtRoot(t: Tree, strike: real)
    ensures DiscountedStrike(t, strike, 0) == strike * Pow(t.disc, t.steps)
  {
    assert t.steps - 0 == t.steps;
  }

  /** Discounting one level further back multiplies by disc. */
  lemma DiscountStep(t: Tree, strike: real, i: nat)
    requires i < t.steps
    ensures DiscountedStrike(t, strike, i) == t.disc * DiscountedStrike(t, strike, i + 1)
  {
    var n := t.steps - (i + 1);
    assert t.steps - i == n + 1;
    assert Pow(t.disc, n + 1) == t.disc * Pow(t.disc, n);
  }

  /** Parity is kept by one backward step: when the call and put successors
      differ by the successor spots minus k, the continuation values differ
      by the spot minus k discounted one step, k0. */
  lemma ParityStep(t: Tree, cu: real, cd: real, pu: real, pd: real, s: real, k: real, k0: real)
    requires RiskNeutral(t)
    requires cu - pu == UpMove(t, s) - k && cd - pd == DownMove(t, s) - k && k0 == t.disc * k
    ensures Hold(t, cu, cd) - Hold(t, pu, pd) == s - k0
  {
    HoldLinear(t, pu, pd, cu, cd);
    HoldLinear(t, k, k, UpMove(t, s), DownMove(t, s));
    HoldOfMoves(t, s);
    assert Hold(t, k, k) == t.disc * k;
  }

  /** The European call minus the European put at level i and spot s,
      on a risk-neutral tree. */
  ghost predicate ParityHolds(t: Tree, strike: real, i: nat, s: real)
    requires i <= t.steps
  {
    Value(t, Instrument(strike, Call, false), i, s) - Value(t, Instrument(strike, Put, false), i, s)
      == s - DiscountedStrike(t, strike, i)
  }

  /** Parity at both successors of a node gives parity at the node. */
  lemma ParityBackstep(t: Tree, strike: real, i: nat, s: real)
    requires RiskNeutral(t) && i < t.steps
    requires ParityHolds(t, strike, i + 1, UpMove(t, s)) && ParityHolds(t, strike, i + 1, DownMove(t, s))
    ensures ParityHolds(t, strike, i, s)
  {
    var call, put := Instrument(strike, Call, false), Instrument(strike, Put, false);
    var k := DiscountedStrike(t, strike, i + 1);
    var cu, cd := Value(t, call, i + 1, UpMove(t, s)), Value(t, call, i + 1, DownMove(t, s));
    var pu, pd := Value(t, put, i + 1, UpMove(t, s)), Value(t, put, i + 1, DownMove(t, s));
    DiscountStep(t, strike, i);
    ParityStep(t, cu, cd, pu, pd, s, k, DiscountedStrike(t, strike, i));
    assert Value(t, call, i, s) == Hold(t, cu, cd) by {
      ValueUnfold(t, call, i, s);
    }
    assert Value(t, put, i, s) == Hold(t, pu, pd) by {
      ValueUnfold(t, put, i, s);
    }
  }

  /** For every spot s and level i of a risk-neutral tree, the European
      call minus the European put is s minus the strike discounted over the
      steps left. */
  lemma {:induction false} ValueParity(t: Tree, strike: real, i: nat, s: real)
    requires RiskNeutral(t) && i <= t.steps
    ensures Value(t, Instrument(strike, Call, false), i, s) - Value(t, Instrument(strike, Put, false), i, s)
         == s - DiscountedStrike(t, strike, i)
    decreases t.steps - i
  {
    if i < t.steps {
      ValueParity(t, strike, i + 1, UpMove(t, s));
      ValueParity(t, strike, i + 1, DownMove(t, s));
      ParityBackstep(t, strike, i, s);
    } else {
      assert Pow(t.disc, 0) == 1.0;
    }
  }

  /** Put-call parity: on a risk-neutral tree the European call price minus
      the European put price is s0 - strike * disc^steps. */
  lemma PutCallParity(t: Tree, s0: real, strike: real)
    requires RiskNeutral(t)
    ensures Price(t, s0, Instrument(strike, Call, false)) - Price(t, s0, Instrument(strike, Put, false))
         == s0 - strike * Pow(t.disc, t.steps)
  {
    PriceIsValue(t, s0, Instrument(strike, Call, false));
    PriceIsValue(t, s0, Instrument(strike, Put, false));
    ValueParity(t, strike, 0, s0);
    DiscountedAtRoot(t, strike);
  }

  /** With 0 <= p <= 1 and disc >= 0 the value function is never negative. */
  lemma {:induction false} ValueNonNegative(t: Tree, opt: Instrument, i: nat, s: real)
    requires Sound(t) && i <= t.steps
    ensures Value(t, opt, i, s) >= 0.0
    decreases t.steps - i
  {
    if i < t.steps {
      ValueNonNegative(t, opt, i + 1, UpMove(t, s));
      ValueNonNegative(t, opt, i + 1, DownMove(t, s));
      ValueUnfold(t, opt, i, s);
      HoldNonNegative(t, Value(t, opt, i + 1, UpMove(t, s)), Value(t, opt, i + 1, DownMove(t, s)));
    }
  }

  /** The European call is worth at least its exercise value when
      the rate is not negative (disc <= 1) and the strike is not negative. */
  lemma EuropeanCallAboveExercise(t: Tree, strike: real, i: nat, s: real)
    requires Sound(t) && RiskNeutral(t) && t.disc <= 1.0 && strike >= 0.0 && i <= t.steps
    ensures Value(t, Instrument(strike, Call, false), i, s) >= Payoff(Call, strike, s)
  {
    ValueParity(t, strike, i, s);
    ValueNonNegative(t, Instrument(strike, Put, false), i, s);
    ValueNonNegative(t, Instrument(strike, Call, false), i, s);
    DiscountedAtMost(t, strike, i);
  }

  /** When early exercise adds nothing at both successors, it adds nothing
      at the node either. */
  lemma AmericanCallBackstep(t: Tree, strike: real, i: nat, s: real)
    requires Sound(t) && RiskNeutral(t) && t.disc <= 1.0 && strike >= 0.0 && i < t.steps
    requires Value(t, Instrument(strike, Call, true), i + 1, UpMove(t, s))
          == Value(t, Instrument(strike, Call, false), i + 1, UpMove(t, s))
    requires Value(t, Instrument(strike, Call, true), i + 1, DownMove(t, s))
          == Value(t, Instrument(strike, Call, false), i + 1, DownMove(t, s))
    ensures Value(t, Instrument(strike, Call, true), i, s) == Value(t, Instrument(strike, Call, false), i, s)
  {
    var am, eu := Instrument(strike, Call, true), Instrument(strike, Call, false);
    var hold := Hold(t, Value(t, eu, i + 1, UpMove(t, s)), Value(t, eu, i + 1, DownMove(t, s)));
    assert Value(t, am, i, s) == Max(hold, Payoff(Call, strike, s)) by {
      ValueUnfold(t, am, i, s);
    }
    assert Value(t, eu, i, s) == hold by {
      ValueUnfold(t, eu, i, s);
    }
    EuropeanCallAboveExercise(t, strike, i, s);
  }

  /** With a non-negative rate (disc <= 1) and a non-negative strike, exercising
      a call early is never better than holding it: at every level and spot
      the American call has the European value. */
  lemma {:induction false} AmericanCallValue(t: Tree, strike: real, i: nat, s: real)
    requires Sound(t) && RiskNeutral(t) && t.disc <= 1.0 && strike >= 0.0 && i <= t.steps
    ensures Value(t, Instrument(strike, Call, true), i, s) == Value(t, Instrument(strike, Call, false), i, s)
    decreases t.steps - i
  {
    if i < t.steps {
      AmericanCallValue(t, strike, i + 1, UpMove(t, s));
      AmericanCallValue(t, strike, i + 1, DownMove(t, s));
      AmericanCallBackstep(t, strike, i, s);
    }
  }

  lemma AmericanCallEqualsEuropean(t: Tree, s0: real, strike: real)
    requires Sound(t) && RiskNeutral(t) && t.disc <= 1.0 && strike >= 0.0
    ensures Price(t, s0, Instrument(strike, Call, true)) == Price(t, s0, Instrument(strike, Call, false))
  {
    PriceIsValue(t, s0, Instrument(strike, Call, true));
    PriceIsValue(t, s0, Instrument(strike, Call, false));
    AmericanCallValue(t, strike, 0, s0);
  }
}
