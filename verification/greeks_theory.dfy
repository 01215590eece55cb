/** How the lattice price depends on the spot, and what that says about
    the finite-difference delta and gamma of delta_gamma. */
module GreeksTheory {
  import opened Binomial
  import opened BinomialTheory
  import opened RealArith

  // ---------------------------------------------------------------------
  // Steps on plain values

  lemma PayoffLipschitz(kind: Kind, strike: real, x: real, y: real)
    requires x <= y
    ensures kind == Call ==> 0.0 <= Payoff(kind, strike, y) - Payoff(kind, strike, x) <= y - x
    ensures kind == Put ==> 0.0 <= Payoff(kind, strike, x) - Payoff(kind, strike, y) <= y - x
  {
  }

  lemma PayoffConvex(kind: Kind, strike: real, x: real, y: real, m: real)
    requires 2.0 * m == x + y
    ensures 2.0 * Payoff(kind, strike, m) <= Payoff(kind, strike, x) + Payoff(kind, strike, y)
  {
  }

  lemma MaxSubadditive(a: real, b: real, c: real, e: real)
    ensures Max(a + b, c + e) <= Max(a, c) + Max(b, e)
  {
  }

  /** Both moves keep the order of two spots, and move their difference
      the way they move a spot. */
  lemma MovesOrdered(t: Tree, x: real, y: real)
    requires PositiveMoves(t) && x <= y
    ensures UpMove(t, x) <= UpMove(t, y) && DownMove(t, x) <= DownMove(t, y)
    ensures UpMove(t, y) - UpMove(t, x) == UpMove(t, y - x)
    ensures DownMove(t, y) - DownMove(t, x) == DownMove(t, y - x)
  {
    assert (y - x) * t.u >= 0.0;
    assert (y - x) * t.d >= 0.0;
  }

  /** Both moves keep a midpoint a midpoint. */
  lemma MovesMidpoint(t: Tree, x: real, y: real, m: real)
    requires 2.0 * m == x + y
    ensures 2.0 * UpMove(t, m) == UpMove(t, x) + UpMove(t, y)
    ensures 2.0 * DownMove(t, m) == DownMove(t, x) + DownMove(t, y)
  {
    assert (2.0 * m) * t.u == (x + y) * t.u;
    assert (2.0 * m) * t.d == (x + y) * t.d;
  }

  lemma MonotoneStep(t: Tree, american: bool, lu: real, ld: real, hu: real, hd: real, el: real, eh: real)
    requires Sound(t) && lu <= hu && ld <= hd && el <= eh
    ensures Backstep(t, american, lu, ld, el) <= Backstep(t, american, hu, hd, eh)
  {
    HoldMonotone(t, lu, ld, hu, hd);
  }

  lemma LipschitzStep(t: Tree, american: bool, lu: real, ld: real, hu: real, hd: real,
                      el: real, eh: real, w: real)
    requires Sound(t) && RiskNeutral(t)
    requires hu - lu <= UpMove(t, w) && hd - ld <= DownMove(t, w) && eh - el <= w
    ensures Backstep(t, american, hu, hd, eh) - Backstep(t, american, lu, ld, el) <= w
  {
    HoldLinear(t, lu, ld, hu, hd);
    HoldMonotone(t, hu - lu, hd - ld, UpMove(t, w), DownMove(t, w));
    HoldOfMoves(t, w);
    MaxDifference(Hold(t, lu, ld), el, Hold(t, hu, hd), eh);
  }

  lemma ConvexStep(t: Tree, american: bool, au: real, ad: real, bu: real, bd: real,
                   mu: real, md: real, ea: real, eb: real, em: real)
    requires Sound(t)
    requires 2.0 * mu <= au + bu && 2.0 * md <= ad + bd && 2.0 * em <= ea + eb
    ensures 2.0 * Backstep(t, american, mu, md, em)
         <= Backstep(t, american, au, ad, ea) + Backstep(t, american, bu, bd, eb)
  {
    HoldLinear(t, mu, md, mu, md);
    HoldLinear(t, au, ad, bu, bd);
    HoldMonotone(t, mu + mu, md + md, bu + au, bd + ad);
    MaxSubadditive(Hold(t, au, ad), Hold(t, bu, bd), ea, eb);
  }

  // ---------------------------------------------------------------------
  // Monotone, Lipschitz and convex in the spot

  /** A higher spot never lowers a call and never raises a put, European
      or American. */
  lemma {:induction false} ValueMonotone(t: Tree, opt: Instrument, i: nat, x: real, y: real)
    requires Sound(t) && PositiveMoves(t) && i <= t.steps && x <= y
    ensures opt.kind == Call ==> Value(t, opt, i, x) <= Value(t, opt, i, y)
    ensures opt.kind == Put ==> Value(t, opt, i, y) <= Value(t, opt, i, x)
    decreases t.steps - i
  {
    PayoffLipschitz(opt.kind, opt.strike, x, y);
    if i < t.steps {
      MovesOrdered(t, x, y);
      ValueMonotone(t, opt, i + 1, UpMove(t, x), UpMove(t, y));
      ValueMonotone(t, opt, i + 1, DownMove(t, x), DownMove(t, y));
      var lu, ld := Value(t, opt, i + 1, UpMove(t, x)), Value(t, opt, i + 1, DownMove(t, x));
      var hu, hd := Value(t, opt, i + 1, UpMove(t, y)), Value(t, opt, i + 1, DownMove(t, y));
      var el, eh := Payoff(opt.kind, opt.strike, x), Payoff(opt.kind, opt.strike, y);
      if opt.kind == Call {
        MonotoneStep(t, opt.american, lu, ld, hu, hd, el, eh);
      } else {
        MonotoneStep(t, opt.american, hu, hd, lu, ld, eh, el);
      }
    }
  }

  /** On a risk-neutral tree a call gains, and a put loses, at most what
      the spot gains. */
  lemma {:induction false} ValueLipschitz(t: Tree, opt: Instrument, i: nat, x: real, y: real)
    requires Sound(t) && RiskNeutral(t) && PositiveMoves(t) && i <= t.steps && x <= y
    ensures opt.kind == Call ==> Value(t, opt, i, y) - Value(t, opt, i, x) <= y - x
    ensures opt.kind == Put ==> Value(t, opt, i, x) - Value(t, opt, i, y) <= y - x
    decreases t.steps - i
  {
    PayoffLipschitz(opt.kind, opt.strike, x, y);
    if i < t.steps {
      MovesOrdered(t, x, y);
      ValueLipschitz(t, opt, i + 1, UpMove(t, x), UpMove(t, y));
      ValueLipschitz(t, opt, i + 1, DownMove(t, x), DownMove(t, y));
      var lu, ld := Value(t, opt, i + 1, UpMove(t, x)), Value(t, opt, i + 1, DownMove(t, x));
      var hu, hd := Value(t, opt, i + 1, UpMove(t, y)), Value(t, opt, i + 1, DownMove(t, y));
      var el, eh := Payoff(opt.kind, opt.strike, x), Payoff(opt.kind, opt.strike, y);
      if opt.kind == Call {
        LipschitzStep(t, opt.american, lu, ld, hu, hd, el, eh, y - x);
      } else {
        LipschitzStep(t, opt.american, hu, hd, lu, ld, eh, el, y - x);
      }
    }
  }

  /** The value is midpoint-convex in the spot, European or American:
      at the midpoint m of x and y it is at most the mean of the values
      at x and y. */
  lemma {:induction false} ValueConvex(t: Tree, opt: Instrument, i: nat, x: real, y: real, m: real)
    requires Sound(t) && i <= t.steps && 2.0 * m == x + y
    ensures 2.0 * Value(t, opt, i, m) <= Value(t, opt, i, x) + Value(t, opt, i, y)
    decreases t.steps - i
  {
    PayoffConvex(opt.kind, opt.strike, x, y, m);
    if i < t.steps {
      MovesMidpoint(t, x, y, m);
      ValueConvex(t, opt, i + 1, UpMove(t, x), UpMove(t, y), UpMove(t, m));
      ValueConvex(t, opt, i + 1, DownMove(t, x), DownMove(t, y), DownMove(t, m));
      ConvexStep(t, opt.american,
                 Value(t, opt, i + 1, UpMove(t, x)), Value(t, opt, i + 1, DownMove(t, x)),
                 Value(t, opt, i + 1, UpMove(t, y)), Value(t, opt, i + 1, DownMove(t, y)),
                 Value(t, opt, i + 1, UpMove(t, m)), Value(t, opt, i + 1, DownMove(t, m)),
                 Payoff(opt.kind, opt.strike, x), Payoff(opt.kind, opt.strike, y),
                 Payoff(opt.kind, opt.strike, m));
    }
  }

  // ---------------------------------------------------------------------
  // The Greeks of delta_gamma

  /** The central difference of two prices whose difference lies between
      0 and 2 * h lies in [0, 1]. */
  lemma CentralDeltaInUnit(vUp: real, vDown: real, h: real)
    requires h != 0.0
    requires h > 0.0 ==> 0.0 <= vUp - vDown <= 2.0 * h
    requires h < 0.0 ==> 2.0 * h <= vUp - vDown <= 0.0
    ensures 0.0 <= CentralDelta(vUp, vDown, h) <= 1.0
  {
    RatioInUnit(vUp - vDown, 2.0 * h);
  }

  /** Swapping the two prices negates the central difference. */
  lemma CentralDeltaSwap(vUp: real, vDown: real, h: real)
    requires h != 0.0
    ensures CentralDelta(vUp, vDown, h) == -CentralDelta(vDown, vUp, h)
  {
    assert (vUp - vDown) == -(vDown - vUp);
  }

  /** The second central difference of midpoint-convex prices is not
      negative. */
  lemma CentralGammaNonNegative(v: real, vUp: real, vDown: real, h: real)
    requires h != 0.0 && 2.0 * v <= vUp + vDown
    ensures CentralGamma(v, vUp, vDown, h) >= 0.0
  {
    SquarePositive(h, h * h);
    QuotientNonNegative(vUp - 2.0 * v + vDown, h * h);
  }

  /** The central-difference delta lies in [0, 1] for a call and in [-1, 0]
      for a put, on a sound risk-neutral tree with positive moves. */
  lemma DeltaBounds(t: Tree, s0: real, strike: real, kind: Kind)
    requires Sound(t) && RiskNeutral(t) && PositiveMoves(t) && s0 != 0.0
    ensures var delta := CentralDifferences(t, s0, strike, kind).delta;
      if kind == Call then 0.0 <= delta <= 1.0 else -1.0 <= delta <= 0.0
  {
    var h := 0.01 * s0;
    var opt := Instrument(strike, kind, false);
    var lo, hi := if h > 0.0 then s0 - h else s0 + h, if h > 0.0 then s0 + h else s0 - h;
    PriceIsValue(t, s0 + h, opt);
    PriceIsValue(t, s0 - h, opt);
    ValueMonotone(t, opt, 0, lo, hi);
    ValueLipschitz(t, opt, 0, lo, hi);
    var vUp, vDown := Price(t, s0 + h, opt), Price(t, s0 - h, opt);
    if kind == Call {
      CentralDeltaInUnit(vUp, vDown, h);
    } else {
      CentralDeltaInUnit(vDown, vUp, h);
      CentralDeltaSwap(vUp, vDown, h);
    }
  }

  /** The central-difference gamma is never negative: the price is convex
      in the spot. */
  lemma GammaNonNegative(t: Tree, s0: real, strike: real, kind: Kind)
    requires Sound(t) && s0 != 0.0
    ensures CentralDifferences(t, s0, strike, kind).gamma >= 0.0
  {
    var h := 0.01 * s0;
    var opt := Instrument(strike, kind, false);
    PriceIsValue(t, s0 + h, opt);
    PriceIsValue(t, s0 - h, opt);
    PriceIsValue(t, s0, opt);
    ValueConvex(t, opt, 0, s0 + h, s0 - h, s0);
    CentralGammaNonNegative(Price(t, s0, opt), Price(t, s0 + h, opt), Price(t, s0 - h, opt), h);
  }
}
