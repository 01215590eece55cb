# Binomial option pricing and futures hedging, in Dafny

This project models the pricing core of a small options library.

- `binomial_option_price` prices European and American calls and puts on a
  Cox-Ross-Rubinstein lattice.
- `delta_gamma` estimates delta and gamma by central finite differences,
  from three pricings that differ only in the spot.
- `hedge_ratio` and `hedge_pnl` come from the futures module.

Files:

- `outcomes.dfy` (module `Outcomes`) holds the `Result` type. Its one error
  value stands for a division by zero, the only failure the modelled
  arithmetic can hit.
- `real_arith.dfy` (module `RealArith`) holds sign and order lemmas for
  products and quotients, shared by the other modules.
- `binomial.dfy` (module `Binomial`) holds the data model, a specification
  of the lattice, and the pricer and `delta_gamma`. The pricer and
  `delta_gamma` are imperative methods. The pricer keeps the source's
  level-by-level rewriting of the `values` list, and both are proved
  against the specification functions `Price` and `CentralDifferences`.
- `binomial_theory.dfy` (module `BinomialTheory`) proves facts about the
  lattice:
  - the set-up is risk-neutral, and `p` is a probability exactly when the
    one-step growth lies between `d` and `u`;
  - the terminal level is ordered;
  - prices are non-negative;
  - American prices dominate European ones;
  - the one-step formula;
  - put-call parity;
  - with a non-negative rate (`disc <= 1`), an American call is worth
    exactly the European call;
  - `SetupSound` gives the conditions under which the pricer's own tree is
    `Sound` and `RiskNeutral` and has `PositiveMoves`, the tree conditions
    the lemmas above share. An ordered terminal level also needs `u >= 1`,
    and the American-call result also needs `disc <= 1` and `K >= 0`.
- `greeks_theory.dfy` (module `GreeksTheory`) proves that the lattice value
  is monotone, 1-Lipschitz and midpoint-convex in the spot. From these
  follow the bounds on the finite-difference delta (in [0, 1] for a call,
  in [-1, 0] for a put) and a non-negative gamma.
- `forwards.dfy` (module `Forwards`) models the hedge ratio and the hedged
  profit and loss.

The transcendental set-up is taken as input. Instead of `r`, `sigma` and
`T`, the pricer receives three reals:

- `u = exp(sigma * sqrt(dt))`;
- `growth = exp(r * dt)`;
- `disc = exp(-r * dt)`.

Every division of the source fails in the model exactly where it fails in the code:

- `dt = T / N` fails when `N == 0`;
- `d = 1 / u` fails when `u == 0`;
- `p = (growth - d) / (u - d)` fails exactly when `u * u == 1`;
- `delta_gamma` divides by `h = 0.01 * S0`, so it fails when `S0 == 0`.

The code validates no input. A non-positive spot or strike, or a `p`
outside [0, 1], yields a price from the pricer, not an error. A zero maturity makes
`u = exp(0) = 1`, so the division for `p` fails; the model returns its error
through `u * u == 1`. A negative maturity makes `math.sqrt` fail, which the
model cannot represent (see "## Left out"). The lemmas state the conditions
(`Sound`, `RiskNeutral`, `PositiveMoves`) under which the numbers have their
financial meaning. `SetupIsRiskNeutral`, `SetupProbabilityInRange` and
`SetupSound` say when the set-up meets them.

## Model

| member | source | states |
|---|---|---|
| Binomial.KindOf | src/pricing/binomial.py:44-47 | the payoff is a call exactly when `option_type` is the string "call", and a put for every other string |
| Binomial.Payoff | src/pricing/binomial.py:44-47 | the payoff is `max(S - K, 0)` for a call and `max(K - S, 0)` for a put: not negative, at least the intrinsic value, and equal to 0 or to the intrinsic value |
| Binomial.ReciprocalDistinctIff | src/pricing/binomial.py:31-33 | for `u != 0`, `d = 1/u` satisfies `u * d == 1`, and `u - d` is zero exactly when `u * u == 1`, which is when the division for `p` fails |
| Binomial.Setup | src/pricing/binomial.py:30-35 | the tree keeps `u`, the discount and `N`, and has `d * u == 1`, `d != u` and `p * (u - d) == growth - d` |
| Binomial.TerminalPrices | src/pricing/binomial.py:38-41 | there are `N + 1` terminal prices; the first is `S0 * d^N`, and each next one is the previous with one down-move traded for an up-move |
| Binomial.TradeDownForUp | src/pricing/binomial.py:39 | at the last level, `S0 u^(j+1) d^(N-j-1) * d == S0 u^j d^(N-j) * u` |
| Binomial.Payoffs | src/pricing/binomial.py:43-47 | there is one payoff per terminal price, in the same order, each the payoff of its price and none negative |
| Binomial.BinomialOptionPrice | src/pricing/binomial.py:14-77 | the error happens exactly when `N == 0`, `u == 0` or `u * u == 1`; otherwise the backward induction returns `Price` of the set-up tree for the instrument given by strike, `KindOf(option_type)` and the American flag |
| Binomial.DeltaGamma | src/pricing/binomial.py:80-105 | the error happens exactly when the pricer fails or `S0 == 0`; otherwise the result is the central differences of three European prices at `S0` and `S0 ± 0.01*S0` on one tree |
| BinomialTheory.SetupIsRiskNeutral | src/pricing/binomial.py:30-35 | when `growth * disc == 1` and `u > 0`, the set-up tree has `disc * (p u + (1-p) d) == 1` and positive moves |
| BinomialTheory.SetupProbabilityInRange | src/pricing/binomial.py:33 | the computed `p` lies in [0, 1] if and only if the growth lies between `d` and `u` |
| BinomialTheory.SetupSound | src/pricing/binomial.py:30-35 | when `u > 0`, `u * u != 1`, `growth * disc == 1`, `disc > 0` and the growth lies between `1/u` and `u`, the set-up tree has `p` in [0, 1], `disc >= 0`, the risk-neutral identity and positive moves |
| BinomialTheory.SpotStep | src/pricing/binomial.py:63 | an up-move takes node (i, j) to (i+1, j+1) and multiplies the spot by `u`; a down-move takes it to (i+1, j) and multiplies the spot by `d` |
| BinomialTheory.SpotNonNegative | src/pricing/binomial.py:63 | with positive moves and `S0 >= 0`, every node's spot is non-negative |
| BinomialTheory.TerminalPricesAscending | src/pricing/binomial.py:38-41 | with `0 < d <= u` and `S0 >= 0`, the terminal prices are nondecreasing in the number of up-moves |
| BinomialTheory.TerminalPayoffsMonotone | src/pricing/binomial.py:43-47 | under the same conditions, terminal call payoffs are nondecreasing and put payoffs nonincreasing |
| BinomialTheory.HoldNonNegative | src/pricing/binomial.py:56-59 | with `0 <= p <= 1` and `disc >= 0`, the continuation value of non-negative successors is not negative |
| BinomialTheory.HoldMonotone | src/pricing/binomial.py:56-59 | the continuation value never falls when a successor value rises |
| BinomialTheory.HoldOfMoves | src/pricing/binomial.py:56-59 | on a risk-neutral tree, the continuation value of `c*u` and `c*d` is `c` |
| BinomialTheory.NodeValueIsValue | src/pricing/binomial.py:50-75 | every lattice node has the value that the spot-carrying recursion `Value` gives for that node's spot |
| BinomialTheory.PriceIsValue | src/pricing/binomial.py:77 | the price returned is `Value` at level 0 and spot `S0` |
| BinomialTheory.NodeValueNonNegative | src/pricing/binomial.py:50-75 | with `0 <= p <= 1` and `disc >= 0`, every node value is non-negative |
| BinomialTheory.PriceNonNegative | src/pricing/binomial.py:14-77 | under the same conditions, the price is non-negative |
| BinomialTheory.ValueNonNegative | src/pricing/binomial.py:50-75 | under the same conditions, the value at any level and spot is non-negative |
| BinomialTheory.AmericanNodeBounds | src/pricing/binomial.py:61-70 | an American node is worth at least its continuation value and at least its exercise payoff |
| BinomialTheory.AmericanDominatesAt | src/pricing/binomial.py:50-75 | with `0 <= p <= 1` and `disc >= 0`, every American node is worth at least the European node |
| BinomialTheory.AmericanAtLeastEuropean | src/pricing/binomial.py:14-77 | under the same conditions, the American price is at least the European price |
| BinomialTheory.OneStepPrice | src/pricing/binomial.py:14-77 | for `N == 1`, the European price is `disc*(p*payoff(S0 u) + (1-p)*payoff(S0 d))`, and the American price is the larger of that and `payoff(S0)` |
| BinomialTheory.ValueParity | src/pricing/binomial.py:50-75 | on a risk-neutral tree, at every level `i` and spot `s`, European call minus put is `s - K*disc^(N-i)` |
| BinomialTheory.PutCallParity | src/pricing/binomial.py:14-77 | on a risk-neutral tree, European call price minus put price is `S0 - K*disc^N` |
| BinomialTheory.EuropeanCallAboveExercise | src/pricing/binomial.py:65-66 | with a non-negative rate (`disc <= 1`) and `K >= 0`, the European call value is at least its exercise payoff at every node |
| BinomialTheory.AmericanCallValue | src/pricing/binomial.py:61-70 | with a non-negative rate (`disc <= 1`) and `K >= 0`, the American call has the European value at every level and spot |
| BinomialTheory.AmericanCallEqualsEuropean | src/pricing/binomial.py:14-77 | with a non-negative rate (`disc <= 1`) and `K >= 0`, the American call price equals the European call price |
| GreeksTheory.PayoffLipschitz | src/pricing/binomial.py:44-47 | a payoff moves with the spot by at most the spot move: up for a call, down for a put |
| GreeksTheory.PayoffConvex | src/pricing/binomial.py:44-47 | the payoff is midpoint-convex in the spot |
| GreeksTheory.ValueMonotone | src/pricing/binomial.py:50-75 | a higher spot never lowers a call value and never raises a put value, European or American |
| GreeksTheory.ValueLipschitz | src/pricing/binomial.py:50-75 | on a risk-neutral tree, a value moves by at most the spot move |
| GreeksTheory.ValueConvex | src/pricing/binomial.py:50-75 | the value is midpoint-convex in the spot, European or American |
| GreeksTheory.CentralDeltaInUnit | src/pricing/binomial.py:101 | the central difference lies in [0, 1] when the price difference lies between 0 and `2h` |
| GreeksTheory.CentralGammaNonNegative | src/pricing/binomial.py:103 | the second central difference of midpoint-convex prices is not negative |
| GreeksTheory.DeltaBounds | src/pricing/binomial.py:80-105 | on a sound risk-neutral tree with positive moves, delta lies in [0, 1] for a call and in [-1, 0] for a put |
| GreeksTheory.GammaNonNegative | src/pricing/binomial.py:80-105 | on a sound tree, gamma is not negative |
| Forwards.HedgeRatio | src/pricing/forwards.py:35-39 | the ratio fails exactly when `sigma_futures == 0`; otherwise `h * sigma_futures == correlation * sigma_spot` |
| Forwards.HedgeRatioSign | src/pricing/forwards.py:39 | with positive volatilities, the ratio exists, has the sign of the correlation, and is zero exactly when the correlation is |
| Forwards.HedgePnl | src/pricing/forwards.py:42-62 | the total is the unhedged plus the futures result, and equals `units * (spot move - hedge_ratio * futures move)` |
| Forwards.UnchangedSpotNoUnhedged | src/pricing/forwards.py:54 | an unchanged spot gives an unhedged result of zero |
| Forwards.NoHedgeEffect | src/pricing/forwards.py:56-60 | a zero hedge ratio, or unmoved futures, gives a zero futures result and a total equal to the unhedged result |
| Forwards.PerfectHedge | src/pricing/forwards.py:54-60 | a ratio of one against futures that move as the spot does gives a futures result opposite to the unhedged result and a total of zero |

## Left out

- The computation of `dt`, `u = exp(sigma*sqrt(dt))`, `exp(r*dt)` and `exp(-r*dt)`. Exponentials and square roots have no exact real model, so these three values are parameters of the pricer. The error for `N == 0` (from `T / N`) is kept.
- `u == 0` cannot come from `exp` except by floating-point underflow. The model keeps the division failure it would cause, but nothing ties `u` to `sigma` and `dt`.
- IEEE floating point: rounding, infinities and NaN. All arithmetic is exact over the reals, so put-call parity holds exactly rather than within a tolerance.
- The `ValueError` that `math.sqrt` raises when `dt < 0` (a negative `T` or `N`), and the `OverflowError` that `math.exp` and float `**` raise on large inputs. Neither can be represented, because `u`, `growth` and `disc` are inputs and the arithmetic is exact.
- A negative or non-integer `N`. `N` is a natural number in the model; the code would raise other errors or loop over empty ranges.
- Python exception types. Every `ZeroDivisionError` becomes the single error value `ZeroDivision`.
- Default arguments (`option_type="call"`, `american=False`). Every argument is explicit. `DeltaGamma` always prices European options, as the code does by never passing `american`.
- `forward_price` and `forward_value` in `src/pricing/forwards.py`, which are exponential formulas only.
- The demonstration blocks under `if __name__ == "__main__"`, which only print.
- BinomialTheory.PutCallParity: states the discounted strike as `K*disc^N` under the risk-neutral condition, not with `exp(-r*T)`, since exponentials are not modelled.
