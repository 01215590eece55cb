/** The hedging part of src/pricing/forwards.py: the minimum-variance hedge
    ratio and the profit and loss of a spot position hedged with futures. */
module Forwards {
  import opened Outcomes
  import opened RealArith

  /** hedge_ratio: correlation * (sigma_spot / sigma_futures).  The division
      fails when the futures volatility is zero; otherwise the ratio is the
      number h with h * sigma_futures == correlation * sigma_spot. */
  function HedgeRatio(correlation: real, sigmaSpot: real, sigmaFutures: real): (r: Result<real>)
    ensures r.Err? <==> sigmaFutures == 0.0
    ensures r.Ok? ==> r.value * sigmaFutures == correlation * sigmaSpot
  {
    if sigmaFutures == 0.0 then Err(ZeroDivision)
    else
      var q := sigmaSpot / sigmaFutures;
      assert q * sigmaFutures == sigmaSpot;
      assert (correlation * q) * sigmaFutures == correlation * (q * sigmaFutures);
      Ok(correlation * q)
  }

  /** With both volatilities positive, the hedge ratio exists, has the sign
      of the correlation and is zero exactly when the correlation is. */
  lemma HedgeRatioSign(correlation: real, sigmaSpot: real, sigmaFutures: real)
    requires sigmaSpot > 0.0 && sigmaFutures > 0.0
    ensures HedgeRatio(correlation, sigmaSpot, sigmaFutures).Ok?
    ensures var h := HedgeRatio(correlation, sigmaSpot, sigmaFutures).value;
      (h > 0.0 <==> correlation > 0.0) && (h < 0.0 <==> correlation < 0.0) && (h == 0.0 <==> correlation == 0.0)
  {
    var h := HedgeRatio(correlation, sigmaSpot, sigmaFutures).value;
    var c := correlation * sigmaSpot;
    assert h * sigmaFutures == c;
    SignOfProduct(correlation, sigmaSpot);
    SignOfProduct(-correlation, sigmaSpot);
    SignOfProduct(h, sigmaFutures);
    SignOfProduct(-h, sigmaFutures);
    assert (-correlation) * sigmaSpot == -c;
    assert (-h) * sigmaFutures == -c;
  }

  /** The three figures hedge_pnl returns. */
  datatype Pnl = Pnl(unhedged: real, futuresPnl: real, total: real)

  /** hedge_pnl: the spot position gains units times the spot move, the
      short futures position of hedge_ratio * units contracts gains minus
      that many times the futures move, and the total adds the two. */
  function HedgePnl(spotStart: real, spotEnd: real, futStart: real, futEnd: real,
                    units: real, hedgeRatio: real): (r: Pnl)
    ensures r.total == r.unhedged + r.futuresPnl
    ensures r.total == units * ((spotEnd - spotStart) - hedgeRatio * (futEnd - futStart))
  {
    var unhedged := units * (spotEnd - spotStart);
    var contracts := hedgeRatio * units;
    var futuresPnl := -contracts * (futEnd - futStart);
    Pnl(unhedged, futuresPnl, unhedged + futuresPnl)
  }

  /** Without a spot move the unhedged position neither gains nor loses. */
  lemma UnchangedSpotNoUnhedged(spot: real, futStart: real, futEnd: real, units: real, hedgeRatio: real)
    ensures HedgePnl(spot, spot, futStart, futEnd, units, hedgeRatio).unhedged == 0.0
  {
  }

  /** A zero hedge ratio, or a futures price that does not move, leaves the
      total equal to the unhedged result. */
  lemma NoHedgeEffect(spotStart: real, spotEnd: real, futStart: real, futEnd: real,
                      units: real, hedgeRatio: real)
    requires hedgeRatio == 0.0 || futEnd == futStart
    ensures var r := HedgePnl(spotStart, spotEnd, futStart, futEnd, units, hedgeRatio);
      r.futuresPnl == 0.0 && r.total == r.unhedged
  {
  }

  /** A hedge ratio of one against futures that move exactly as the spot
      does cancels the result: the futures leg is the opposite of the spot
      leg and the total is zero. */
  lemma PerfectHedge(spotStart: real, spotEnd: real, futStart: real, futEnd: real, units: real)
    requires futEnd - futStart == spotEnd - spotStart
    ensures var r := HedgePnl(spotStart, spotEnd, futStart, futEnd, units, 1.0);
      r.futuresPnl == -r.unhedged && r.total == 0.0
  {
  }
}
