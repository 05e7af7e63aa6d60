/** The portfolio earnings predictor: an all-or-nothing registry check, then
    one terminal predicted price per holding (one algorithm or the mean of
    three), then per-position and portfolio profit/loss. */
module PortfolioPrediction {
  import opened Wrappers
  import opened Seqs
  import opened Registry
  import opened Tickers

  const Average := "average"

  /** What a per-algorithm `predict_next_days` call did: it raised, or it
      returned its dictionary of named numeric lists. */
  datatype Call = Raised | Returned(lists: map<string, seq<real>>)

  /** The per-algorithm predictors as a deterministic oracle:
      `forecaster(algorithm, ticker, days)`. */
  type Forecaster = (string, string, int) -> Call

  /** The key under which each algorithm's point forecast is returned. */
  function PointKey(algorithm: string): (key: string)
    ensures key == "forecast_mean" <==> algorithm == Arima
    ensures algorithm != Arima ==> key == "forecast"
  {
    if algorithm == Arima then "forecast_mean" else "forecast"
  }

  /** `predict_stock_price`: the last element of the point-forecast list, or
      None when the model is absent, the call raised (a missing key is a
      `KeyError`, caught like any other exception) or the list is empty. */
  function PredictStockPrice(reg: Listings, forecaster: Forecaster, ticker: string, algorithm: string, days: int): (r: Option<real>)
    ensures !ModelExists(reg, ticker, algorithm) ==> r == None
    ensures r.Some? <==>
      && ModelExists(reg, ticker, algorithm)
      && forecaster(algorithm, ticker, days).Returned?
      && PointKey(algorithm) in forecaster(algorithm, ticker, days).lists
      && |forecaster(algorithm, ticker, days).lists[PointKey(algorithm)]| > 0
    ensures r.Some? ==> r.value == Last(forecaster(algorithm, ticker, days).lists[PointKey(algorithm)])
  {
    if !ModelExists(reg, ticker, algorithm) then None
    else
      match forecaster(algorithm, ticker, days)
      case Raised => None
      case Returned(lists) =>
        var key := PointKey(algorithm);
        if key !in lists || |lists[key]| == 0 then None else Some(Last(lists[key]))
  }

  /** A predictor that answers under the wrong key is never used: an ARIMA
      predictor returning its point forecast as `forecast` yields no price. */
  lemma WrongKeyYieldsNothing(reg: Listings, forecaster: Forecaster, ticker: string, days: int)
    requires forecaster(Arima, ticker, days).Returned?
    requires "forecast_mean" !in forecaster(Arima, ticker, days).lists
    ensures PredictStockPrice(reg, forecaster, ticker, Arima, days) == None
  {
  }

  /** `statistics.mean` of a non-empty list, computed exactly. */
  function Mean(xs: seq<real>): (m: real)
    requires |xs| > 0
    ensures m * |xs| as real == Sum(xs)
  {
    Sum(xs) / |xs| as real
  }

  /** The mean lies between any lower and upper bound of its inputs. */
  lemma MeanBetween(xs: seq<real>, lo: real, hi: real)
    requires |xs| > 0
    requires forall i :: 0 <= i < |xs| ==> lo <= xs[i] <= hi
    ensures lo <= Mean(xs) <= hi
  {
    SumBounds(xs, lo, hi);
  }

  /** The algorithms a prediction mode needs: all three for `average`,
      else the named algorithm alone. */
  function RequiredAlgorithms(mode: string): (r: seq<string>)
    ensures |r| > 0 && NoDuplicates(r)
    ensures forall a :: a in r <==> (if mode == Average then a in Known else a == mode)
  {
    if mode == Average then Known else [mode]
  }

  /** The prices the given algorithms produced, in algorithm order, skipping
      those with no prediction. */
  function AvailablePrices(reg: Listings, forecaster: Forecaster, ticker: string, algorithms: seq<string>, days: int): (r: seq<real>)
    ensures |r| <= |algorithms|
    ensures |r| == 0 <==> forall k :: 0 <= k < |algorithms| ==> PredictStockPrice(reg, forecaster, ticker, algorithms[k], days).None?
    ensures forall k :: 0 <= k < |r| ==> exists j :: 0 <= j < |algorithms| && PredictStockPrice(reg, forecaster, ticker, algorithms[j], days) == Some(r[k])
  {
    if |algorithms| == 0 then []
    else
      var rest := AvailablePrices(reg, forecaster, ticker, algorithms[1..], days);
      assert forall k :: 1 <= k < |algorithms| ==> algorithms[k] == algorithms[1..][k - 1];
      match PredictStockPrice(reg, forecaster, ticker, algorithms[0], days)
      case None => rest
      case Some(p) => [p] + rest
  }

  /** The terminal price used for one holding, or None when it is skipped. */
  function PredictedPrice(reg: Listings, forecaster: Forecaster, ticker: string, mode: string, days: int): (r: Option<real>)
    ensures mode != Average ==> r == PredictStockPrice(reg, forecaster, ticker, mode, days)
    ensures mode == Average && r.Some? ==>
      var prices := AvailablePrices(reg, forecaster, ticker, Known, days);
      |prices| > 0 && r.value == Mean(prices)
  {
    if mode == Average then
      var prices := AvailablePrices(reg, forecaster, ticker, Known, days);
      if |prices| > 0 then Some(Mean(prices)) else None
    else
      PredictStockPrice(reg, forecaster, ticker, mode, days)
  }

  /** In average mode a holding is skipped only when no algorithm at all
      produced a price. */
  lemma AverageSkipsOnlyWhenNothingAvailable(reg: Listings, forecaster: Forecaster, ticker: string, days: int)
    ensures PredictedPrice(reg, forecaster, ticker, Average, days).None?
        <==> forall k :: 0 <= k < |Known| ==> PredictStockPrice(reg, forecaster, ticker, Known[k], days).None?
  {
  }

  /** In average mode the price lies between the least and the largest
      algorithm price that was available. */
  lemma AverageWithinAlgorithmPrices(reg: Listings, forecaster: Forecaster, ticker: string, days: int, lo: real, hi: real)
    requires PredictedPrice(reg, forecaster, ticker, Average, days).Some?
    requires forall k :: 0 <= k < |Known| && PredictStockPrice(reg, forecaster, ticker, Known[k], days).Some? ==>
      lo <= PredictStockPrice(reg, forecaster, ticker, Known[k], days).value <= hi
    ensures lo <= PredictedPrice(reg, forecaster, ticker, Average, days).value <= hi
  {
    var prices := AvailablePrices(reg, forecaster, ticker, Known, days);
    assert forall i :: 0 <= i < |prices| ==> lo <= prices[i] <= hi;
    MeanBetween(prices, lo, hi);
  }

  /** A portfolio item as sent to the predictor. */
  datatype Holding = Holding(ticker: string, quantity: real, purchasePrice: real)

  datatype StockPrediction = StockPrediction(
    ticker: string, quantity: real, purchasePrice: real, predictedPrice: real,
    currentValue: real, predictedValue: real, profitLoss: real, profitLossPercent: real)

  /** The arithmetic every reported position satisfies. */
  predicate WellFormed(p: StockPrediction)
  {
    && p.currentValue == p.quantity * p.purchasePrice
    && p.predictedValue == p.quantity * p.predictedPrice
    && p.profitLoss == p.predictedValue - p.currentValue
    && p.currentValue != 0.0
    && p.profitLossPercent == p.profitLoss / p.currentValue * 100.0
  }

  /** One position. The percentage has no zero guard: a zero current value
      raises `ZeroDivisionError`. */
  function Position(h: Holding, price: real): (r: Result<StockPrediction>)
    ensures r.Err? <==> h.quantity * h.purchasePrice == 0.0
    ensures r.Err? ==> r.error == ZeroDivisionError
    ensures r.Ok? ==> WellFormed(r.value)
    ensures r.Ok? ==>
      && r.value.ticker == h.ticker && r.value.quantity == h.quantity
      && r.value.purchasePrice == h.purchasePrice && r.value.predictedPrice == price
  {
    var current := h.quantity * h.purchasePrice;
    var predicted := h.quantity * price;
    var profit := predicted - current;
    if current == 0.0 then Err(ZeroDivisionError)
    else Ok(StockPrediction(h.ticker, h.quantity, h.purchasePrice, price,
                            current, predicted, profit, profit / current * 100.0))
  }

  /** The price lookup the loop uses for each holding's ticker. */
  type Pricing = string -> Option<real>

  /** A holding that is priced but costs nothing aborts the whole prediction. */
  predicate Aborts(h: Holding, priceOf: Pricing)
  {
    priceOf(h.ticker).Some? && h.quantity * h.purchasePrice == 0.0
  }

  /** One iteration of the prediction loop: skip an unpriced holding,
      append a priced one, or raise. */
  function Step(acc: Result<seq<StockPrediction>>, h: Holding, price: Option<real>): Result<seq<StockPrediction>>
  {
    if acc.Err? then acc
    else
      match price
      case None => acc
      case Some(p) =>
        match Position(h, p)
        case Err(e) => Err(e)
        case Ok(sp) => Ok(acc.value + [sp])
  }

  /** The prediction loop over the holdings, in order. */
  function PredictItems(items: seq<Holding>, priceOf: Pricing): (r: Result<seq<StockPrediction>>)
    ensures r.Err? ==> r.error == ZeroDivisionError
    ensures r.Ok? ==> |r.value| <= |items| && forall k :: 0 <= k < |r.value| ==> WellFormed(r.value[k])
    decreases |items|
  {
    if |items| == 0 then Ok([])
    else
      var h := items[|items| - 1];
      Step(PredictItems(items[..|items| - 1], priceOf), h, priceOf(h.ticker))
  }

  /** The loop raises exactly when some holding is priced at zero cost. */
  lemma {:induction false} PredictItemsFails(items: seq<Holding>, priceOf: Pricing)
    ensures PredictItems(items, priceOf).Err? <==> exists i :: 0 <= i < |items| && Aborts(items[i], priceOf)
    decreases |items|
  {
    if |items| > 0 {
      var init := items[..|items| - 1];
      PredictItemsFails(init, priceOf);
      assert forall i :: 0 <= i < |init| ==> init[i] == items[i];
      if exists i :: 0 <= i < |items| && Aborts(items[i], priceOf) {
        var i :| 0 <= i < |items| && Aborts(items[i], priceOf);
        if i < |init| {
          assert Aborts(init[i], priceOf);
        }
      }
    }
  }

  /** Sequencing two runs of the loop: the first failure wins, else the
      predictions are concatenated. */
  function Then(x: Result<seq<StockPrediction>>, y: Result<seq<StockPrediction>>): Result<seq<StockPrediction>>
  {
    if x.Err? then x else if y.Err? then y else Ok(x.value + y.value)
  }

  lemma StepThen(x: Result<seq<StockPrediction>>, y: Result<seq<StockPrediction>>, h: Holding, price: Option<real>)
    requires x.Err? ==> x.error == ZeroDivisionError
    requires y.Err? ==> y.error == ZeroDivisionError
    ensures Step(Then(x, y), h, price) == Then(x, Step(y, h, price))
  {
    if x.Ok? && y.Ok? {
      match price
      case None =>
      case Some(p) =>
        match Position(h, p)
        case Err(e) =>
        case Ok(sp) => assert x.value + (y.value + [sp]) == (x.value + y.value) + [sp];
    }
  }

  /** The loop never reorders: predicting `a + b` is predicting `a`, then `b`. */
  lemma {:induction false} PredictItemsAppend(a: seq<Holding>, b: seq<Holding>, priceOf: Pricing)
    ensures PredictItems(a + b, priceOf) == Then(PredictItems(a, priceOf), PredictItems(b, priceOf))
    decreases |b|
  {
    if |b| == 0 {
      assert a + b == a;
      assert PredictItems(a, priceOf).Ok? ==> PredictItems(a, priceOf).value + [] == PredictItems(a, priceOf).value;
    } else {
      var b' := b[..|b| - 1];
      var h := b[|b| - 1];
      assert (a + b)[..|a + b| - 1] == a + b';
      assert (a + b)[|a + b| - 1] == h;
      PredictItemsAppend(a, b', priceOf);
      StepThen(PredictItems(a, priceOf), PredictItems(b', priceOf), h, priceOf(h.ticker));
    }
  }

  /** One more holding of the prefix is one more step of the loop. */
  lemma PrefixStep(items: seq<Holding>, i: nat, priceOf: Pricing)
    requires i < |items|
    ensures PredictItems(items[..i + 1], priceOf) == Step(PredictItems(items[..i], priceOf), items[i], priceOf(items[i].ticker))
  {
    assert items[..i + 1][..i] == items[..i];
  }

  /** Once a prefix of the holdings raises, the whole loop raises the same. */
  lemma FailureStops(items: seq<Holding>, n: nat, priceOf: Pricing)
    requires n <= |items| && PredictItems(items[..n], priceOf).Err?
    ensures PredictItems(items, priceOf) == PredictItems(items[..n], priceOf)
  {
    PredictItemsAppend(items[..n], items[n..], priceOf);
    assert items[..n] + items[n..] == items;
  }

  /** A single holding is reported exactly when it gets a price. */
  lemma PredictOne(h: Holding, priceOf: Pricing)
    ensures PredictItems([h], priceOf) ==
      match priceOf(h.ticker)
      case None => Ok([])
      case Some(price) =>
        match Position(h, price)
        case Err(e) => Err(e)
        case Ok(p) => Ok([p])
  {
    assert [h][..0] == [];
    match priceOf(h.ticker)
    case None =>
    case Some(price) =>
      match Position(h, price)
      case Err(e) =>
      case Ok(p) => assert [] + [p] == [p];
  }

  /** A priced holding with a non-zero cost basis is reported as its position. */
  lemma PricedHoldingReported(h: Holding, priceOf: Pricing, price: real, p: StockPrediction)
    requires priceOf(h.ticker) == Some(price) && Position(h, price) == Ok(p)
    ensures PredictItems([h], priceOf) == Ok([p])
  {
    PredictOne(h, priceOf);
  }

  /** When every holding is priced, every holding is reported, in input
      order, duplicates included. */
  lemma {:induction false} EveryPricedHoldingReported(items: seq<Holding>, priceOf: Pricing)
    requires forall i :: 0 <= i < |items| ==> priceOf(items[i].ticker).Some?
    requires forall i :: 0 <= i < |items| ==> items[i].quantity * items[i].purchasePrice != 0.0
    ensures PredictItems(items, priceOf).Ok?
    ensures var ps := PredictItems(items, priceOf).value;
      && |ps| == |items|
      && forall i :: 0 <= i < |items| ==>
           && ps[i].ticker == items[i].ticker
           && ps[i].quantity == items[i].quantity
           && ps[i].purchasePrice == items[i].purchasePrice
           && ps[i].predictedPrice == priceOf(items[i].ticker).value
    decreases |items|
  {
    if |items| > 0 {
      var init := items[..|items| - 1];
      var h := items[|items| - 1];
      EveryPricedHoldingReported(init, priceOf);
      var ps0 := PredictItems(init, priceOf).value;
      var p := Position(h, priceOf(h.ticker).value).value;
      assert PredictItems(items, priceOf) == Ok(ps0 + [p]);
      assert forall i :: 0 <= i < |init| ==> (ps0 + [p])[i] == ps0[i] && items[i] == init[i];
    }
  }

  /** Python's `sum(...)` over one field of the reported positions. */
  function CurrentTotal(ps: seq<StockPrediction>): real
  {
    if |ps| == 0 then 0.0 else CurrentTotal(ps[..|ps| - 1]) + ps[|ps| - 1].currentValue
  }

  function PredictedTotal(ps: seq<StockPrediction>): real
  {
    if |ps| == 0 then 0.0 else PredictedTotal(ps[..|ps| - 1]) + ps[|ps| - 1].predictedValue
  }

  function ProfitTotal(ps: seq<StockPrediction>): real
  {
    if |ps| == 0 then 0.0 else ProfitTotal(ps[..|ps| - 1]) + ps[|ps| - 1].profitLoss
  }

  datatype Totals = Totals(currentValue: real, predictedValue: real, profitLoss: real, profitLossPercent: real)

  /** The portfolio totals; the percentage is guarded: 0 unless the total
      current value is positive. */
  function TotalsOf(ps: seq<StockPrediction>): (t: Totals)
    ensures t.currentValue == CurrentTotal(ps) && t.predictedValue == PredictedTotal(ps)
    ensures t.profitLoss == t.predictedValue - t.currentValue
    ensures t.currentValue > 0.0 ==> t.profitLossPercent == t.profitLoss / t.currentValue * 100.0
    ensures t.currentValue <= 0.0 ==> t.profitLossPercent == 0.0
  {
    var current := CurrentTotal(ps);
    var predicted := PredictedTotal(ps);
    var profit := predicted - current;
    Totals(current, predicted, profit, if current > 0.0 then profit / current * 100.0 else 0.0)
  }

  /** The total profit/loss is the sum of the positions' profit/loss. */
  lemma {:induction false} TotalProfitIsSumOfPositions(ps: seq<StockPrediction>)
    requires forall k :: 0 <= k < |ps| ==> WellFormed(ps[k])
    ensures TotalsOf(ps).profitLoss == ProfitTotal(ps)
  {
    if |ps| > 0 {
      TotalProfitIsSumOfPositions(ps[..|ps| - 1]);
    }
  }

  /** Holdings bought at positive quantity and price give a positive total,
      so the guarded percentage is the true ratio. */
  lemma {:induction false} PositiveHoldingsPositiveTotal(ps: seq<StockPrediction>)
    requires |ps| > 0
    requires forall k :: 0 <= k < |ps| ==> WellFormed(ps[k]) && ps[k].quantity > 0.0 && ps[k].purchasePrice > 0.0
    ensures TotalsOf(ps).currentValue > 0.0
  {
    if |ps| > 1 {
      PositiveHoldingsPositiveTotal(ps[..|ps| - 1]);
    }
    var last := ps[|ps| - 1];
    assert last.quantity * last.purchasePrice > 0.0;
  }

  /** The response of `predict_portfolio_earnings`, or the exception that
      escapes it. */
  datatype Response =
    | Predicted(mode: string, days: int, predictions: seq<StockPrediction>, totals: Totals)
    | MissingModels(missing: map<string, seq<string>>, required: seq<string>)
    | Failed(error: Exception)

  function TickersOf(items: seq<Holding>): (r: seq<string>)
    ensures |r| == |items| && forall i :: 0 <= i < |items| ==> r[i] == items[i].ticker
  {
    seq(|items|, i requires 0 <= i < |items| => items[i].ticker)
  }

  /** The terminal-price lookup for one prediction mode. */
  function PriceLookup(reg: Listings, forecaster: Forecaster, mode: string, days: int): Pricing
  {
    ticker => PredictedPrice(reg, forecaster, ticker, mode, days)
  }

  /** Reference definition of the whole predictor. */
  function Report(reg: Listings, forecaster: Forecaster, items: seq<Holding>, mode: string, days: int): (r: Response)
    ensures var missing := MissingModelsOf(reg, Distinct(TickersOf(items)), RequiredAlgorithms(mode));
      && (r.MissingModels? <==> missing != map[])
      && (r.MissingModels? ==> r.missing == missing && r.required == RequiredAlgorithms(mode))
    ensures r.Predicted? ==>
      && r.mode == mode && r.days == days
      && |r.predictions| <= |items|
      && (forall k :: 0 <= k < |r.predictions| ==> WellFormed(r.predictions[k]))
      && r.totals == TotalsOf(r.predictions)
    ensures r.Predicted? ==> PredictItems(items, PriceLookup(reg, forecaster, mode, days)) == Ok(r.predictions)
    ensures r.Failed? <==>
      && MissingModelsOf(reg, Distinct(TickersOf(items)), RequiredAlgorithms(mode)) == map[]
      && exists i :: 0 <= i < |items| && Aborts(items[i], PriceLookup(reg, forecaster, mode, days))
    ensures r.Failed? ==> r.error == ZeroDivisionError
  {
    PredictItemsFails(items, PriceLookup(reg, forecaster, mode, days));
    var required := RequiredAlgorithms(mode);
    var missing := MissingModelsOf(reg, Distinct(TickersOf(items)), required);
    if missing != map[] then MissingModels(missing, required)
    else
      match PredictItems(items, PriceLookup(reg, forecaster, mode, days))
      case Err(e) => Failed(e)
      case Ok(ps) => Predicted(mode, days, ps, TotalsOf(ps))
  }

  /** `predict_portfolio_earnings` as the source runs it: deduplicate the
      tickers, check every required model first, then loop over the items. */
  method PredictPortfolioEarnings(reg: Listings, forecaster: Forecaster, items: seq<Holding>, mode: string, days: int)
    returns (r: Response)
    ensures r == Report(reg, forecaster, items, mode, days)
  {
    var tickers := CollectTickers(items);
    var required := RequiredAlgorithms(mode);
    var missing := GetMissingModels(reg, tickers, required);
    if missing != map[] {
      return MissingModels(missing, required);
    }
    var predicted := PredictEach(reg, forecaster, items, mode, days);
    match predicted {
      case Err(e) => r := Failed(e);
      case Ok(predictions) => r := Predicted(mode, days, predictions, TotalsOf(predictions));
    }
  }

  /** The first loop: every ticker once, in order of first appearance. */
  method CollectTickers(items: seq<Holding>) returns (tickers: seq<string>)
    ensures Distinct(tickers) == Distinct(TickersOf(items))
    ensures NoDuplicates(tickers)
  {
    tickers := [];
    var i := 0;
    while i < |items|
      invariant i <= |items|
      invariant Distinct(tickers) == Distinct(TickersOf(items)[..i])
      invariant NoDuplicates(tickers)
    {
      assert TickersOf(items)[..i + 1] == TickersOf(items)[..i] + [items[i].ticker];
      DistinctSnoc(TickersOf(items)[..i], items[i].ticker);
      DistinctSnoc(tickers, items[i].ticker);
      if items[i].ticker !in tickers {
        tickers := tickers + [items[i].ticker];
      }
      i := i + 1;
    }
    assert TickersOf(items)[..i] == TickersOf(items);
  }

  /** The second loop: predict item by item, stopping at the first failure. */
  method PredictEach(reg: Listings, forecaster: Forecaster, items: seq<Holding>, mode: string, days: int)
    returns (r: Result<seq<StockPrediction>>)
    ensures r == PredictItems(items, PriceLookup(reg, forecaster, mode, days))
  {
    var priceOf := PriceLookup(reg, forecaster, mode, days);
    var predictions: seq<StockPrediction> := [];
    var i := 0;
    while i < |items|
      invariant i <= |items|
      invariant PredictItems(items[..i], priceOf) == Ok(predictions)
    {
      PrefixStep(items, i, priceOf);
      var item := items[i];
      var price := PredictedPrice(reg, forecaster, item.ticker, mode, days);
      if price.Some? {
        var position := Position(item, price.value);
        if position.Err? {
          FailureStops(items, i + 1, priceOf);
          return Err(position.error);
        }
        predictions := predictions + [position.value];
      }
      i := i + 1;
    }
    assert items[..i] == items;
    r := Ok(predictions);
  }

  /** One holding of 10 AAPL bought at 150 with a final LSTM forecast of 165. */
  lemma SingleLstmScenario(forecaster: Forecaster)
    requires forecaster(Lstm, "AAPL", 30) == Returned(map["forecast" := [160.0, 165.0]])
    ensures var r := Report(Listings(["AAPL"], [], []), forecaster, [Holding("AAPL", 10.0, 150.0)], Lstm, 30);
      && r.Predicted?
      && r.predictions == [StockPrediction("AAPL", 10.0, 150.0, 165.0, 1500.0, 1650.0, 150.0, 10.0)]
      && r.totals == Totals(1500.0, 1650.0, 150.0, 10.0)
  {
    AaplPredicted(forecaster);
    AaplReport(forecaster);
  }

  /** The same holding bought at price 0: its percentage divides by zero,
      so the whole request raises instead of reporting a 0 % position. */
  lemma ZeroCostScenario(forecaster: Forecaster)
    requires forecaster(Lstm, "AAPL", 30) == Returned(map["forecast" := [160.0, 165.0]])
    ensures Report(Listings(["AAPL"], [], []), forecaster, [Holding("AAPL", 10.0, 0.0)], Lstm, 30) == Failed(ZeroDivisionError)
  {
    var items := [Holding("AAPL", 10.0, 0.0)];
    AaplPriced(forecaster);
    assert Aborts(items[0], PriceLookup(Listings(["AAPL"], [], []), forecaster, Lstm, 30));
    assert TickersOf(items) == TickersOf([Holding("AAPL", 10.0, 150.0)]);
    AaplNothingMissing();
  }

  lemma AaplPredicted(forecaster: Forecaster)
    requires forecaster(Lstm, "AAPL", 30) == Returned(map["forecast" := [160.0, 165.0]])
    ensures PredictItems([Holding("AAPL", 10.0, 150.0)], PriceLookup(Listings(["AAPL"], [], []), forecaster, Lstm, 30))
         == Ok([StockPrediction("AAPL", 10.0, 150.0, 165.0, 1500.0, 1650.0, 150.0, 10.0)])
  {
    var p := StockPrediction("AAPL", 10.0, 150.0, 165.0, 1500.0, 1650.0, 150.0, 10.0);
    AaplPriced(forecaster);
    AaplPosition();
    PricedHoldingReported(Holding("AAPL", 10.0, 150.0), PriceLookup(Listings(["AAPL"], [], []), forecaster, Lstm, 30), 165.0, p);
  }

  lemma AaplReport(forecaster: Forecaster)
    requires PredictItems([Holding("AAPL", 10.0, 150.0)], PriceLookup(Listings(["AAPL"], [], []), forecaster, Lstm, 30))
          == Ok([StockPrediction("AAPL", 10.0, 150.0, 165.0, 1500.0, 1650.0, 150.0, 10.0)])
    ensures Report(Listings(["AAPL"], [], []), forecaster, [Holding("AAPL", 10.0, 150.0)], Lstm, 30)
         == Predicted(Lstm, 30, [StockPrediction("AAPL", 10.0, 150.0, 165.0, 1500.0, 1650.0, 150.0, 10.0)],
                      Totals(1500.0, 1650.0, 150.0, 10.0))
  {
    AaplNothingMissing();
    AaplTotals();
  }

  lemma AaplPriced(forecaster: Forecaster)
    requires forecaster(Lstm, "AAPL", 30) == Returned(map["forecast" := [160.0, 165.0]])
    ensures PriceLookup(Listings(["AAPL"], [], []), forecaster, Lstm, 30)("AAPL") == Some(165.0)
  {
    assert Normalize("AAPL") == "AAPL" by { NormalizeFixedPoints("AAPL"); }
  }

  lemma AaplPosition()
    ensures Position(Holding("AAPL", 10.0, 150.0), 165.0)
         == Ok(StockPrediction("AAPL", 10.0, 150.0, 165.0, 1500.0, 1650.0, 150.0, 10.0))
  {
  }

  lemma AaplNothingMissing()
    ensures MissingModelsOf(Listings(["AAPL"], [], []), Distinct(TickersOf([Holding("AAPL", 10.0, 150.0)])), [Lstm]) == map[]
  {
    assert Normalize("AAPL") == "AAPL" by { NormalizeFixedPoints("AAPL"); }
    assert TickersOf([Holding("AAPL", 10.0, 150.0)]) == ["AAPL"];
    assert Distinct(["AAPL"]) == {"AAPL"};
    assert MissingAlgorithms(Listings(["AAPL"], [], []), "AAPL", [Lstm]) == [];
  }

  lemma AaplTotals()
    ensures TotalsOf([StockPrediction("AAPL", 10.0, 150.0, 165.0, 1500.0, 1650.0, 150.0, 10.0)])
         == Totals(1500.0, 1650.0, 150.0, 10.0)
  {
    var p := StockPrediction("AAPL", 10.0, 150.0, 165.0, 1500.0, 1650.0, 150.0, 10.0);
    assert [p][..0] == [];
  }

  /** MSFT with no ARIMA model: the request fails before any forecast. */
  lemma MissingArimaScenario(forecaster: Forecaster, quantity: real, price: real)
    ensures Report(Listings(["MSFT"], [], ["MSFT"]), forecaster, [Holding("MSFT", quantity, price)], Arima, 10)
         == MissingModels(map["MSFT" := [Arima]], [Arima])
  {
    var reg := Listings(["MSFT"], [], ["MSFT"]);
    var items := [Holding("MSFT", quantity, price)];
    assert TickersOf(items) == ["MSFT"];
    assert Distinct(TickersOf(items)) == {"MSFT"};
    assert MissingAlgorithms(reg, "MSFT", [Arima]) == [Arima];
  }
}
