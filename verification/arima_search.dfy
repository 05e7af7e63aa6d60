/** ARIMA training: the default exogenous series, the fixed grid of eight
    SARIMAX orders, the argmin selection over the candidates that can be
    scored, and the params record written after training. Fitting a candidate
    and scoring it on the test part is an oracle. */
module ArimaSearch {
  import opened Wrappers
  import opened Artifacts

  const DefaultExogTickers: seq<string> := ["GLD", "QQQ", "^TNX"]
  const SeasonalPeriod := 7
  const AllCandidatesFailed := "all SARIMAX candidates failed"

  /** `exog_tickers = ['GLD', 'QQQ', '^TNX'] if exog_tickers is None`; an
      explicit list, even an empty one, is kept. */
  function ExogTickersOrDefault(exogTickers: Option<seq<string>>): (r: seq<string>)
    ensures exogTickers.Some? ==> r == exogTickers.value
    ensures exogTickers.None? ==> r == ["GLD", "QQQ", "^TNX"]
  {
    match exogTickers
    case None => DefaultExogTickers
    case Some(names) => names
  }

  /** A SARIMAX order `(p, d, q)` with seasonal part `(P, D, Q)`; the
      seasonal period is always 7. */
  datatype Order = Order(p: int, d: int, q: int, P: int, D: int, Q: int)

  /** `itertools.product(range(2), range(2), range(2), range(1), range(1),
      range(1))`, enumerated with the last factor varying fastest. */
  const Candidates: seq<Order> := [
    Order(0, 0, 0, 0, 0, 0), Order(0, 0, 1, 0, 0, 0), Order(0, 1, 0, 0, 0, 0), Order(0, 1, 1, 0, 0, 0),
    Order(1, 0, 0, 0, 0, 0), Order(1, 0, 1, 0, 0, 0), Order(1, 1, 0, 0, 0, 0), Order(1, 1, 1, 0, 0, 0)
  ]

  predicate InGrid(o: Order)
  {
    0 <= o.p < 2 && 0 <= o.d < 2 && 0 <= o.q < 2 && o.P == 0 && o.D == 0 && o.Q == 0
  }

  /** Lexicographic order on the six components. */
  predicate LexLess(a: Order, b: Order)
  {
    || a.p < b.p
    || (a.p == b.p && a.d < b.d)
    || (a.p == b.p && a.d == b.d && a.q < b.q)
    || (a.p == b.p && a.d == b.d && a.q == b.q && a.P < b.P)
    || (a.p == b.p && a.d == b.d && a.q == b.q && a.P == b.P && a.D < b.D)
    || (a.p == b.p && a.d == b.d && a.q == b.q && a.P == b.P && a.D == b.D && a.Q < b.Q)
  }

  /** The grid is listed in strictly increasing lexicographic order, so
      each order appears once and "earlier" means "lexicographically
      smaller". */
  lemma CandidatesAscending()
    ensures |Candidates| == 8
    ensures forall i, j :: 0 <= i < j < |Candidates| ==> LexLess(Candidates[i], Candidates[j])
  {
    forall i, j | 0 <= i < j < |Candidates|
      ensures LexLess(Candidates[i], Candidates[j])
    {
      var a, b := Candidates[i], Candidates[j];
      assert a == Order(i / 4, (i / 2) % 2, i % 2, 0, 0, 0);
      assert b == Order(j / 4, (j / 2) % 2, j % 2, 0, 0, 0);
    }
  }

  /** The grid holds exactly the orders with `p, d, q` in `{0, 1}` and a
      zero seasonal part; order `(p, d, q)` sits at position `4p + 2d + q`. */
  lemma CandidatesAreTheGrid()
    ensures forall i :: 0 <= i < |Candidates| ==> InGrid(Candidates[i])
    ensures forall o :: InGrid(o) ==> o == Candidates[4 * o.p + 2 * o.d + o.q]
  {
    forall o | InGrid(o)
      ensures o == Candidates[4 * o.p + 2 * o.d + o.q]
    {
      if o.p == 0 {
        if o.d == 0 {
          if o.q == 0 { assert o == Candidates[0]; } else { assert o == Candidates[1]; }
        } else {
          if o.q == 0 { assert o == Candidates[2]; } else { assert o == Candidates[3]; }
        }
      } else {
        if o.d == 0 {
          if o.q == 0 { assert o == Candidates[4]; } else { assert o == Candidates[5]; }
        } else {
          if o.q == 0 { assert o == Candidates[6]; } else { assert o == Candidates[7]; }
        }
      }
    }
  }

  /** The outcome of fitting one candidate and scoring it on the test part:
      the fit raised (and is skipped), it produced a finite mean squared
      error, or a score that is NaN or infinite, which the strict comparison
      against an initial infinity never accepts. */
  datatype Fit = Raised | Scored(mse: real) | NotFinite

  type Scorer = Order -> Fit

  datatype Selection = Selection(order: Order, mse: real)

  /** Candidate `k` is the one a strict-`<` argmin picks: it scored, no
      scored candidate beats it, and every scored candidate before it is
      strictly worse. */
  predicate Chosen(cands: seq<Order>, score: Scorer, k: int, sel: Selection)
  {
    && 0 <= k < |cands|
    && cands[k] == sel.order
    && score(cands[k]) == Scored(sel.mse)
    && (forall j :: 0 <= j < |cands| && score(cands[j]).Scored? ==> sel.mse <= score(cands[j]).mse)
    && (forall j :: 0 <= j < k && score(cands[j]).Scored? ==> sel.mse < score(cands[j]).mse)
  }

  /** The grid-search loop of the three trainers: `best_mse` starts at
      infinity, a candidate replaces the best only when its score is
      strictly smaller, failures are skipped, and no success at all raises. */
  method GridSearch(cands: seq<Order>, score: Scorer) returns (r: Result<Selection>)
    ensures r.Err? <==> forall i :: 0 <= i < |cands| ==> !score(cands[i]).Scored?
    ensures r.Err? ==> r.error == RuntimeError(AllCandidatesFailed)
    ensures r.Ok? ==> exists k :: Chosen(cands, score, k, r.value)
  {
    var best: Option<Selection> := None;
    ghost var bestIndex := -1;
    var i := 0;
    while i < |cands|
      invariant 0 <= i <= |cands|
      invariant best.None? <==> forall j :: 0 <= j < i ==> !score(cands[j]).Scored?
      invariant best.Some? ==> Chosen(cands[..i], score, bestIndex, best.value)
    {
      match score(cands[i]) {
        case Scored(mse) =>
          if best.None? || mse < best.value.mse {
            best := Some(Selection(cands[i], mse));
            bestIndex := i;
          }
        case _ =>
      }
      i := i + 1;
    }
    assert cands[..i] == cands;
    if best.None? {
      return Err(RuntimeError(AllCandidatesFailed));
    }
    return Ok(best.value);
  }

  /** The selection is determined: only one candidate can be the chosen one. */
  lemma ChosenUnique(cands: seq<Order>, score: Scorer, k1: int, k2: int, s1: Selection, s2: Selection)
    requires Chosen(cands, score, k1, s1) && Chosen(cands, score, k2, s2)
    ensures k1 == k2 && s1 == s2
  {
  }

  /** Ties go to the earliest candidate in grid order. */
  lemma TiesGoToEarliest(cands: seq<Order>, score: Scorer, k: int, sel: Selection, j: int)
    requires Chosen(cands, score, k, sel)
    requires 0 <= j < |cands| && score(cands[j]) == Scored(sel.mse)
    ensures k <= j
  {
  }

  /** The six integers of an order, `best_params` in the trainers. */
  function Components(o: Order): seq<int>
  {
    [o.p, o.d, o.q, o.P, o.D, o.Q]
  }

  /** `'best_params'` of the params record: `order` is `best_params[:3]`,
      `seasonal_order` is `best_params[3:] + (7,)`; the class trainers also
      keep the score. */
  datatype BestParams = BestParams(order: seq<int>, seasonalOrder: seq<int>, mse: Option<real>)

  datatype Params = Params(ticker: string, start: string, end: string, exogTickers: seq<string>, best: BestParams)

  function ParamsRecord(ticker: string, start: string, end: string, exogTickers: seq<string>, sel: Selection, keepMse: bool)
    : (r: Params)
    ensures |r.best.order| == 3 && |r.best.seasonalOrder| == 4
    ensures r.best.seasonalOrder[3] == SeasonalPeriod
    ensures r.best.mse.Some? <==> keepMse
  {
    var c := Components(sel.order);
    Params(ticker, start, end, exogTickers, BestParams(c[..3], c[3..] + [SeasonalPeriod], if keepMse then Some(sel.mse) else None))
  }

  /** Reading an order back from a params record. */
  function OrderOf(best: BestParams): (r: Option<Order>)
    ensures r.Some? <==> |best.order| == 3 && |best.seasonalOrder| == 4
  {
    if |best.order| == 3 && |best.seasonalOrder| == 4 then
      Some(Order(best.order[0], best.order[1], best.order[2], best.seasonalOrder[0], best.seasonalOrder[1], best.seasonalOrder[2]))
    else None
  }

  /** The record keeps the chosen order intact: reading it back gives the
      selection's order, with seasonal period 7. */
  lemma ParamsRoundTrip(ticker: string, start: string, end: string, exogTickers: seq<string>, sel: Selection, keepMse: bool)
    ensures OrderOf(ParamsRecord(ticker, start, end, exogTickers, sel, keepMse).best) == Some(sel.order)
    ensures keepMse ==> ParamsRecord(ticker, start, end, exogTickers, sel, keepMse).best.mse == Some(sel.mse)
  {
  }

  /** A list of names as a JSON array of strings. */
  function TextItems(names: seq<string>): (r: MetaValue)
    ensures r.Items? && |r.items| == |names|
  {
    Items(seq(|names|, i requires 0 <= i < |names| => Text(names[i])))
  }

  /** A JSON array of strings read back as a list of names. */
  function NamesOf(items: seq<MetaValue>): (r: Option<seq<string>>)
    ensures r.Some? ==> |r.value| == |items|
  {
    if |items| == 0 then Some([])
    else if !items[0].Text? then None
    else match NamesOf(items[1..])
      case None => None
      case Some(rest) => Some([items[0].text] + rest)
  }

  lemma {:induction false} NamesRoundTrip(names: seq<string>)
    ensures NamesOf(TextItems(names).items) == Some(names)
  {
    if |names| > 0 {
      NamesRoundTrip(names[1..]);
      var items := TextItems(names).items;
      assert items[0] == Text(names[0]);
      assert items[1..] == TextItems(names[1..]).items;
      assert [names[0]] + names[1..] == names;
    }
  }

  function IntItems(xs: seq<int>): MetaValue
  {
    Items(seq(|xs|, i requires 0 <= i < |xs| => Integer(xs[i])))
  }

  const ExogTickersKey := "exog_tickers"

  /** The params record as the JSON object saved next to the model. */
  function ParamsMetadata(params: Params): (md: Metadata)
    ensures ExogTickersKey in md && md[ExogTickersKey] == TextItems(params.exogTickers)
  {
    var best := map["order" := IntItems(params.best.order), "seasonal_order" := IntItems(params.best.seasonalOrder)];
    map[
      "ticker" := Text(params.ticker),
      "start" := Text(params.start),
      "end" := Text(params.end),
      ExogTickersKey := TextItems(params.exogTickers),
      "best_params" := Object(if params.best.mse.Some? then best["mse" := Decimal(params.best.mse.value)] else best)
    ]
  }

  /** `params['exog_tickers']`: a missing key raises `KeyError`; anything
      but a list of names cannot label the frame's columns. */
  function ExogTickersOf(md: Metadata): (r: Result<seq<string>>)
    ensures ExogTickersKey !in md <==> r == Err(KeyError(ExogTickersKey))
    ensures r.Err? ==> r.error.KeyError? || r.error.ValueError?
  {
    if ExogTickersKey !in md then Err(KeyError(ExogTickersKey))
    else match md[ExogTickersKey]
      case Items(items) =>
        (match NamesOf(items)
         case Some(names) => Ok(names)
         case None => Err(ValueError("exog_tickers is not a list of names")))
      case _ => Err(ValueError("exog_tickers is not a list of names"))
  }

  /** Trained without an explicit list, the model is predicted with the
      default series as its exogenous columns, in the default order. */
  lemma DefaultExogColumns(ticker: string, start: string, end: string, sel: Selection, keepMse: bool)
    ensures ExogTickersOf(ParamsMetadata(ParamsRecord(ticker, start, end, ExogTickersOrDefault(None), sel, keepMse)))
         == Ok(["GLD", "QQQ", "^TNX"])
  {
    ExogTickersRoundTrip(ParamsRecord(ticker, start, end, ExogTickersOrDefault(None), sel, keepMse));
  }

  /** The exogenous names written at training time are the ones read back at
      prediction time. */
  lemma ExogTickersRoundTrip(params: Params)
    ensures ExogTickersOf(ParamsMetadata(params)) == Ok(params.exogTickers)
  {
    NamesRoundTrip(params.exogTickers);
  }
}
