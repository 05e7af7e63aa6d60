/** ARIMA prediction: loading the stored artifacts, building the future
    exogenous frame by repeating the last stored row, the keys of the
    returned dictionary, and the close-price download with retries and a
    fallback source. The SARIMAX forecast itself and both data sources are
    oracles. */
module ArimaForecast {
  import opened Wrappers
  import opened Seqs
  import opened Tickers
  import opened Artifacts
  import opened ArimaSearch
  import Registry
  import PortfolioPrediction

  type Row = seq<real>

  /** The exogenous frame passed to `get_forecast`: column names and rows. */
  datatype ExogFrame = ExogFrame(columns: seq<string>, rows: seq<Row>)

  /** `np.tile(last_row, (days, 1))`: `days` copies of the row; a negative
      count raises `ValueError`. */
  function Tile(row: Row, days: int): (r: Result<seq<Row>>)
    ensures r.Ok? <==> days >= 0
    ensures r.Err? ==> r.error.ValueError?
    ensures r.Ok? ==> |r.value| == days && forall i :: 0 <= i < days ==> r.value[i] == row
  {
    if days < 0 then Err(ValueError("negative dimensions are not allowed"))
    else Ok(seq(days, _ => row))
  }

  /** `pd.DataFrame(np.tile(...), columns=names)`: the rows are tiled first,
      then the number of names must match the width of the rows. */
  function Label(row: Row, days: int, columns: seq<string>): (r: Result<ExogFrame>)
    ensures r.Ok? <==> days >= 0 && |row| == |columns|
    ensures r.Err? ==> r.error.ValueError?
    ensures r.Ok? ==> r.value.columns == columns && |r.value.rows| == days
    ensures r.Ok? ==> forall i :: 0 <= i < days ==> r.value.rows[i] == row
  {
    match Tile(row, days)
    case Err(e) => Err(e)
    case Ok(rows) =>
      if |row| != |columns| then Err(ValueError("shape of passed values does not match the columns"))
      else Ok(ExogFrame(columns, rows))
  }

  const ModelPickle := "model.pkl"
  const ExogPickle := "exog_data.pkl"

  /** The class variants' `load_model` followed by the future-exog
      construction in `predict`: a missing model or exog pickle is reported
      as "No saved model found for <ticker>"; then the last stored row is
      read (an empty history raises `IndexError`) and tiled (a negative
      `days` raises `ValueError`), then `params['exog_tickers']` is read
      (absent when no metadata was saved, which raises `KeyError`), then
      the frame is labelled. */
  function ClassFutureExog(store: Store, base: string, ticker: string, days: int): (r: Result<ExogFrame>)
    ensures var dir := ModelDir(base, Registry.Arima, ticker);
      (Join(dir, ModelPickle) !in store || Join(dir, ExogPickle) !in store)
      <==> r == Err(RuntimeError("No saved model found for " + ticker))
    ensures r.Ok? ==> var dir := ModelDir(base, Registry.Arima, ticker);
      && Join(dir, ExogPickle) in store
      && TiledFrom(r.value, store[Join(dir, ExogPickle)], LoadMetadata(store, base, Registry.Arima, ticker), days)
    ensures var dir := ModelDir(base, Registry.Arima, ticker);
      && Join(dir, ModelPickle) in store && Join(dir, ExogPickle) in store
      && store[Join(dir, ExogPickle)].FrameFile? && |store[Join(dir, ExogPickle)].rows| > 0
      && LoadMetadata(store, base, Registry.Arima, ticker).Ok? && days < 0
      ==> r.Err? && r.error.ValueError?
  {
    var dir := ModelDir(base, Registry.Arima, ticker);
    if Join(dir, ModelPickle) !in store || Join(dir, ExogPickle) !in store then
      Err(RuntimeError("No saved model found for " + ticker))
    else
      ClassTile(store[Join(dir, ExogPickle)], LoadMetadata(store, base, Registry.Arima, ticker), days)
  }

  /** `frame` is `days` copies of the last row of the stored exog frame,
      labelled with the stored exogenous names. */
  predicate TiledFrom(frame: ExogFrame, exog: File, params: Result<Metadata>, days: int)
  {
    && exog.FrameFile? && |exog.rows| > 0
    && params.Ok? && ExogTickersOf(params.value) == Ok(frame.columns)
    && |frame.rows| == days
    && (forall i :: 0 <= i < days ==> frame.rows[i] == Last(exog.rows))
  }

  /** The part of the class variants after both pickles were found. The
      arguments of `pd.DataFrame` are evaluated in order: `np.tile` first
      (a negative `days` raises `ValueError`), then `params['exog_tickers']`. */
  function ClassTile(exog: File, params: Result<Metadata>, days: int): (r: Result<ExogFrame>)
    ensures r.Err? ==> !r.error.RuntimeError? || (params.Err? && r.error == params.error)
    ensures r.Ok? ==> TiledFrom(r.value, exog, params, days)
    ensures exog.FrameFile? && |exog.rows| > 0 && params.Ok? && days < 0 ==> r.Err? && r.error.ValueError?
  {
    if !exog.FrameFile? then Err(ValueError("exog data is not a frame"))
    else match params
      case Err(e) => Err(e)
      case Ok(md) =>
        if |exog.rows| == 0 then Err(IndexError)
        else match Tile(Last(exog.rows), days)
          case Err(e) => Err(e)
          case Ok(_) =>
            match ExogTickersOf(md)
            case Err(e) => Err(e)
            case Ok(columns) => Label(Last(exog.rows), days, columns)
  }

  /** The class trainers' artifacts: the fitted model, the exog frame, then
      the params record as metadata; nothing is removed. */
  function SaveClassArtifacts(store: Store, base: string, ticker: string, history: seq<Row>, params: Metadata, now: string)
    : (r: Store)
    ensures store.Keys <= r.Keys
    ensures var dir := ModelDir(base, Registry.Arima, ticker);
      Join(dir, ModelPickle) in r && Join(dir, ExogPickle) in r && r[Join(dir, ExogPickle)] == FrameFile(history)
    ensures LoadMetadata(r, base, Registry.Arima, ticker) == Ok(params[LastUpdated := Text(now)])
  {
    var dir := ModelDir(base, Registry.Arima, ticker);
    var modelPath, exogPath := Join(dir, ModelPickle), Join(dir, ExogPickle);
    var withModel := store[modelPath := OtherFile("SARIMAX results")][exogPath := FrameFile(history)];
    ExogBesideMetadata(dir);
    SaveThenLoad(withModel, base, Registry.Arima, ticker, params, now);
    SaveMetadata(withModel, base, Registry.Arima, ticker, params, now).0
  }

  /** Train, then predict: the future exog frame is the last training row
      labelled with the exogenous names given at training time; an empty
      history raises `IndexError`. */
  lemma ClassTrainThenPredict(store: Store, base: string, ticker: string, history: seq<Row>, params: Params, now: string, days: int)
    ensures ClassFutureExog(SaveClassArtifacts(store, base, ticker, history, ParamsMetadata(params), now), base, ticker, days)
         == if |history| == 0 then Err(IndexError) else Label(Last(history), days, params.exogTickers)
  {
    var md := ParamsMetadata(params);
    ExogTickersRoundTrip(params);
    ClassTrainThenPredictWith(store, base, ticker, history, md, params.exogTickers, now, days);
  }

  lemma ClassTrainThenPredictWith(store: Store, base: string, ticker: string, history: seq<Row>, md: Metadata,
                                  names: seq<string>, now: string, days: int)
    requires ExogTickersOf(md) == Ok(names)
    ensures ClassFutureExog(SaveClassArtifacts(store, base, ticker, history, md, now), base, ticker, days)
         == if |history| == 0 then Err(IndexError) else Label(Last(history), days, names)
  {
    var stored := SaveClassArtifacts(store, base, ticker, history, md, now);
    StoredClassArtifacts(store, base, ticker, history, md, now);
    var loaded := md[LastUpdated := Text(now)];
    assert ExogTickersKey != LastUpdated;
    assert ExogTickersOf(loaded) == ExogTickersOf(md);
    assert ClassFutureExog(stored, base, ticker, days) == ClassTile(FrameFile(history), Ok(loaded), days);
  }

  /** The exog frame and the metadata never share a file. */
  lemma ExogBesideMetadata(dir: string)
    ensures Join(dir, ExogPickle) != Join(dir, MetadataName)
  {
    assert Segment(ExogPickle) && Segment(MetadataName);
    JoinDistinctNames(dir, ExogPickle, MetadataName);
  }

  lemma StoredClassArtifacts(store: Store, base: string, ticker: string, history: seq<Row>, md: Metadata, now: string)
    ensures var dir := ModelDir(base, Registry.Arima, ticker);
      var stored := SaveClassArtifacts(store, base, ticker, history, md, now);
      && Join(dir, ModelPickle) in stored
      && Join(dir, ExogPickle) in stored && stored[Join(dir, ExogPickle)] == FrameFile(history)
      && LoadMetadata(stored, base, Registry.Arima, ticker) == Ok(md[LastUpdated := Text(now)])
  {
    var dir := ModelDir(base, Registry.Arima, ticker);
    var modelPath, exogPath := Join(dir, ModelPickle), Join(dir, ExogPickle);
    var withModel := store[modelPath := OtherFile("SARIMAX results")][exogPath := FrameFile(history)];
    assert modelPath in withModel && withModel[exogPath] == FrameFile(history);
    ExogBesideMetadata(dir);
    assert exogPath != MetadataPath(base, Registry.Arima, ticker);
    SaveThenLoad(withModel, base, Registry.Arima, ticker, md, now);
  }

  const ServiceModelFile := "arima_model.pkl"
  const ServiceExogFile := "arima_exog.pkl"
  const ServiceParamsFile := "arima_params.json"
  const ArtifactsMissing := "Model or exogenous data not found. Please call /arima/train first."

  /** `predict_next_days` of the module-level services: all three fixed
      artifact files must exist; the params JSON is read first and its
      `exog_tickers` key looked up, then the exog pickle is read, its last
      row tiled, and only then the key's value labels the columns. */
  function ServiceFutureExog(store: Store, baseDir: string, days: int): (r: Result<ExogFrame>)
    ensures (Join(baseDir, ServiceModelFile) !in store || Join(baseDir, ServiceExogFile) !in store
             || Join(baseDir, ServiceParamsFile) !in store)
      <==> r == Err(RuntimeError(ArtifactsMissing))
    ensures r.Ok? ==>
      && Join(baseDir, ServiceExogFile) in store && Join(baseDir, ServiceParamsFile) in store
      && store[Join(baseDir, ServiceParamsFile)].MetadataFile?
      && TiledFrom(r.value, store[Join(baseDir, ServiceExogFile)], Ok(store[Join(baseDir, ServiceParamsFile)].metadata), days)
  {
    var modelPath, exogPath, paramsPath := Join(baseDir, ServiceModelFile), Join(baseDir, ServiceExogFile), Join(baseDir, ServiceParamsFile);
    if modelPath !in store || exogPath !in store || paramsPath !in store then
      Err(RuntimeError(ArtifactsMissing))
    else
      ServiceTile(store[exogPath], store[paramsPath], days)
  }

  /** The part of the service functions after all three files were found:
      the `exog_tickers` key is looked up as soon as the JSON is read, but its
      value is used only as the column labels, after the exog frame was read,
      its last row taken and tiled. */
  function ServiceTile(exog: File, params: File, days: int): (r: Result<ExogFrame>)
    ensures r.Err? ==> !r.error.RuntimeError?
    ensures r.Ok? ==> params.MetadataFile? && TiledFrom(r.value, exog, Ok(params.metadata), days)
    ensures params.MetadataFile? ==> (ExogTickersKey !in params.metadata <==> r == Err(KeyError(ExogTickersKey)))
    ensures params.MetadataFile? && ExogTickersKey in params.metadata && exog.FrameFile? && |exog.rows| == 0
      ==> r == Err(IndexError)
    ensures params.MetadataFile? && ExogTickersKey in params.metadata && exog.FrameFile? && |exog.rows| > 0 && days < 0
      ==> r.Err? && r.error.ValueError?
  {
    match params
    case MetadataFile(md) =>
      if ExogTickersKey !in md then Err(KeyError(ExogTickersKey))
      else if !exog.FrameFile? then Err(ValueError("exog data is not a frame"))
      else if |exog.rows| == 0 then Err(IndexError)
      else
        (match Tile(Last(exog.rows), days)
         case Err(e) => Err(e)
         case Ok(_) =>
           match ExogTickersOf(md)
           case Err(e) => Err(e)
           case Ok(columns) => Label(Last(exog.rows), days, columns))
    case _ => Err(ValueError("params file is not valid JSON"))
  }

  /** The module-level trainer's artifacts: the params JSON, the model, the
      exog frame, each at its fixed path. */
  function SaveServiceArtifacts(store: Store, baseDir: string, history: seq<Row>, params: Params): (r: Store)
    ensures store.Keys <= r.Keys
  {
    store[Join(baseDir, ServiceParamsFile) := MetadataFile(ParamsMetadata(params))]
         [Join(baseDir, ServiceModelFile) := OtherFile("SARIMAX results")]
         [Join(baseDir, ServiceExogFile) := FrameFile(history)]
  }

  /** The module-level round trip: the future exog frame is the last
      training row labelled with the training names. */
  lemma ServiceTrainThenPredict(store: Store, baseDir: string, history: seq<Row>, params: Params, days: int)
    ensures ServiceFutureExog(SaveServiceArtifacts(store, baseDir, history, params), baseDir, days)
         == if |history| == 0 then Err(IndexError) else Label(Last(history), days, params.exogTickers)
  {
    var stored := SaveServiceArtifacts(store, baseDir, history, params);
    StoredServiceArtifacts(store, baseDir, history, params);
    ExogTickersRoundTrip(params);
    assert ServiceFutureExog(stored, baseDir, days)
        == ServiceTile(FrameFile(history), MetadataFile(ParamsMetadata(params)), days);
  }

  lemma StoredServiceArtifacts(store: Store, baseDir: string, history: seq<Row>, params: Params)
    ensures var stored := SaveServiceArtifacts(store, baseDir, history, params);
      && Join(baseDir, ServiceModelFile) in stored
      && stored[Join(baseDir, ServiceExogFile)] == FrameFile(history)
      && stored[Join(baseDir, ServiceParamsFile)] == MetadataFile(ParamsMetadata(params))
  {
    assert Segment(ServiceParamsFile) && Segment(ServiceModelFile) && Segment(ServiceExogFile);
    JoinDistinctNames(baseDir, ServiceParamsFile, ServiceModelFile);
    JoinDistinctNames(baseDir, ServiceParamsFile, ServiceExogFile);
  }

  /** The three ARIMA prediction entry points and their result keys. */
  datatype Variant =
    | AlgorithmsClass  // project/algorithms/arima_model.py
    | ServiceFunction  // predict_next_days in both service modules
    | AlgosClass       // the class in project/algos/arima_model_service.py

  function OutputKeys(v: Variant): (keys: set<string>)
    ensures "dates" in keys
  {
    match v
    case AlgorithmsClass => {"dates", "forecast_mean", "forecast_ci"}
    case ServiceFunction => {"dates", "forecast_mean", "forecast_ci_lower", "forecast_ci_upper"}
    case AlgosClass => {"dates", "forecast", "forecast_ci_lower", "forecast_ci_upper"}
  }

  /** Only the `algos` class names its point forecast differently from what
      the portfolio predictor reads for ARIMA. */
  lemma PointForecastKeyMatches(v: Variant)
    ensures PortfolioPrediction.PointKey(Registry.Arima) in OutputKeys(v) <==> !v.AlgosClass?
  {
  }

  /** Wiring the `algos` class into the portfolio predictor would yield no
      ARIMA price for any ticker. */
  lemma AlgosClassYieldsNoPrice(reg: Registry.Listings, forecaster: PortfolioPrediction.Forecaster, ticker: string, days: int,
                                lists: map<string, seq<real>>)
    requires forecaster(Registry.Arima, ticker, days) == PortfolioPrediction.Returned(lists)
    requires lists.Keys == OutputKeys(AlgosClass)
    ensures PortfolioPrediction.PredictStockPrice(reg, forecaster, ticker, Registry.Arima, days) == None
  {
    PointForecastKeyMatches(AlgosClass);
    PortfolioPrediction.WrongKeyYieldsNothing(reg, forecaster, ticker, days);
  }

  /** What one primary download attempt did: returned a close series
      (empty when the frame is empty), raised a JSON or request error (which
      is retried after a sleep), or raised anything else (which propagates). */
  datatype Attempt = Downloaded(closes: seq<real>) | Transient | Failure

  /** The result of `fetch_close` and the sleeps it performed, in order. */
  datatype Fetched = Fetched(result: Result<seq<real>>, sleeps: seq<int>)

  const PrimaryTries := 3

  /** Attempt `i` neither produced data nor raised a non-retried error. */
  predicate Soft(a: Attempt)
  {
    a.Transient? || (a.Downloaded? && |a.closes| == 0)
  }

  /** `alt[::-1]`: the fallback source lists newest first. */
  function Reverse<T>(s: seq<T>): (r: seq<T>)
    ensures |r| == |s| && forall i :: 0 <= i < |s| ==> r[i] == s[|s| - 1 - i]
  {
    if |s| == 0 then [] else Reverse(s[1..]) + [s[0]]
  }

  /** The fallback: the ticker with its leading carets stripped; any
      failure becomes "cannot retrieve data for <ticker>", and a success is
      the source's newest-first series put oldest first. */
  function Fallback(ticker: string, stooq: string -> Option<seq<real>>): (r: Result<seq<real>>)
    ensures r.Ok? <==> stooq(LStrip(ticker, '^')).Some?
    ensures r.Err? ==> r.error == RuntimeError("cannot retrieve data for " + ticker)
    ensures r.Ok? ==> var rows := stooq(LStrip(ticker, '^')).value;
      |r.value| == |rows| && forall i :: 0 <= i < |rows| ==> r.value[i] == rows[|rows| - 1 - i]
  {
    match stooq(LStrip(ticker, '^'))
    case Some(rows) => Ok(Reverse(rows))
    case None => Err(RuntimeError("cannot retrieve data for " + ticker))
  }

  /** The retry loop from attempt `i` on; attempt `i` sleeps `i + 1`
      seconds after a retried error. */
  function FetchFrom(ticker: string, primary: nat -> Attempt, stooq: string -> Option<seq<real>>, i: nat, sleeps: seq<int>)
    : (r: Fetched)
    requires i <= PrimaryTries
    ensures |sleeps| <= |r.sleeps| <= |sleeps| + PrimaryTries - i && r.sleeps[..|sleeps|] == sleeps
    ensures forall j :: |sleeps| <= j < |r.sleeps| ==> i + 1 <= r.sleeps[j] <= PrimaryTries
    ensures forall j :: |sleeps| <= j < |r.sleeps| - 1 ==> r.sleeps[j] < r.sleeps[j + 1]
    decreases PrimaryTries - i
  {
    if i == PrimaryTries then Fetched(Fallback(ticker, stooq), sleeps)
    else match primary(i)
      case Downloaded(closes) =>
        if |closes| > 0 then Fetched(Ok(closes), sleeps) else FetchFrom(ticker, primary, stooq, i + 1, sleeps)
      case Transient =>
        var r := FetchFrom(ticker, primary, stooq, i + 1, sleeps + [i + 1]);
        assert r.sleeps[..|sleeps|] == (sleeps + [i + 1])[..|sleeps|] == sleeps by {
          assert r.sleeps[..|sleeps|] == r.sleeps[..|sleeps| + 1][..|sleeps|];
        }
        r
      case Failure => Fetched(Err(OtherDownloadError), sleeps)
  }

  /** `fetch_close`: at most three primary tries sleeping 1, 2, 3 seconds
      after retried errors, then the fallback source. */
  function FetchClose(ticker: string, primary: nat -> Attempt, stooq: string -> Option<seq<real>>): (r: Fetched)
    ensures |r.sleeps| <= PrimaryTries
    ensures forall j :: 0 <= j < |r.sleeps| ==> 1 <= r.sleeps[j] <= PrimaryTries
    ensures forall j :: 0 <= j < |r.sleeps| - 1 ==> r.sleeps[j] < r.sleeps[j + 1]
  {
    FetchFrom(ticker, primary, stooq, 0, [])
  }

  /** The fallback source is consulted exactly when all three primary tries
      were soft failures, and then its reversed series (or its error) is
      the result. */
  lemma {:induction false} FallbackOnlyAfterThreeSoftFailures(ticker: string, primary: nat -> Attempt,
                                                                stooq: string -> Option<seq<real>>, i: nat, sleeps: seq<int>)
    requires i <= PrimaryTries
    requires forall j :: i <= j < PrimaryTries ==> Soft(primary(j))
    ensures FetchFrom(ticker, primary, stooq, i, sleeps).result == Fallback(ticker, stooq)
    decreases PrimaryTries - i
  {
    if i < PrimaryTries {
      FallbackOnlyAfterThreeSoftFailures(ticker, primary, stooq, i + 1, sleeps);
      FallbackOnlyAfterThreeSoftFailures(ticker, primary, stooq, i + 1, sleeps + [i + 1]);
    }
  }

  /** Otherwise the first attempt that was not a soft failure decides: its
      non-empty series is returned, or its error propagates. */
  lemma {:induction false} FirstDecisiveAttemptWins(ticker: string, primary: nat -> Attempt,
                                                      stooq: string -> Option<seq<real>>, i: nat, sleeps: seq<int>, k: nat)
    requires i <= k < PrimaryTries
    requires forall j :: i <= j < k ==> Soft(primary(j))
    requires !Soft(primary(k))
    ensures FetchFrom(ticker, primary, stooq, i, sleeps).result
         == (if primary(k).Failure? then Err(OtherDownloadError) else Ok(primary(k).closes))
    decreases k - i
  {
    if i < k {
      FirstDecisiveAttemptWins(ticker, primary, stooq, i + 1, sleeps, k);
      FirstDecisiveAttemptWins(ticker, primary, stooq, i + 1, sleeps + [i + 1], k);
    }
  }
}
