/** The per-(ticker, algorithm) trained-model registry consulted by the
    portfolio earnings predictor before any forecast is made. */
module Registry {
  import opened Seqs
  import opened Tickers

  const Lstm := "lstm"
  const Arima := "arima"
  const Prophet := "prophet"

  /** The algorithms that have a model listing. */
  const Known: seq<string> := [Lstm, Arima, Prophet]

  /** The three `list_trained_models()` listings: directory names of trained
      models, already in normalised form. */
  datatype Listings = Listings(lstm: seq<string>, arima: seq<string>, prophet: seq<string>)

  /** `check_model_exists`: an unknown algorithm has no models; otherwise the
      normalised ticker must appear in that algorithm's listing. */
  function ModelExists(reg: Listings, ticker: string, algorithm: string): (b: bool)
    ensures b <==>
      || (algorithm == Lstm && Normalize(ticker) in reg.lstm)
      || (algorithm == Arima && Normalize(ticker) in reg.arima)
      || (algorithm == Prophet && Normalize(ticker) in reg.prophet)
    ensures algorithm !in Known ==> !b
  {
    var name := Normalize(ticker);
    if algorithm == Lstm then name in reg.lstm
    else if algorithm == Arima then name in reg.arima
    else if algorithm == Prophet then name in reg.prophet
    else false
  }

  /** Tickers that normalise alike share their models: `^GSPC` and `GSPC`
      are the same registry entry. */
  lemma SameDirectorySameAnswer(reg: Listings, t1: string, t2: string, algorithm: string)
    requires Normalize(t1) == Normalize(t2)
    ensures ModelExists(reg, t1, algorithm) == ModelExists(reg, t2, algorithm)
  {
  }

  /** The algorithms of `algorithms` with no trained model for `ticker`,
      in the order they were asked for. */
  function MissingAlgorithms(reg: Listings, ticker: string, algorithms: seq<string>): (r: seq<string>)
    ensures forall a :: a in r <==> a in algorithms && !ModelExists(reg, ticker, a)
  {
    Filter(algorithms, a => !ModelExists(reg, ticker, a))
  }

  /** Reference reading of the missing-models map over a SET of tickers: a
      ticker is a key exactly when one of its algorithms is missing. */
  function MissingModelsOf(reg: Listings, tickers: set<string>, algorithms: seq<string>): (m: map<string, seq<string>>)
    ensures forall t :: t in m <==> t in tickers && MissingAlgorithms(reg, t, algorithms) != []
    ensures forall t :: t in m ==> m[t] == MissingAlgorithms(reg, t, algorithms) && m[t] != []
  {
    map t | t in tickers && MissingAlgorithms(reg, t, algorithms) != [] :: MissingAlgorithms(reg, t, algorithms)
  }

  /** Python's `set(...)` of a list. */
  function Distinct(s: seq<string>): set<string>
  {
    set t | t in s
  }

  lemma DistinctSnoc(s: seq<string>, x: string)
    ensures Distinct(s + [x]) == Distinct(s) + {x}
  {
  }

  /** One more ticker adds its entry, if it misses anything, and changes no
      other entry. */
  lemma MissingModelsOfAdd(reg: Listings, tickers: set<string>, ticker: string, algorithms: seq<string>)
    ensures var before := MissingModelsOf(reg, tickers, algorithms);
      var missing := MissingAlgorithms(reg, ticker, algorithms);
      MissingModelsOf(reg, tickers + {ticker}, algorithms) == if missing != [] then before[ticker := missing] else before
  {
    var before := MissingModelsOf(reg, tickers, algorithms);
    var missing := MissingAlgorithms(reg, ticker, algorithms);
    var after := MissingModelsOf(reg, tickers + {ticker}, algorithms);
    var expected := if missing != [] then before[ticker := missing] else before;
    assert after.Keys == expected.Keys;
  }

  /** The inner loop of `get_missing_models`. */
  method CollectMissing(reg: Listings, ticker: string, algorithms: seq<string>) returns (missingAlgos: seq<string>)
    ensures missingAlgos == MissingAlgorithms(reg, ticker, algorithms)
  {
    var absent := a => !ModelExists(reg, ticker, a);
    missingAlgos := [];
    var j := 0;
    while j < |algorithms|
      invariant j <= |algorithms|
      invariant missingAlgos == Filter(algorithms[..j], absent)
    {
      FilterSnoc(algorithms[..j], algorithms[j], absent);
      assert algorithms[..j + 1] == algorithms[..j] + [algorithms[j]];
      if absent(algorithms[j]) {
        missingAlgos := missingAlgos + [algorithms[j]];
      }
      j := j + 1;
    }
    assert algorithms[..j] == algorithms;
  }

  /** `get_missing_models`, as the nested loops of the source. The result
      depends on the tickers only through the set they form, so the
      unspecified order of `list(set(...))` cannot change it. */
  method GetMissingModels(reg: Listings, tickers: seq<string>, algorithms: seq<string>)
    returns (missing: map<string, seq<string>>)
    ensures missing == MissingModelsOf(reg, Distinct(tickers), algorithms)
    ensures forall t :: t in missing ==> t in tickers && missing[t] != []
    ensures forall t :: t in missing ==> forall a :: a in missing[t] <==> a in algorithms && !ModelExists(reg, t, a)
  {
    missing := map[];
    var i := 0;
    while i < |tickers|
      invariant i <= |tickers|
      invariant missing == MissingModelsOf(reg, Distinct(tickers[..i]), algorithms)
    {
      var ticker := tickers[i];
      var missingAlgos := CollectMissing(reg, ticker, algorithms);
      if missingAlgos != [] {
        missing := missing[ticker := missingAlgos];
      }
      assert tickers[..i + 1] == tickers[..i] + [ticker];
      DistinctSnoc(tickers[..i], ticker);
      MissingModelsOfAdd(reg, Distinct(tickers[..i]), ticker, algorithms);
      i := i + 1;
    }
    assert tickers[..i] == tickers;
  }
}
