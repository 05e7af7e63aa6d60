# AlgoTrade core in Dafny

A model of the deterministic core of AlgoTrade, a stock-forecasting
application. It has a Python backend that trains LSTM, ARIMA and Prophet
models per ticker and predicts portfolio earnings from them, and a React
front end. The model fitters, scalers, market-data downloads, the file system
and the clock are abstract. Everything that the code decides itself is written
out as pure Dafny functions over sequences, maps and mathematical reals, with
contracts and lemmas about them.

- `wrappers.dfy` (`Wrappers`): `Option`, `Result` and the Python exceptions
  the core raises.
- `seqs.dfy` (`Seqs`): order-preserving filtering, `Last`, and sums of reals.
- `tickers.dfy` (`Tickers`): `normalize_ticker`, which drops every `^` and
  maps `/` to `_`; `lstrip('^')`; and ASCII case mapping and substring search
  for the front end.
- `registry.dfy` (`Registry`): `check_model_exists` and `get_missing_models`.
  The three `list_trained_models()` listings are a parameter.
- `artifacts.dfy` (`Artifacts`): the saved-model layout
  `base/model_name/normalised_ticker`, with `posixpath.join` modelled branch
  by branch. Metadata save and load work over an abstract store, a map from
  path to file content. `list_trained_models` works over a directory listing.
- `train_test.dfy` (`TrainTest`): the chronological 90 % train/test split.
- `lstm_windows.dfy` (`LstmWindows`): the LSTM sliding window, meaning
  `build_sequences`, `data[-L:]` and the autoregressive prediction loop, plus
  the LSTM `load_model`. The network is a function `net` from a window to a
  real. The prediction loop is generic in the row type. How a window grows is
  a function `grow`, built by `Grow(rule, extra)` from the row rule of each
  variant:
  - project/algorithms/lstm_model.py appends `[pred, 0, …, 0]` (`ZeroFeatures`);
  - project/algos/lstm_model_service.py appends `[pred]` (`CloseOnly`);
  - project/Services/lstm_model_service.py appends `[pred] + last[1:]` (`CarryFeatures`).

  The flag `readsLast` records that only the last variant reads the previous
  last row. With a window length of 0 that read is an `IndexError`.
- `arima_search.dfy` (`ArimaSearch`):
  - the default exogenous tickers;
  - the eight SARIMAX candidate orders;
  - the strict-`<` argmin grid search, where each candidate's fit-and-score
    outcome is an oracle;
  - the params record and its JSON round trip.
- `arima_forecast.dfy` (`ArimaForecast`):
  - the artifact checks and future-exogenous tiling of the two ARIMA classes
    and of the module-level `predict_next_days`;
  - the output keys of the three entry points;
  - `fetch_close`, which makes three primary tries with sleeps of 1, 2 and
    3 seconds, then falls back to a reversed series for the `lstrip('^')`
    ticker. Both data sources are oracles.
- `portfolio_prediction.dfy` (`PortfolioPrediction`):
  - `predict_stock_price`, where the per-algorithm predictors are one oracle
    `forecaster(algorithm, ticker, days)`;
  - the average mode;
  - per-position arithmetic and portfolio totals;
  - `predict_portfolio_earnings`, both as a reference function `Report` and as
    the loops of the source (`PredictPortfolioEarnings`), proved equal.
- `ticker_autocomplete.dfy` (`TickerAutocomplete`): `filterOptions` and
  `handleChange` of the ticker picker.
- `portfolio_page.dfy` (`PortfolioPage`): `calculatePortfolioValue`, the
  list updates the page applies after the server confirms a change, and the
  add-item form check.

Two behaviours of the code are worth noting, and the model follows them:

- A position's `profit_loss_percent` has no zero guard
  (project/Services/portfolio_prediction_service.py:139). A priced holding
  that cost nothing raises `ZeroDivisionError`, which nothing catches, so
  the whole call fails. `Position`, `PredictItemsFails`, `Report` and
  `ZeroCostScenario` state this. The total percentage is guarded (line 159).
- `normalize_ticker` removes every `^` (line 11), not only a leading one,
  unlike the stooq fallback's `lstrip('^')`. `LeadingCaretsAgree` and
  `InnerCaretDisagrees` show where the two rules agree and where they part.

## Model

| member | source | states |
|---|---|---|
| Tickers.RemoveAll | project/Services/portfolio_prediction_service.py:11 | `replace("^", "")` leaves no occurrence of the character and never lengthens the text |
| Tickers.RemoveAllIsFilter | project/Services/portfolio_prediction_service.py:11 | `replace("^", "")` keeps every other character in its original order: it is the order-preserving filter that drops exactly `^` |
| Tickers.ReplaceAll | project/Services/portfolio_prediction_service.py:11 | `replace("/", "_")` keeps the length and leaves no `/` behind |
| Tickers.ReplacedCharacterPresent | project/Services/portfolio_prediction_service.py:11 | after `replace(a, b)` the text holds `b` exactly when it held `a` or `b` before |
| Tickers.Normalize | project/Services/portfolio_prediction_service.py:9-11 | a normalised ticker contains neither `^` nor `/` and is no longer than the input |
| Tickers.NormalizeIsPerSymbol | project/Services/portfolio_prediction_service.py:9-11 | the two-pass replace chain equals an independent per-character rule: drop `^`, turn `/` into `_`, keep everything else |
| Tickers.NormalizeAppend | project/Services/portfolio_prediction_service.py:9-11 | normalisation distributes over concatenation |
| Tickers.NormalizeFixedPoints | project/Services/portfolio_prediction_service.py:9-11 | a ticker is left unchanged exactly when it holds neither `^` nor `/` |
| Tickers.NormalizeIdempotent | project/Services/portfolio_prediction_service.py:9-11 | normalising twice is normalising once |
| Tickers.IndexSymbolExample | project/Services/portfolio_prediction_service.py:9-11 | `^GSPC` normalises to `GSPC` |
| Tickers.ShareClassExample | project/Services/portfolio_prediction_service.py:9-11 | `BRK/B` normalises to `BRK_B` |
| Tickers.CaretsVanish | project/Services/portfolio_prediction_service.py:11 | a run of carets normalises to the empty name |
| Tickers.LStrip | project/algos/arima_model_service.py:41 | `lstrip('^')` removes exactly the leading run of carets: the result is a suffix, everything cut was a caret, and the result does not start with one |
| Tickers.LeadingCaretsAgree | project/algos/arima_model_service.py:41 | for index symbols (carets only at the front), the fallback's `lstrip('^')` and the directory normalisation give the same name |
| Tickers.InnerCaretDisagrees | project/algos/arima_model_service.py:41 | for a caret inside the symbol (`A^B`) the two rules give different names |
| Tickers.ToUpper | Front/src/components/TickerAutocomplete.jsx:258-263 | `toUpperCase` leaves no lower-case letter, changes exactly the lower-case letters, and lower-cases back to what the input lower-cases to |
| Tickers.ToLower | Front/src/components/TickerAutocomplete.jsx:252-254 | `toLowerCase` leaves no upper-case letter and changes exactly the upper-case letters |
| Tickers.CaseMappingsIdempotent | Front/src/components/TickerAutocomplete.jsx:252-263 | upper-casing or lower-casing twice is doing it once |
| Tickers.Contains | Front/src/components/TickerAutocomplete.jsx:252-254 | `includes` is true exactly when the text occurs at some position |
| Registry.ModelExists | project/Services/portfolio_prediction_service.py:13-24 | true exactly when the algorithm is lstm, arima or prophet and the normalised ticker is in that algorithm's listing; false for any other algorithm |
| Registry.SameDirectorySameAnswer | project/Services/portfolio_prediction_service.py:13-24 | tickers with the same normal form (`^GSPC`, `GSPC`) get the same answer |
| Registry.MissingAlgorithms | project/Services/portfolio_prediction_service.py:34-37 | an algorithm is listed exactly when it was requested and has no model for the ticker |
| Registry.MissingModelsOf | project/Services/portfolio_prediction_service.py:26-42 | reference map: a ticker is a key exactly when some requested algorithm is missing for it, and its value is that non-empty list |
| Registry.MissingModelsOfAdd | project/Services/portfolio_prediction_service.py:33-40 | one more ticker adds its own entry (if it misses anything) and changes no other entry |
| Registry.CollectMissing | project/Services/portfolio_prediction_service.py:34-37 | the inner loop computes the missing algorithms, in request order |
| Registry.GetMissingModels | project/Services/portfolio_prediction_service.py:26-42 | the nested loops compute the reference map of the set of given tickers; every key is a given ticker with a non-empty list of exactly its missing algorithms |
| Artifacts.Join | project/algorithms/base_model.py:14 | `posixpath.join` ends with the joined name and, for a relative name, starts with the directory |
| Artifacts.ModelDir | project/algorithms/base_model.py:12-16 | `get_model_path` starts with the model-name directory under the base and ends with the normalised ticker |
| Artifacts.ModelDirShape | project/algorithms/base_model.py:12-16 | the model directory is `base/model_name/` followed by the normalised ticker |
| Artifacts.SameDirIffSameNormalForm | project/algorithms/base_model.py:14 | two tickers share a directory under one model exactly when they normalise alike |
| Artifacts.DistinctModelsDistinctDirs | project/algorithms/base_model.py:8-14 | the same ticker under two different model names gets two different directories |
| Artifacts.JoinDistinctNames | project/algorithms/base_model.py:22 | different file names in one directory are different paths |
| Artifacts.MetadataPathShape | project/algorithms/base_model.py:20-22 | the metadata file is `metadata.json` inside the ticker's model directory |
| Artifacts.MetadataPathsDiffer | project/algorithms/base_model.py:20-22 | tickers with different normal forms never share a metadata file |
| Artifacts.SaveMetadata | project/algorithms/base_model.py:18-23 | the saved dict is the given one plus `last_updated` set to the clock reading, overwriting any earlier value; only the ticker's metadata path is added to the store |
| Artifacts.LoadMetadata | project/algorithms/base_model.py:25-32 | a missing file reads as `{}`; the only error is a file that is not valid JSON |
| Artifacts.SaveThenLoad | project/algorithms/base_model.py:18-32 | loading after saving returns the saved dict, `last_updated` included |
| Artifacts.SaveLeavesOtherTickers | project/algorithms/base_model.py:18-32 | saving one ticker's metadata leaves what every other ticker loads unchanged |
| Artifacts.SaveOverwrites | project/algorithms/base_model.py:18-23 | of two saves, only the second dict and timestamp remain |
| Artifacts.ListTrainedModels | project/algos/lstm_model_service.py:179-181 | every directory entry is listed and every listed name is a directory entry |
| Artifacts.NoDirectoriesNoModels | project/algos/lstm_model_service.py:179-181 | a listing without sub-directories yields no models |
| TrainTest.SplitIndex | project/algorithms/lstm_model.py:58 | the split index is the floor of 0.9·n: at most n, below n for non-empty data, and 0 exactly when n ≤ 1 |
| TrainTest.Split | project/algorithms/arima_model.py:69-71 | the train prefix and test suffix concatenate back to the data, and the test part is non-empty for non-empty data |
| TrainTest.SplitAligned | project/algorithms/arima_model.py:69-71 | the target and the exogenous frame are cut at the same row, so test rows stay paired |
| LstmWindows.BuildSequences | project/algorithms/lstm_model.py:34-40 | max(0, n − L) samples in index order; sample k has window `data[k..k+L]` and target `data[k+L][0]`; the call raises `IndexError` exactly when a target row is empty. The same builder is at project/algos/lstm_model_service.py:42-48 and project/Services/lstm_model_service.py:40-43 |
| LstmWindows.LastRows | project/algorithms/lstm_model.py:113 | `data[-L:]` is a suffix of length L, or the whole data when L is 0 or exceeds its length |
| LstmWindows.NextRowShape | project/algorithms/lstm_model.py:126-128 | the appended row starts with the prediction; the other columns are zeros, absent, or the previous last row's columns, depending on the variant |
| LstmWindows.DropOldest | project/algorithms/lstm_model.py:128 | `current_sequence[1:]` drops exactly the oldest row |
| LstmWindows.StepWindow | project/algorithms/lstm_model.py:119-128 | one pass fails exactly when the window does not have length L (a reshape error) or when the previous last row is read from an empty window (`IndexError`); otherwise its prediction is the network applied to the window |
| LstmWindows.Forecast | project/algorithms/lstm_model.py:116-128 | a successful loop yields exactly `days` predictions; a failure can only happen for a positive number of days, with a reshape or index error |
| LstmWindows.Predict | project/algorithms/lstm_model.py:113-128 | the imperative loop starting from `data[-L:]` computes the recursive forecast |
| LstmWindows.PredictVariant | project/algorithms/lstm_model.py:113-128 | each forecaster runs the loop with its own row rule and reads the last row only in the feature-carrying variant (also project/algos/lstm_model_service.py:118-128 and project/Services/lstm_model_service.py:72-80); it fails exactly when a day is asked for and fewer than L rows exist, and prediction k is the network on the window after k rolls |
| LstmWindows.ForecastStuck | project/algorithms/lstm_model.py:119-124 | a pass that raises ends the loop with that error, discarding the predictions so far |
| LstmWindows.ForecastStepped | project/algorithms/lstm_model.py:119-128 | a successful pass moves its prediction from the loop to the output list |
| LstmWindows.WindowSlides | project/algorithms/lstm_model.py:128 | after k passes the window is the L consecutive rows starting at k of the initial window followed by all appended rows |
| LstmWindows.RollStep | project/algorithms/lstm_model.py:128 | each pass drops the previous window's oldest row and appends the newly grown row |
| LstmWindows.NewestRowIsLatestPrediction | project/algorithms/lstm_model.py:126-128 | after k ≥ 1 passes, the newest row's first column is the latest prediction |
| LstmWindows.CarriedFeaturesFrozen | project/Services/lstm_model_service.py:79-80 | in the feature-carrying variant, the non-close columns of the newest row stay those of the initial last row forever |
| LstmWindows.ForecastIsRolling | project/algorithms/lstm_model.py:116-128 | from a full non-empty window the loop never fails, and prediction k is the network applied to the window after k rolls |
| LstmWindows.ForecastFromOk | project/algorithms/lstm_model.py:116-128 | resumed from any rolled window the loop never fails |
| LstmWindows.ForecastFromAt | project/algorithms/lstm_model.py:116-128 | resumed after j rolls, prediction k is the network applied to the window after j + k rolls |
| LstmWindows.PredictSucceedsIff | project/algorithms/lstm_model.py:113-121 | for a positive sequence length, prediction succeeds exactly when no day is asked for or the data holds at least L rows |
| LstmWindows.LoadModel | project/algorithms/lstm_model.py:157-173 | a missing model or scaler file is exactly the error "No saved model found for <ticker>"; a loaded model had readable metadata, and without a `sequence_length` in it the length is 60; the only other error is a `ValueError` |
| LstmWindows.TrainedLengthIsLoaded | project/algorithms/lstm_model.py:77-90 | after training saves its metadata, loading reads back the recorded sequence length |
| ArimaSearch.ExogTickersOrDefault | project/algorithms/arima_model.py:51-52 | a given list, even an empty one, is kept; without one the exogenous series are GLD, QQQ, ^TNX in that order |
| ArimaSearch.DefaultExogColumns | project/algorithms/arima_model.py:51-52 | trained without a list, the model is predicted with GLD, QQQ, ^TNX as its exogenous columns, in that order |
| ArimaSearch.CandidatesAscending | project/algorithms/arima_model.py:74-82 | there are eight candidates, in strictly increasing lexicographic order |
| ArimaSearch.CandidatesAreTheGrid | project/algorithms/arima_model.py:74-82 | the candidates are exactly the orders with p, d, q in {0, 1} and P = D = Q = 0, each at its product position |
| ArimaSearch.GridSearch | project/algorithms/arima_model.py:78-105 | the search fails, with "all SARIMAX candidates failed", exactly when no candidate scored; otherwise its result is the strict-`<` argmin of the scored candidates |
| ArimaSearch.ChosenUnique | project/algorithms/arima_model.py:99-100 | the argmin is determined: only one candidate can be the chosen one |
| ArimaSearch.TiesGoToEarliest | project/algorithms/arima_model.py:99-100 | among candidates with the best score, the earliest in grid order is chosen |
| ArimaSearch.ParamsRecord | project/algorithms/arima_model.py:120-130 | `order` has three entries and `seasonal_order` four, the last being the period 7; the mse is kept exactly when the variant records it |
| ArimaSearch.ParamsRoundTrip | project/algorithms/arima_model.py:120-130 | reading the order back from the record gives the chosen order, and a recorded mse is the chosen one |
| ArimaSearch.NamesRoundTrip | project/Services/arima_model_service.py:125-135 | a list of names written as a JSON array reads back unchanged |
| ArimaSearch.ParamsMetadata | project/Services/arima_model_service.py:125-135 | the saved JSON holds the exogenous names under `exog_tickers` |
| ArimaSearch.ExogTickersOf | project/Services/arima_model_service.py:180 | `params['exog_tickers']` raises `KeyError` exactly when the key is absent; otherwise it fails only on a value that is not a list of names |
| ArimaSearch.ExogTickersRoundTrip | project/Services/arima_model_service.py:125-180 | the exogenous names written at training are the ones read back at prediction |
| ArimaForecast.Tile | project/algorithms/arima_model.py:143-145 | `np.tile(last_row, (days, 1))` raises `ValueError` exactly when `days` is negative, and otherwise has exactly `days` rows, each the last row |
| ArimaForecast.Label | project/algorithms/arima_model.py:143-152 | the frame is built exactly when `days` is not negative and there are as many names as columns, and then holds `days` copies of the row under those names; every failure is a `ValueError` |
| ArimaForecast.ClassFutureExog | project/algorithms/arima_model.py:136-152 | a missing model or exog pickle is exactly the error "No saved model found for <ticker>"; a success is `days` copies of the last stored exog row under the stored exogenous names; with both pickles present, a non-empty stored frame and loadable metadata, a negative `days` is a `ValueError` |
| ArimaForecast.ClassTile | project/algorithms/arima_model.py:140-152 | after loading, the frame repeats the last stored row under the stored names; a metadata error propagates; `np.tile` runs before `params['exog_tickers']` is read, so a negative `days` on a non-empty frame is a `ValueError` even when the names are missing |
| ArimaForecast.SaveClassArtifacts | project/algorithms/arima_model.py:165-180 | the class trainer adds the model and the exog frame as given, keeps every file already stored, and its metadata loads back as the params record with `last_updated` |
| ArimaForecast.ClassTrainThenPredict | project/algorithms/arima_model.py:136-180 | after the class trainer saves its artifacts, prediction labels the last training row with the training-time exogenous names; an empty history raises `IndexError` |
| ArimaForecast.StoredClassArtifacts | project/algorithms/arima_model.py:165-180 | the class trainer stores the model, the exog frame as given, and the params record with `last_updated` |
| ArimaForecast.ServiceFutureExog | project/Services/arima_model_service.py:172-198 | a missing model, exog or params file is exactly the "Model or exogenous data not found" error; a success repeats the last stored exog row under the names in the params JSON |
| ArimaForecast.ServiceTile | project/Services/arima_model_service.py:177-198 | after the existence check, a failure is never a `RuntimeError`, so the missing-artifact error is reserved for absent files. `KeyError` comes exactly when the key is absent. With the key present, an empty exog frame raises `IndexError` and a negative `days` raises `ValueError`, both before the key's value is used as labels |
| ArimaForecast.SaveServiceArtifacts | project/Services/arima_model_service.py:125-155 | the module-level trainer only adds files; nothing already stored disappears |
| ArimaForecast.StoredServiceArtifacts | project/Services/arima_model_service.py:125-155 | the three fixed files hold the model, the exog frame as given, and the params JSON |
| ArimaForecast.ServiceTrainThenPredict | project/Services/arima_model_service.py:125-198 | after the module-level trainer, prediction labels the last training row with the training-time names; an empty history raises `IndexError` |
| ArimaForecast.OutputKeys | project/algos/arima_model_service.py:206-211 | every entry point returns `dates` |
| ArimaForecast.PointForecastKeyMatches | project/Services/portfolio_prediction_service.py:58-61 | the key the portfolio predictor reads for ARIMA (`forecast_mean`) is returned by every entry point except the class in `algos`, which returns `forecast` |
| ArimaForecast.AlgosClassYieldsNoPrice | project/algos/arima_model_service.py:356-361 | wired into the portfolio predictor, that class never yields an ARIMA price |
| ArimaForecast.Reverse | project/algos/arima_model_service.py:42 | `alt[::-1]` has the same rows in reverse order |
| ArimaForecast.Fallback | project/algos/arima_model_service.py:39-44 | the fallback succeeds exactly when the source answers for the ticker without leading carets, and then returns its rows oldest first; any failure is "cannot retrieve data for <ticker>" |
| ArimaForecast.FetchFrom | project/algos/arima_model_service.py:21-44 | the sleeps recorded from try i on are increasing, between i + 1 and 3, and extend the earlier ones |
| ArimaForecast.FetchClose | project/algos/arima_model_service.py:21-44 | at most three sleeps, increasing, each between 1 and 3 seconds |
| ArimaForecast.FallbackOnlyAfterThreeSoftFailures | project/algos/arima_model_service.py:23-44 | when every remaining try returned an empty frame or a retried error, the result is the fallback's reversed series or "cannot retrieve data for <ticker>" |
| ArimaForecast.FirstDecisiveAttemptWins | project/algos/arima_model_service.py:23-37 | otherwise the first try that was not a soft failure decides: its non-empty series is returned or its error propagates |
| PortfolioPrediction.PointKey | project/Services/portfolio_prediction_service.py:53-66 | ARIMA's point forecast is read under `forecast_mean`, every other algorithm's under `forecast` |
| PortfolioPrediction.PredictStockPrice | project/Services/portfolio_prediction_service.py:44-72 | a price exactly when the model exists, the predictor returned, and its point-forecast list (`forecast_mean` for arima, else `forecast`) is present and non-empty; the price is that list's last element |
| PortfolioPrediction.WrongKeyYieldsNothing | project/Services/portfolio_prediction_service.py:58-61 | an ARIMA predictor without `forecast_mean` yields no price |
| PortfolioPrediction.RequiredAlgorithms | project/Services/portfolio_prediction_service.py:89-93 | average mode requires exactly lstm, arima and prophet, any other mode exactly itself, never twice |
| PortfolioPrediction.Mean | project/Services/portfolio_prediction_service.py:125 | the mean times the number of prices is their sum |
| PortfolioPrediction.MeanBetween | project/Services/portfolio_prediction_service.py:125 | the mean lies between any lower and upper bound of the prices |
| PortfolioPrediction.AvailablePrices | project/Services/portfolio_prediction_service.py:117-122 | the collected prices are empty exactly when no algorithm produced one, and each comes from some algorithm |
| PortfolioPrediction.PredictedPrice | project/Services/portfolio_prediction_service.py:115-133 | single mode uses that algorithm's price; average mode uses the mean of the available prices |
| PortfolioPrediction.AverageSkipsOnlyWhenNothingAvailable | project/Services/portfolio_prediction_service.py:124-127 | in average mode a holding is skipped exactly when no algorithm produced a price |
| PortfolioPrediction.AverageWithinAlgorithmPrices | project/Services/portfolio_prediction_service.py:115-127 | the averaged price lies between the least and largest available algorithm price |
| PortfolioPrediction.Position | project/Services/portfolio_prediction_service.py:136-150 | the position raises `ZeroDivisionError` exactly when quantity × purchase price is 0; otherwise it carries the holding, the price, and values with profit = predicted − current and percent = profit / current × 100 |
| PortfolioPrediction.PredictItems | project/Services/portfolio_prediction_service.py:110-153 | the loop's only error is `ZeroDivisionError`; it reports at most one well-formed position per holding |
| PortfolioPrediction.PredictItemsFails | project/Services/portfolio_prediction_service.py:110-153 | the loop raises exactly when some holding is priced but cost nothing |
| PortfolioPrediction.PredictItemsAppend | project/Services/portfolio_prediction_service.py:110-153 | the loop never reorders: predicting a + b is predicting a, then b, the first failure winning |
| PortfolioPrediction.FailureStops | project/Services/portfolio_prediction_service.py:110-153 | once a prefix of the holdings raises, the whole loop raises the same |
| PortfolioPrediction.PredictOne | project/Services/portfolio_prediction_service.py:110-153 | a single holding is skipped when unpriced, else reported as its position or raises |
| PortfolioPrediction.PricedHoldingReported | project/Services/portfolio_prediction_service.py:136-153 | a priced holding with a non-zero cost basis is reported as its position |
| PortfolioPrediction.EveryPricedHoldingReported | project/Services/portfolio_prediction_service.py:110-153 | when every holding is priced at non-zero cost, every holding is reported, in input order, duplicates included |
| PortfolioPrediction.TotalsOf | project/Services/portfolio_prediction_service.py:155-159 | totals are the sums of the positions' values, profit = predicted − current, and the percentage is 0 unless the current total is positive |
| PortfolioPrediction.TotalProfitIsSumOfPositions | project/Services/portfolio_prediction_service.py:156-158 | the total profit equals the sum of the positions' profits |
| PortfolioPrediction.PositiveHoldingsPositiveTotal | project/Services/portfolio_prediction_service.py:156-159 | holdings bought at positive quantity and price give a positive current total, so the total percentage is computed |
| PortfolioPrediction.Report | project/Services/portfolio_prediction_service.py:74-172 | any missing required model returns the missing map and required algorithms; otherwise the call fails exactly when some priced holding cost nothing, and else returns the positions the item loop computes, in item order, with their totals |
| PortfolioPrediction.PredictPortfolioEarnings | project/Services/portfolio_prediction_service.py:74-172 | the loops of the source compute the reference report |
| PortfolioPrediction.CollectTickers | project/Services/portfolio_prediction_service.py:87 | the ticker list holds every item's ticker once |
| PortfolioPrediction.PredictEach | project/Services/portfolio_prediction_service.py:110-153 | the item loop, stopping at the first failure, computes the reference loop |
| PortfolioPrediction.SingleLstmScenario | project/Services/portfolio_prediction_service.py:74-172 | 10 AAPL at 150 with a last LSTM forecast of 165 report 1500, 1650, 150 and 10 % |
| PortfolioPrediction.ZeroCostScenario | project/Services/portfolio_prediction_service.py:136-139 | the same holding bought at 0 makes the whole call raise `ZeroDivisionError` |
| PortfolioPrediction.MissingArimaScenario | project/Services/portfolio_prediction_service.py:96-104 | a ticker without an ARIMA model returns the missing map before any forecast |
| TickerAutocomplete.FilterOptions | Front/src/components/TickerAutocomplete.jsx:251-266 | an option is offered exactly when it matches case-insensitively; the result has at most one extra element, the upper-cased input, which free-solo mode always offers for a non-empty input |
| TickerAutocomplete.EmptyInputKeepsAll | Front/src/components/TickerAutocomplete.jsx:251-266 | the empty input offers every option, unchanged, and nothing more |
| TickerAutocomplete.InputCaseIgnored | Front/src/components/TickerAutocomplete.jsx:252-254 | upper-casing the input changes nothing |
| TickerAutocomplete.NoRepeatedSuggestions | Front/src/components/TickerAutocomplete.jsx:257-264 | a conditional statement: for an option list without repeats, the typed text never duplicates an offered option. The program's popular list does have repeats (see the two rows below) |
| TickerAutocomplete.MatchingKeepsRepeats | Front/src/components/TickerAutocomplete.jsx:252-254 | each listed option that matches is offered exactly as often as the list holds it, and one that does not match is not offered; the typed text never adds another copy. The popular list at lines 5-169 repeats AMZN, GLD, SLV, TLT and SHOP, so the picker offers each of them twice |
| TickerAutocomplete.RepeatedTickerOfferedTwice | Front/src/components/TickerAutocomplete.jsx:251-266 | typing `gld` against the two GLD entries and GOOG offers GLD twice and nothing else, in free-solo mode as well |
| Seqs.FilterMultiplicity | Front/src/components/TickerAutocomplete.jsx:252-254 | `Array.prototype.filter` keeps every copy of a kept element and drops every copy of the others |
| TickerAutocomplete.SuggestionsInListOrder | Front/src/components/TickerAutocomplete.jsx:252-254 | the matches keep the list's order |
| TickerAutocomplete.HandleChange | Front/src/components/TickerAutocomplete.jsx:188-196 | multiple mode passes the value through; single mode turns nothing into the empty text and passes anything else through |
| TickerAutocomplete.HandleChangeIdempotent | Front/src/components/TickerAutocomplete.jsx:188-196 | handling an already handled value again changes nothing |
| PortfolioPage.PortfolioValue | Front/src/pages/PortfolioPage.jsx:235-241 | no portfolio or no items is worth 0, a single item is worth its quantity times price, and non-negative holdings are worth at least 0 |
| PortfolioPage.ValueOfSnoc | Front/src/pages/PortfolioPage.jsx:235-241 | one more item raises the value by its quantity times price |
| PortfolioPage.ValueNonNegative | Front/src/pages/PortfolioPage.jsx:235-241 | holdings with non-negative quantities and prices are worth at least 0 |
| PortfolioPage.Find | Front/src/pages/PortfolioPage.jsx:128-130 | `find` yields nothing exactly when no portfolio has the id, else the first portfolio of the list with that id |
| PortfolioPage.EditSelected | Front/src/pages/PortfolioPage.jsx:122-126 | only the selected portfolio's items change; the update throws exactly when a selected portfolio has no items |
| PortfolioPage.AddItem | Front/src/pages/PortfolioPage.jsx:122-126 | the selected portfolio gains the server's item at the end, the others are unchanged; it throws exactly when a selected portfolio has no items |
| PortfolioPage.UpdateItem | Front/src/pages/PortfolioPage.jsx:158-167 | in the selected portfolio exactly the items with the edited id become the server's answer, in place; other portfolios are unchanged |
| PortfolioPage.RemoveItem | Front/src/pages/PortfolioPage.jsx:189 | no item with the id remains and every other item does |
| PortfolioPage.DeleteItem | Front/src/pages/PortfolioPage.jsx:187-191 | the selected portfolio holds no item with the id afterwards, the others are unchanged; it throws exactly when a selected portfolio has no items |
| PortfolioPage.ReplaceItem | Front/src/pages/PortfolioPage.jsx:162-164 | exactly the items with the edited id become the server's answer, positions kept |
| PortfolioPage.RemoveAbsent | Front/src/pages/PortfolioPage.jsx:189 | deleting an id that no item has changes nothing |
| PortfolioPage.DeleteUndoesAdd | Front/src/pages/PortfolioPage.jsx:187-191 | deleting an item just added under a fresh id restores the list |
| PortfolioPage.AddRaisesValue | Front/src/pages/PortfolioPage.jsx:122-130 | after adding, the re-found selection is worth its old value plus the new item's cost |
| PortfolioPage.UpdateKeepsIds | Front/src/pages/PortfolioPage.jsx:158-167 | an answer keeping the id keeps every portfolio's item ids, in order |
| PortfolioPage.UpdateIdempotent | Front/src/pages/PortfolioPage.jsx:158-167 | applying the same update twice is applying it once |
| PortfolioPage.DeleteRemovesItem | Front/src/pages/PortfolioPage.jsx:187-191 | after deletion the selected portfolio holds no item with that id and keeps the others in order |
| PortfolioPage.DeletePortfolio | Front/src/pages/PortfolioPage.jsx:87-93 | the portfolio leaves the list, no other does, and the rest keep their order; a deleted selection falls back to the earliest portfolio with another id, or to nothing |
| PortfolioPage.CreatePortfolio | Front/src/pages/PortfolioPage.jsx:62-79 | a blank name changes nothing; otherwise the server's portfolio is appended after the existing ones and selected |
| PortfolioPage.BlankIffAllSpace | Front/src/pages/PortfolioPage.jsx:64 | `!name.trim()` holds exactly when every character of the name is whitespace |
| PortfolioPage.DeleteUndoesCreate | Front/src/pages/PortfolioPage.jsx:62-93 | deleting a portfolio just created under a fresh id restores the list |
| PortfolioPage.AddItemRequest | Front/src/pages/PortfolioPage.jsx:102-118 | a request is sent exactly when a portfolio is selected and ticker, quantity and price are filled; its ticker is the typed one upper-cased |

## Left out

- Model fitting and inference are oracles or absent: SARIMAX, Keras, Prophet,
  MinMaxScaler and `mean_squared_error`. The network is a function of the
  window, and each grid candidate's outcome is given. Floating-point
  arithmetic is mathematical real arithmetic.
- Market data (yfinance, pandas_datareader) are parameters. So are the
  rolling-feature preparation and the frame plumbing (`asfreq`, `ffill`,
  `concat`, `dropna`). The retry sleeps are recorded, not performed.
- The file system, pickle, joblib, HDF5 and JSON serialisation are an
  abstract map from path to content. `os.makedirs` is not modelled. Malformed
  JSON is a single `ValueError`. A missing Keras model file is assumed to
  surface as `FileNotFoundError`, as the code's `except` expects.
- `datetime.now()` is a parameter of `SaveMetadata`. Business-day date
  generation (`pd.date_range`, `BDay`) and the `dates` lists are not
  modelled.
- The per-algorithm predictors and the three model listings are parameters of
  the portfolio predictor. In the source, `project/Services/portfolio_prediction_service.py`
  imports `list_trained_models` from modules that do not define it, and it
  calls `predict_next_days` with a `ticker` argument that those functions do
  not take. The model does not bind to those modules.
- The order of the deduplicated tickers from `set(...)` is unspecified.
  `GetMissingModels` returns a map and `CollectTickers` states only which
  tickers it holds.
- `LstmWindows.LoadModel`: a `sequence_length` in the metadata that is not an
  integer is reported as a `ValueError` rather than failing later in `reshape`.
- LstmWindows: a negative number of days is not modelled (`days` is a
  `nat`). For such a value the `range(days)` loop does not run, and the
  Services variant then raises `ValueError` from `np.zeros((days, …))` at
  project/Services/lstm_model_service.py:83. The other variants pass the
  empty forecast on to the scaler and to `pd.date_range` with negative
  `periods`, which are outside this model.
- LstmWindows: a negative `sequence_length` is not modelled: the window
  builders take the length as a `nat`. `train` accepts any `int`
  (project/algorithms/lstm_model.py:42), and for a negative value Python's
  `range` and negative slicing would build windows that the model does not
  describe. `LoadModel` still reads back whatever integer was recorded.
- ArimaSearch.ExogTickersOf: any `exog_tickers` value other than a list of
  names is reported as a `ValueError`. pandas would instead label the frame
  with a list of other values (numbers, say) and raise `TypeError` for a bare
  string. The metadata written by the trainers always holds a list of names.
- The default `days` arguments (10, 20 and 30) are not modelled: every
  modelled operation takes the number of days explicitly.
- LstmWindows.PredictVariant: rows always hold the close column, so a frame
  without columns (which would make the zero-feature row raise) is not modelled.
- `ArimaForecast.OutputKeys` states only that `dates` is always present. The
  full key sets per entry point are its definition, and
  `PointForecastKeyMatches` states the part the portfolio predictor relies on.
- Case mapping, trimming and substring search cover ASCII letters and the
  common whitespace characters, not all of Unicode. `parseFloat` is not
  modelled: the add-item request carries the typed text.
- Server round trips of the portfolio page (axios, authentication), React
  rendering, confirmations and modals are left out. The server's answer is
  a parameter of each list update.
- Prophet, the HTTP servers, the plotting scripts and the TA35 helpers are not
  part of this model. Prophet's only role in the core is its model listing
  and its predictor, and both are parameters.
