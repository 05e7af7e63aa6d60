/** The sliding-window logic of the three LSTM forecasters: building
    (window, target) training pairs, taking the last `L` rows as the first
    forecast window, and the autoregressive roll that drops the oldest row and
    appends a row carrying the new prediction. The network is an oracle from
    a window to the next scaled close. */
module LstmWindows {
  import opened Wrappers
  import opened Seqs
  import opened Artifacts

  type Row = seq<real>

  const DefaultSequenceLength := 60

  datatype Sample = Sample(window: seq<Row>, target: real)

  /** `build_sequences` and the inline builder: for each `i` in
      `range(L, len(data))` the window `data[i-L:i]` and the target
      `data[i, 0]`. A row without columns makes `data[i, 0]` raise. */
  method BuildSequences(data: seq<Row>, L: nat) returns (r: Result<seq<Sample>>)
    ensures r.Ok? <==> forall i :: L <= i < |data| ==> |data[i]| > 0
    ensures r.Err? ==> r.error == IndexError
    ensures r.Ok? ==> |r.value| == (if |data| > L then |data| - L else 0)
    ensures r.Ok? ==> forall k :: 0 <= k < |r.value| ==>
      && |r.value[k].window| == L
      && r.value[k].window == data[k..k + L]
      && r.value[k].target == data[k + L][0]
  {
    var samples: seq<Sample> := [];
    if |data| <= L {
      return Ok(samples);
    }
    var i := L;
    while i < |data|
      invariant L <= i <= |data|
      invariant forall j :: L <= j < i ==> |data[j]| > 0
      invariant |samples| == i - L
      invariant forall k :: 0 <= k < |samples| ==> samples[k] == Sample(data[k..k + L], data[k + L][0])
    {
      if |data[i]| == 0 {
        return Err(IndexError);
      }
      samples := samples + [Sample(data[i - L..i], data[i][0])];
      i := i + 1;
    }
    return Ok(samples);
  }

  /** `data[-L:]`: the last `L` rows, except that `data[-0:]` is the whole
      array and a short array is returned whole. */
  function LastRows<T>(data: seq<T>, L: nat): (r: seq<T>)
    ensures |r| <= |data| && r == data[|data| - |r|..]
    ensures |r| == (if L == 0 || L > |data| then |data| else L)
  {
    if L == 0 || L > |data| then data else data[|data| - L..]
  }

  /** What the appended row carries beyond the prediction in column 0. */
  datatype RowRule =
    | ZeroFeatures   // the remaining columns are zero
    | CloseOnly      // the row is the prediction alone
    | CarryFeatures  // the remaining columns repeat the previous last row

  /** The row appended after predicting `pred`, given the current last row;
      `extra` is the number of feature columns beside the close. */
  function NextRow(rule: RowRule, extra: nat, pred: real, last: Row): Row
  {
    match rule
    case ZeroFeatures => [pred] + Zeros(extra)
    case CloseOnly => [pred]
    case CarryFeatures => [pred] + (if |last| == 0 then [] else last[1..])
  }

  /** The appended row starts with the prediction; the other columns are
      zeros, absent, or copied from the previous last row, by variant. */
  lemma NextRowShape(rule: RowRule, extra: nat, pred: real, last: Row)
    ensures var row := NextRow(rule, extra, pred, last);
      && |row| >= 1 && row[0] == pred
      && (rule.ZeroFeatures? ==> |row| == extra + 1 && forall j :: 1 <= j <= extra ==> row[j] == 0.0)
      && (rule.CloseOnly? ==> row == [pred])
      && (rule.CarryFeatures? && |last| >= 1 ==> |row| == |last| && row[1..] == last[1..])
  {
  }

  /** `n` zero columns. */
  function Zeros(n: nat): (r: seq<real>)
    ensures |r| == n && forall j :: 0 <= j < n ==> r[j] == 0.0
  {
    if n == 0 then [] else Zeros(n - 1) + [0.0]
  }

  /** How each forecaster grows its window: the row appended after
      predicting `pred` from `window`. */
  function Grow(rule: RowRule, extra: nat): (real, seq<Row>) -> Row
  {
    (pred: real, window: seq<Row>) => NextRow(rule, extra, pred, if |window| == 0 then [] else Last(window))
  }

  /** `window[1:]`: an empty window stays empty. */
  function DropOldest<T>(window: seq<T>): (r: seq<T>)
    ensures |window| > 0 ==> r == window[1..]
    ensures |window| == 0 ==> r == []
  {
    if |window| == 0 then [] else window[1..]
  }

  /* The prediction loop below is stated for any kind of row `R`: `net` is
     the trained network (window in, next scaled close out), `grow` builds
     the appended row, and `readsLast` says whether building it reads the
     window's last row. `PredictVariant` instantiates it for the three
     forecasters. */

  /** The outcome of one pass of the prediction loop: the error it raises,
      or the prediction and the window for the next pass. */
  datatype Step<R> = Stuck(error: Exception) | Stepped(pred: real, next: seq<R>)

  /** One pass of the loop of `predict` / `predict_next_days`: reshape the
      window to `(1, L, width)`, which raises unless the window holds exactly
      `L` rows; predict; drop the oldest row and append the grown row.
      Reading the last row of an empty window raises. */
  function StepWindow<R>(net: seq<R> -> real, grow: (real, seq<R>) -> R, readsLast: bool, L: nat, window: seq<R>): (s: Step<R>)
    ensures s.Stuck? <==> |window| != L || (readsLast && |window| == 0)
    ensures s.Stuck? ==> s.error == if |window| != L then ValueError("cannot reshape the forecast window") else IndexError
    ensures s.Stepped? ==> s.pred == net(window)
  {
    if |window| != L then Stuck(ValueError("cannot reshape the forecast window"))
    else if readsLast && |window| == 0 then Stuck(IndexError)
    else
      var pred := net(window);
      Stepped(pred, DropOldest(window) + [grow(pred, window)])
  }

  /** The prediction loop run for `days` passes from `window`. */
  function Forecast<R>(net: seq<R> -> real, grow: (real, seq<R>) -> R, readsLast: bool, L: nat, window: seq<R>, days: nat): (r: Result<seq<real>>)
    ensures r.Ok? ==> |r.value| == days
    ensures r.Err? ==> days > 0 && (r.error.ValueError? || r.error == IndexError)
    decreases days
  {
    if days == 0 then Ok([])
    else
      match StepWindow(net, grow, readsLast, L, window)
      case Stuck(e) => Err(e)
      case Stepped(pred, next) => Prepend([pred], Forecast(net, grow, readsLast, L, next, days - 1))
  }

  function Prepend(preds: seq<real>, r: Result<seq<real>>): Result<seq<real>>
  {
    match r
    case Ok(rest) => Ok(preds + rest)
    case Err(e) => Err(e)
  }

  /** The loop as written: start from `data[-L:]`, append each prediction. */
  method Predict<R>(net: seq<R> -> real, grow: (real, seq<R>) -> R, readsLast: bool, data: seq<R>, L: nat, days: nat)
    returns (r: Result<seq<real>>)
    ensures r == Forecast(net, grow, readsLast, L, LastRows(data, L), days)
  {
    var window := LastRows(data, L);
    ghost var target := Forecast(net, grow, readsLast, L, window, days);
    var predictions: seq<real> := [];
    var left := days;
    PrependNothing(target);
    while left > 0
      invariant Prepend(predictions, Forecast(net, grow, readsLast, L, window, left)) == target
    {
      match StepWindow(net, grow, readsLast, L, window)
      case Stuck(e) =>
        ForecastStuck(net, grow, readsLast, L, window, left, predictions);
        return Err(e);
      case Stepped(pred, next) =>
        ForecastStepped(net, grow, readsLast, L, window, left, predictions);
        predictions := predictions + [pred];
        window := next;
        left := left - 1;
    }
    PrependNoMore(predictions);
    return Ok(predictions);
  }

  /** A pass that raises ends the loop with that error, whatever was
      predicted before. */
  lemma ForecastStuck<R>(net: seq<R> -> real, grow: (real, seq<R>) -> R, readsLast: bool, L: nat, window: seq<R>, days: nat, done: seq<real>)
    requires days > 0 && StepWindow(net, grow, readsLast, L, window).Stuck?
    ensures Prepend(done, Forecast(net, grow, readsLast, L, window, days)) == Err(StepWindow(net, grow, readsLast, L, window).error)
  {
  }

  /** A pass that succeeds moves its prediction from the loop to the list. */
  lemma ForecastStepped<R>(net: seq<R> -> real, grow: (real, seq<R>) -> R, readsLast: bool, L: nat, window: seq<R>, days: nat, done: seq<real>)
    requires days > 0 && StepWindow(net, grow, readsLast, L, window).Stepped?
    ensures var s := StepWindow(net, grow, readsLast, L, window);
      Prepend(done, Forecast(net, grow, readsLast, L, window, days))
      == Prepend(done + [s.pred], Forecast(net, grow, readsLast, L, s.next, days - 1))
  {
    var s := StepWindow(net, grow, readsLast, L, window);
    PrependTwice(done, [s.pred], Forecast(net, grow, readsLast, L, s.next, days - 1));
  }

  lemma PrependNoMore(done: seq<real>)
    ensures Prepend(done, Ok([])) == Ok(done)
  {
    assert done + [] == done;
  }

  lemma PrependNothing(r: Result<seq<real>>)
    ensures Prepend([], r) == r
  {
    if r.Ok? {
      assert [] + r.value == r.value;
    }
  }

  lemma PrependTwice(a: seq<real>, b: seq<real>, r: Result<seq<real>>)
    ensures Prepend(a, Prepend(b, r)) == Prepend(a + b, r)
  {
    if r.Ok? {
      assert a + (b + r.value) == (a + b) + r.value;
    }
  }

  /** One roll of a non-empty window: drop the oldest row, append the new one. */
  function Roll<R>(net: seq<R> -> real, grow: (real, seq<R>) -> R, window: seq<R>): (r: seq<R>)
    requires |window| > 0
    ensures |r| == |window|
  {
    window[1..] + [grow(net(window), window)]
  }

  /** The window after `k` predictions. */
  function WindowAfter<R>(net: seq<R> -> real, grow: (real, seq<R>) -> R, w0: seq<R>, k: nat): (r: seq<R>)
    requires |w0| > 0
    ensures |r| == |w0|
  {
    if k == 0 then w0 else Roll(net, grow, WindowAfter(net, grow, w0, k - 1))
  }

  /** The rows appended during the first `k` predictions, oldest first. */
  function Appended<R>(net: seq<R> -> real, grow: (real, seq<R>) -> R, w0: seq<R>, k: nat): (r: seq<R>)
    requires |w0| > 0
    ensures |r| == k
  {
    if k == 0 then []
    else
      Appended(net, grow, w0, k - 1) + [Last(WindowAfter(net, grow, w0, k))]
  }

  /** The window always holds `L` consecutive rows of the initial window
      followed by the appended rows: after `k` steps it is rows `k .. k+L`. */
  lemma {:induction false} WindowSlides<R>(net: seq<R> -> real, grow: (real, seq<R>) -> R, w0: seq<R>, k: nat)
    requires |w0| > 0
    ensures WindowAfter(net, grow, w0, k) == (w0 + Appended(net, grow, w0, k))[k..k + |w0|]
  {
    if k > 0 {
      WindowSlides(net, grow, w0, k - 1);
      var all := w0 + Appended(net, grow, w0, k - 1);
      var row := Last(WindowAfter(net, grow, w0, k));
      RollStep(net, grow, w0, k);
      assert w0 + Appended(net, grow, w0, k) == all + [row];
      SlideOne(all, row, k, |w0|);
    }
  }

  /** Step `k` drops the oldest row of the previous window and appends the
      row it records as appended. */
  lemma RollStep<R>(net: seq<R> -> real, grow: (real, seq<R>) -> R, w0: seq<R>, k: nat)
    requires |w0| > 0 && k >= 1
    ensures var row := Last(WindowAfter(net, grow, w0, k));
      && WindowAfter(net, grow, w0, k) == WindowAfter(net, grow, w0, k - 1)[1..] + [row]
      && Appended(net, grow, w0, k) == Appended(net, grow, w0, k - 1) + [row]
  {
  }

  /** Sliding a window that ends at the end of `all` one step further, after
      appending `x`: drop the oldest element, append `x`. */
  lemma SlideOne<T>(all: seq<T>, x: T, k: nat, n: nat)
    requires 1 <= k && k - 1 + n == |all| && n >= 1
    ensures (all + [x])[k..k + n] == all[k - 1..k - 1 + n][1..] + [x]
  {
  }

  /** The newest row of the window after `k >= 1` steps is the row appended
      last, whose column 0 is the latest prediction. */
  lemma NewestRowIsLatestPrediction(net: seq<Row> -> real, rule: RowRule, extra: nat, w0: seq<Row>, k: nat)
    requires |w0| > 0 && k >= 1
    ensures var prev := WindowAfter(net, Grow(rule, extra), w0, k - 1);
      |Last(WindowAfter(net, Grow(rule, extra), w0, k))| >= 1
      && Last(WindowAfter(net, Grow(rule, extra), w0, k))[0] == net(prev)
  {
    var prev := WindowAfter(net, Grow(rule, extra), w0, k - 1);
    NextRowShape(rule, extra, net(prev), Last(prev));
  }

  /** In the feature-carrying variant the non-close columns never change:
      every appended row repeats columns `1..` of the initial last row. */
  lemma {:induction false} CarriedFeaturesFrozen(net: seq<Row> -> real, extra: nat, w0: seq<Row>, k: nat)
    requires |w0| > 0 && |Last(w0)| >= 1
    ensures |Last(WindowAfter(net, Grow(CarryFeatures, extra), w0, k))| == |Last(w0)|
    ensures Last(WindowAfter(net, Grow(CarryFeatures, extra), w0, k))[1..] == Last(w0)[1..]
  {
    if k > 0 {
      CarriedFeaturesFrozen(net, extra, w0, k - 1);
      var prev := WindowAfter(net, Grow(CarryFeatures, extra), w0, k - 1);
      NextRowShape(CarryFeatures, extra, net(prev), Last(prev));
    }
  }

  /** With a full, non-empty first window the loop never fails, and the
      `k`-th prediction is the network applied to the window after `k` rolls. */
  lemma ForecastIsRolling<R>(net: seq<R> -> real, grow: (real, seq<R>) -> R, readsLast: bool, w0: seq<R>, days: nat)
    requires |w0| > 0
    ensures Forecast(net, grow, readsLast, |w0|, w0, days).Ok?
    ensures forall k :: 0 <= k < days ==>
      Forecast(net, grow, readsLast, |w0|, w0, days).value[k] == net(WindowAfter(net, grow, w0, k))
  {
    ForecastFromOk(net, grow, readsLast, w0, 0, days);
    forall k | 0 <= k < days
      ensures Forecast(net, grow, readsLast, |w0|, w0, days).value[k] == net(WindowAfter(net, grow, w0, k))
    {
      ForecastFromAt(net, grow, readsLast, w0, 0, days, k);
    }
  }

  /** The loop resumed from the window after `j` rolls never fails. */
  lemma {:induction false} ForecastFromOk<R>(net: seq<R> -> real, grow: (real, seq<R>) -> R, readsLast: bool, w0: seq<R>, j: nat, days: nat)
    requires |w0| > 0
    ensures Forecast(net, grow, readsLast, |w0|, WindowAfter(net, grow, w0, j), days).Ok?
    decreases days
  {
    if days > 0 {
      ForecastStep(net, grow, readsLast, WindowAfter(net, grow, w0, j), days);
      ForecastFromOk(net, grow, readsLast, w0, j + 1, days - 1);
    }
  }

  /** Resumed from the window after `j` rolls, the loop's `k`-th prediction
      comes from the window after `j + k` rolls. */
  lemma {:induction false} ForecastFromAt<R>(net: seq<R> -> real, grow: (real, seq<R>) -> R, readsLast: bool, w0: seq<R>, j: nat, days: nat, k: nat)
    requires |w0| > 0 && k < days
    requires Forecast(net, grow, readsLast, |w0|, WindowAfter(net, grow, w0, j), days).Ok?
    ensures Forecast(net, grow, readsLast, |w0|, WindowAfter(net, grow, w0, j), days).value[k]
         == net(WindowAfter(net, grow, w0, j + k))
    decreases k
  {
    var w := WindowAfter(net, grow, w0, j);
    ForecastStep(net, grow, readsLast, w, days);
    if k > 0 {
      var rest := Forecast(net, grow, readsLast, |w0|, WindowAfter(net, grow, w0, j + 1), days - 1);
      ForecastFromAt(net, grow, readsLast, w0, j + 1, days - 1, k - 1);
      assert rest.value[k - 1] == net(WindowAfter(net, grow, w0, j + k));
    }
  }

  /** One unfolding of the loop on a full, non-empty window. */
  lemma ForecastStep<R>(net: seq<R> -> real, grow: (real, seq<R>) -> R, readsLast: bool, w0: seq<R>, days: nat)
    requires |w0| > 0 && days > 0
    ensures Forecast(net, grow, readsLast, |w0|, w0, days)
         == Prepend([net(w0)], Forecast(net, grow, readsLast, |w0|, Roll(net, grow, w0), days - 1))
  {
    assert StepWindow(net, grow, readsLast, |w0|, w0) == Stepped(net(w0), Roll(net, grow, w0));
  }

  /** For a positive sequence length, prediction fails exactly when there
      is at least one day to predict and fewer than `L` rows of history. */
  lemma PredictSucceedsIff<R>(net: seq<R> -> real, grow: (real, seq<R>) -> R, readsLast: bool, data: seq<R>, L: nat, days: nat)
    requires L > 0
    ensures Forecast(net, grow, readsLast, L, LastRows(data, L), days).Ok? <==> days == 0 || L <= |data|
  {
    if L <= |data| {
      ForecastIsRolling(net, grow, readsLast, LastRows(data, L), days);
    }
  }

  /** One of the three forecasters as the source wires it: rows hold the
      close and `extra` feature columns, the appended row is built by the
      variant's rule, and only the feature-carrying variant reads the
      window's last row to build it. With a positive sequence length it
      fails exactly when there is a day to predict and fewer than `L` rows,
      and otherwise prediction `k` is the network applied to the window
      after `k` rolls. */
  method PredictVariant(rule: RowRule, net: seq<Row> -> real, extra: nat, data: seq<Row>, L: nat, days: nat)
    returns (r: Result<seq<real>>)
    ensures r == Forecast(net, Grow(rule, extra), rule.CarryFeatures?, L, LastRows(data, L), days)
    ensures L > 0 ==> (r.Ok? <==> days == 0 || L <= |data|)
    ensures r.Ok? ==> |r.value| == days
    ensures 0 < L <= |data| ==> r.Ok? && forall k :: 0 <= k < days ==>
      r.value[k] == net(WindowAfter(net, Grow(rule, extra), LastRows(data, L), k))
  {
    r := Predict(net, Grow(rule, extra), rule.CarryFeatures?, data, L, days);
    if L > 0 {
      PredictSucceedsIff(net, Grow(rule, extra), rule.CarryFeatures?, data, L, days);
    }
    if 0 < L <= |data| {
      ForecastIsRolling(net, Grow(rule, extra), rule.CarryFeatures?, LastRows(data, L), days);
    }
  }

  const ModelFile := "model.h5"
  const ScalerFile := "scaler.pkl"
  const SequenceLengthKey := "sequence_length"

  /** `load_model` of the per-ticker LSTM classes: both artifact files must
      exist in the ticker's `lstm` directory, otherwise the missing file is
      reported as "No saved model found for <ticker>"; the sequence length
      comes from the metadata, 60 when the key is absent. */
  function LoadModel(store: Store, base: string, ticker: string): (r: Result<int>)
    ensures var dir := ModelDir(base, "lstm", ticker);
      (Join(dir, ModelFile) !in store || Join(dir, ScalerFile) !in store)
      <==> r == Err(RuntimeError("No saved model found for " + ticker))
    ensures r.Ok? ==> LoadMetadata(store, base, "lstm", ticker).Ok?
    ensures r.Ok? && SequenceLengthKey !in LoadMetadata(store, base, "lstm", ticker).value ==> r.value == DefaultSequenceLength
    ensures r.Err? ==> r.error.RuntimeError? || r.error.ValueError?
  {
    var dir := ModelDir(base, "lstm", ticker);
    if Join(dir, ModelFile) !in store || Join(dir, ScalerFile) !in store then
      Err(RuntimeError("No saved model found for " + ticker))
    else
      match LoadMetadata(store, base, "lstm", ticker)
      case Err(e) => Err(e)
      case Ok(md) =>
        if SequenceLengthKey !in md then Ok(DefaultSequenceLength)
        else if md[SequenceLengthKey].Integer? then Ok(md[SequenceLengthKey].integer)
        else Err(ValueError("sequence_length is not an integer"))
  }

  /** Training records the sequence length, so loading after training reads
      it back instead of the default. */
  lemma TrainedLengthIsLoaded(store: Store, base: string, ticker: string, metadata: Metadata, now: string, L: int)
    requires SequenceLengthKey in metadata && metadata[SequenceLengthKey] == Integer(L)
    requires var dir := ModelDir(base, "lstm", ticker);
      Join(dir, ModelFile) in store && Join(dir, ScalerFile) in store
    ensures LoadModel(SaveMetadata(store, base, "lstm", ticker, metadata, now).0, base, ticker) == Ok(L)
  {
    var (store', saved) := SaveMetadata(store, base, "lstm", ticker, metadata, now);
    SaveThenLoad(store, base, "lstm", ticker, metadata, now);
    assert saved[SequenceLengthKey] == Integer(L);
  }
}
