/** The 90 % chronological train/test split shared by the LSTM trainers and
    the ARIMA grid search. */
module TrainTest {

  /** `int(0.9 * n)` (written `int(len(y) * 0.9)` in the ARIMA trainers).
      The double nearest 0.9 lies slightly above 0.9, so for every length a
      series can have the truncated product is exactly `floor(9n/10)`. */
  function SplitIndex(n: nat): (k: nat)
    ensures 10 * k <= 9 * n < 10 * (k + 1)
    ensures k <= n
    ensures n >= 1 ==> k < n
    ensures k == 0 <==> n <= 1
  {
    (9 * n) / 10
  }

  /** `xs[:split], xs[split:]`. */
  function Split<T>(xs: seq<T>): (r: (seq<T>, seq<T>))
    ensures r.0 + r.1 == xs
    ensures |r.0| == SplitIndex(|xs|)
    ensures |xs| >= 1 ==> |r.1| >= 1
  {
    var k := SplitIndex(|xs|);
    (xs[..k], xs[k..])
  }

  /** The target series and the exogenous frame are cut at the same row, so
      every training row keeps its exogenous values and every test row its own. */
  lemma SplitAligned<T, U>(y: seq<T>, x: seq<U>)
    requires |y| == |x|
    ensures |Split(y).0| == |Split(x).0| && |Split(y).1| == |Split(x).1|
    ensures forall i :: 0 <= i < |Split(y).1| ==> Split(y).1[i] == y[SplitIndex(|y|) + i] && Split(x).1[i] == x[SplitIndex(|x|) + i]
  {
  }
}
