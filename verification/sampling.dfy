/** Empirical imputation shared by lanes and building levels: a pool of the positive observed
    values, their relative weights, and one random draw per missing value. */
module Sampling {
  import opened Wrappers
  import opened Seqs

  function Sum(xs: seq<int>): int
    decreases |xs|
  {
    if |xs| == 0 then 0 else xs[0] + Sum(xs[1..])
  }

  function SumReal(xs: seq<real>): real
    decreases |xs|
  {
    if |xs| == 0 then 0.0 else xs[0] + SumReal(xs[1..])
  }

  /** The strictly positive values, in order: the rows kept by `df[df[col] > 0]`. */
  function PositivePool(values: seq<int>): (pool: seq<int>)
    ensures |pool| <= |values|
    ensures forall i :: 0 <= i < |pool| ==> pool[i] > 0
    ensures forall v :: v in pool <==> v in values && v > 0
  {
    Filter(values, v => v > 0)
  }

  lemma {:induction false} SumPositive(pool: seq<int>)
    requires |pool| > 0
    requires forall i :: 0 <= i < |pool| ==> pool[i] > 0
    ensures Sum(pool) > 0
    decreases |pool|
  {
    if |pool| > 1 {
      SumPositive(pool[1..]);
    }
  }

  /** Every value divided by `total`: `np.true_divide(pool, total)`. */
  function Scale(pool: seq<int>, total: int): (w: seq<real>)
    requires total != 0
    ensures |w| == |pool|
    ensures forall i :: 0 <= i < |w| ==> w[i] == pool[i] as real / total as real
    decreases |pool|
  {
    if |pool| == 0 then []
    else [pool[0] as real / total as real] + Scale(pool[1..], total)
  }

  lemma {:induction false} SumOfScale(pool: seq<int>, total: int)
    requires total != 0
    ensures SumReal(Scale(pool, total)) == Sum(pool) as real / total as real
    decreases |pool|
  {
    if |pool| > 0 {
      var w := Scale(pool, total);
      assert w[1..] == Scale(pool[1..], total);
      SumOfScale(pool[1..], total);
    }
  }

  /** Scaling a positive pool by its own total gives positive shares of that total. */
  lemma {:induction false} ScaleByTotal(pool: seq<int>)
    requires |pool| > 0
    requires forall i :: 0 <= i < |pool| ==> pool[i] > 0
    ensures Sum(pool) > 0
    ensures forall i :: 0 <= i < |pool| ==> Scale(pool, Sum(pool))[i] > 0.0
    ensures SumReal(Scale(pool, Sum(pool))) == 1.0
  {
    SumPositive(pool);
    var t := Sum(pool) as real;
    var w := Scale(pool, Sum(pool));
    forall i | 0 <= i < |pool|
      ensures w[i] > 0.0
    {
      var p := pool[i] as real;
      assert w[i] == p / t;
      QuotientFacts(p, t);
    }
    SumOfScale(pool, Sum(pool));
    QuotientFacts(t, t);
  }

  lemma QuotientFacts(p: real, t: real)
    requires p > 0.0 && t > 0.0
    ensures p / t > 0.0
    ensures p == t ==> p / t == 1.0
  {
  }

  /** The probabilities handed to `np.random.choice`: each positive value over the sum of the
      positive values. */
  function Weights(values: seq<int>): (w: seq<real>)
    ensures |w| == |PositivePool(values)|
    ensures |w| > 0 ==> Sum(PositivePool(values)) > 0
    ensures forall i :: 0 <= i < |w| ==> w[i] > 0.0
    ensures forall i :: 0 <= i < |w| ==>
      w[i] == PositivePool(values)[i] as real / Sum(PositivePool(values)) as real
  {
    var pool := PositivePool(values);
    if |pool| == 0 then []
    else
      ScaleByTotal(pool);
      Scale(pool, Sum(pool))
  }

  /** The weights of a non-empty pool form a probability distribution. */
  lemma WeightsSumToOne(values: seq<int>)
    requires |PositivePool(values)| > 0
    ensures SumReal(Weights(values)) == 1.0
  {
    ScaleByTotal(PositivePool(values));
  }

  /** One `np.random.choice(pool, 1, p=weights)` draw. The generator's output is the parameter
      `choice`; only the fact that the value comes from the pool is kept. */
  function Draw(pool: seq<int>, choice: nat): (v: int)
    requires |pool| > 0
    ensures v in pool
  {
    pool[choice % |pool|]
  }

  /** Every pool entry is a possible draw, so the model does not narrow the random choice. */
  lemma DrawReachesPool(pool: seq<int>, k: nat)
    requires k < |pool|
    ensures Draw(pool, k) == pool[k]
  {
  }

  /** Replaces every value `missing` flags by a draw from `pool`, the `i`-th row using `choose(i)`.
      An empty pool raises `ValueError` as soon as a value has to be drawn. */
  function Impute(values: seq<int>, missing: int -> bool, pool: seq<int>, choose: nat -> nat): (r: Result<seq<int>>)
    ensures r.Err? <==> |pool| == 0 && exists i :: 0 <= i < |values| && missing(values[i])
    ensures r.Ok? ==> |r.value| == |values|
    ensures r.Ok? ==> forall i :: 0 <= i < |values| && missing(values[i]) ==> r.value[i] in pool
    ensures r.Ok? ==> forall i :: 0 <= i < |values| && !missing(values[i]) ==> r.value[i] == values[i]
  {
    if |pool| == 0 && exists i :: 0 <= i < |values| && missing(values[i]) then
      Err(ValueError("'a' cannot be empty unless no samples are taken"))
    else
      Ok(seq(|values|, i requires 0 <= i < |values| =>
        if missing(values[i]) then Draw(pool, choose(i)) else values[i]))
  }
}
