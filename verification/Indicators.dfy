/** The two indicators of the dip-buying strategy, the DEMA and an EMA-smoothed RSI, and its
    entry and exit signals, over exact reals. */
module Indicators {
  import opened Reals

  type Series = seq<real>

  predicate Between(xs: Series, lo: real, hi: real) { forall i :: 0 <= i < |xs| ==> lo <= xs[i] <= hi }

  predicate Positive(xs: Series) { forall i :: 0 <= i < |xs| ==> 0.0 < xs[i] }

  // ---------- the exponential mean ----------

  /** The weight of the newest value. */
  function Alpha(span: nat): (r: real)
    requires 1 <= span
    ensures 0.0 < r <= 1.0
    ensures 2 <= span ==> r < 1.0
  {
    2.0 / ((span + 1) as real)
  }

  function Blend(a: real, mean: real, x: real): real { (1.0 - a) * mean + a * x }

  /** `ewm(span, adjust=False).mean()`. */
  function Ema(xs: Series, span: nat): (r: Series)
    requires 1 <= span
    ensures |r| == |xs|
  {
    if |xs| <= 1 then xs
    else
      var r := Ema(xs[..|xs| - 1], span);
      r + [Blend(Alpha(span), r[|xs| - 2], xs[|xs| - 1])]
  }

  lemma BlendBetween(a: real, x: real, y: real, lo: real, hi: real)
    requires 0.0 <= a <= 1.0 && lo <= x <= hi && lo <= y <= hi
    ensures lo <= Blend(a, x, y) <= hi
  {
    assert Blend(a, x, y) - lo == (1.0 - a) * (x - lo) + a * (y - lo);
    assert hi - Blend(a, x, y) == (1.0 - a) * (hi - x) + a * (hi - y);
    ProductNonNegative(1.0 - a, x - lo);
    ProductNonNegative(a, y - lo);
    ProductNonNegative(1.0 - a, hi - x);
    ProductNonNegative(a, hi - y);
  }

  lemma BlendZero(a: real, x: real, y: real)
    requires 0.0 < a < 1.0 && 0.0 <= x && 0.0 <= y
    ensures 0.0 <= Blend(a, x, y)
    ensures Blend(a, x, y) == 0.0 <==> x == 0.0 && y == 0.0
  {
    ProductNonNegative(1.0 - a, x);
    ProductNonNegative(a, y);
  }

  /** The mean never leaves the range of its values. */
  lemma {:induction false} EmaBetween(xs: Series, span: nat, lo: real, hi: real)
    requires 1 <= span && Between(xs, lo, hi)
    ensures Between(Ema(xs, span), lo, hi)
  {
    if |xs| > 1 {
      var front := xs[..|xs| - 1];
      EmaBetween(front, span, lo, hi);
      hide Blend;
      BlendBetween(Alpha(span), Ema(front, span)[|xs| - 2], xs[|xs| - 1], lo, hi);
    }
  }

  /** The mean up to a bar depends on the values up to that bar only. */
  lemma {:induction false} EmaPrefix(xs: Series, span: nat, k: nat)
    requires 1 <= span && k <= |xs|
    ensures Ema(xs, span)[..k] == Ema(xs[..k], span)
    decreases |xs|
  {
    if k == |xs| {
      assert xs[..k] == xs && Ema(xs, span)[..k] == Ema(xs, span);
    } else if |xs| > 1 {
      var front := xs[..|xs| - 1];
      EmaPrefix(front, span, k);
      assert front[..k] == xs[..k];
      assert Ema(xs, span)[..k] == Ema(front, span)[..k];
    } else {
      assert xs[..k] == [];
    }
  }

  function Power(r: real, n: nat): real { if n == 0 then 1.0 else r * Power(r, n - 1) }

  /** The weight of value `i` in the mean at bar `t`: it fades by `1 - a` a bar, and every value
      but the first enters with `a`. */
  function WeightOf(a: real, t: nat, i: nat): real
    requires i <= t
  {
    if i == 0 then Power(1.0 - a, t) else Times(a, Power(1.0 - a, t - i))
  }

  function WeightedSum(xs: Series, a: real, t: nat, n: nat): real
    requires n <= t + 1 && n <= |xs|
  {
    if n == 0 then 0.0 else WeightedSum(xs, a, t, n - 1) + Times(WeightOf(a, t, n - 1), xs[n - 1])
  }

  lemma {:induction false} WeightsFade(xs: Series, a: real, t: nat, n: nat)
    requires n <= t + 1 && n <= |xs|
    ensures WeightedSum(xs, a, t + 1, n) == Times(1.0 - a, WeightedSum(xs, a, t, n))
    decreases n
  {
    if n > 0 {
      WeightsFade(xs, a, t, n - 1);
      FadeOnce(a, t, n - 1, xs[n - 1]);
      Distribute(1.0 - a, WeightedSum(xs, a, t, n - 1), Times(WeightOf(a, t, n - 1), xs[n - 1]));
    }
  }

  lemma FadeOnce(a: real, t: nat, i: nat, x: real)
    requires i <= t
    ensures Times(WeightOf(a, t + 1, i), x) == Times(1.0 - a, Times(WeightOf(a, t, i), x))
  {
    Commute(a, 1.0 - a, Power(1.0 - a, t - i));
    assert WeightOf(a, t + 1, i) == Times(1.0 - a, WeightOf(a, t, i));
    TimesLaws(1.0 - a, WeightOf(a, t, i), x);
  }

  lemma Distribute(a: real, x: real, y: real)
    ensures Times(a, x + y) == Times(a, x) + Times(a, y)
  {
  }

  lemma {:induction false} PrefixSum(xs: Series, ys: Series, a: real, t: nat, n: nat)
    requires n <= t + 1 && n <= |xs| && n <= |ys| && xs[..n] == ys[..n]
    ensures WeightedSum(xs, a, t, n) == WeightedSum(ys, a, t, n)
    decreases n
  {
    if n > 0 {
      assert xs[n - 1] == xs[..n][n - 1] == ys[n - 1];
      assert xs[..n - 1] == xs[..n][..n - 1] && ys[..n - 1] == ys[..n][..n - 1];
      PrefixSum(xs, ys, a, t, n - 1);
    }
  }

  /** The recursive mean is the weighted sum of all values so far. */
  lemma {:induction false} EmaIsWeightedSum(xs: Series, span: nat)
    requires 1 <= span && xs != []
    ensures Ema(xs, span)[|xs| - 1] == WeightedSum(xs, Alpha(span), |xs| - 1, |xs|)
  {
    hide WeightedSum, Blend, Times;
    var t, a := |xs| - 1, Alpha(span);
    LastTerm(xs, a, t);
    if t > 0 {
      var front := xs[..t];
      EmaIsWeightedSum(front, span);
      WeightsFade(front, a, t - 1, t);
      PrefixSum(xs, front, a, t, t);
      BlendIsSum(a, Ema(front, span)[t - 1], xs[t]);
    }
  }

  lemma LastTerm(xs: Series, a: real, t: nat)
    requires t < |xs|
    ensures t == 0 ==> WeightedSum(xs, a, 0, 1) == xs[0]
    ensures t > 0 ==> WeightedSum(xs, a, t, t + 1) == WeightedSum(xs, a, t, t) + Times(a, xs[t])
  {
    TimesLaws(if t == 0 then xs[0] else a, 1.0, 1.0);
    assert WeightedSum(xs, a, t, t + 1) == WeightedSum(xs, a, t, t) + Times(WeightOf(a, t, t), xs[t]);
  }

  lemma BlendIsSum(a: real, mean: real, x: real)
    ensures Blend(a, mean, x) == Times(1.0 - a, mean) + Times(a, x)
  {
  }

  predicate AllZero(xs: Series, k: nat)
    requires k <= |xs|
  {
    forall i :: 0 <= i < k ==> xs[i] == 0.0
  }

  predicate NonNegative(xs: Series) { forall i :: 0 <= i < |xs| ==> 0.0 <= xs[i] }

  /** The mean of values that are not negative is zero exactly while they have all been zero. */
  lemma {:induction false} EmaZeroExactly(xs: Series, span: nat, k: nat)
    requires 2 <= span && NonNegative(xs) && k < |xs|
    ensures NonNegative(Ema(xs, span))
    ensures Ema(xs, span)[k] == 0.0 <==> AllZero(xs, k + 1)
    decreases |xs|
  {
    hide Blend;
    if |xs| > 1 {
      var front := xs[..|xs| - 1];
      EmaZeroExactly(front, span, if k < |front| then k else k - 1);
      BlendZero(Alpha(span), Ema(front, span)[|xs| - 2], xs[|xs| - 1]);
    }
  }

  // ---------- DEMA ----------

  function Dema(closes: Series, period: nat): (r: Series)
    requires 1 <= period
    ensures |r| == |closes|
  {
    var ema1 := Ema(closes, period);
    var ema2 := Ema(ema1, period);
    seq(|closes|, i requires 0 <= i < |closes| => 2.0 * ema1[i] - ema2[i])
  }

  /** Of a constant price the DEMA is the price. */
  lemma DemaOfFlat(closes: Series, period: nat, price: real)
    requires 1 <= period && Between(closes, price, price)
    ensures Between(Dema(closes, period), price, price)
  {
    EmaBetween(closes, period, price, price);
    EmaBetween(Ema(closes, period), period, price, price);
  }

  /** At every bar, not only at the last, the mean is the weighted sum of the values so far, with
      the weight `2 / (span + 1)` for the newest. */
  lemma EmaAt(xs: Series, span: nat, k: nat)
    requires 1 <= span && k < |xs|
    ensures Ema(xs, span)[k] == WeightedSum(xs, 2.0 / ((span + 1) as real), k, k + 1)
  {
    hide Ema, WeightedSum;
    EmaPrefix(xs, span, k + 1);
    EmaIsWeightedSum(xs[..k + 1], span);
    assert Ema(xs, span)[..k + 1][k] == Ema(xs, span)[k];
    PrefixSum(xs, xs[..k + 1], Alpha(span), k, k + 1);
  }

  predicate FlatButLast(xs: Series, price: real) { |xs| >= 2 && forall i :: 0 <= i < |xs| - 1 ==> xs[i] == price }

  /** After a flat stretch the mean follows the first move by the weight of the newest value. */
  lemma EmaOfLastMove(xs: Series, span: nat, price: real)
    requires 1 <= span && FlatButLast(xs, price)
    ensures var t := |xs| - 1;
            && FlatButLast(Ema(xs, span), price)
            && Ema(xs, span)[t] == price + 2.0 / ((span + 1) as real) * (xs[t] - price)
  {
    hide Ema, Blend;
    var t := |xs| - 1;
    var front := xs[..t];
    EmaBetween(front, span, price, price);
    EmaPrefix(xs, span, t);
    assert forall i :: 0 <= i < t ==> Ema(xs, span)[i] == Ema(xs, span)[..t][i];
    LastBlend(xs, span);
    BlendFrom(Alpha(span), price, xs[t]);
  }

  lemma LastBlend(xs: Series, span: nat)
    requires 1 <= span && |xs| >= 2
    ensures Ema(xs, span)[|xs| - 1] == Blend(Alpha(span), Ema(xs[..|xs| - 1], span)[|xs| - 2], xs[|xs| - 1])
  {
  }

  lemma BlendFrom(a: real, price: real, x: real)
    ensures Blend(a, price, x) == price + a * (x - price)
  {
  }

  /** The DEMA of a close `c` after a flat stretch at `price`. */
  lemma DemaOfLastMove(closes: Series, period: nat, price: real)
    requires 1 <= period && FlatButLast(closes, price)
    ensures var a, c := 2.0 / ((period + 1) as real), closes[|closes| - 1];
            Dema(closes, period)[|closes| - 1] == price + (c - price) * (1.0 - (1.0 - a) * (1.0 - a))
  {
    hide Ema;
    var t := |closes| - 1;
    EmaOfLastMove(closes, period, price);
    EmaOfLastMove(Ema(closes, period), period, price);
    TwiceBlended(2.0 / ((period + 1) as real), price, closes[t]);
  }

  lemma TwiceBlended(a: real, price: real, c: real)
    ensures 2.0 * (price + a * (c - price)) - (price + a * ((price + a * (c - price)) - price))
         == price + (c - price) * (1.0 - (1.0 - a) * (1.0 - a))
  {
    var d := c - price;
    assert a * (a * d) == (a * a) * d;
    assert d * (1.0 - (1.0 - a) * (1.0 - a)) == 2.0 * (a * d) - (a * a) * d by {
      assert 1.0 - (1.0 - a) * (1.0 - a) == 2.0 * a - a * a;
      assert d * (2.0 * a - a * a) == 2.0 * (a * d) - (a * a) * d;
    }
  }

  /** After a flat stretch a bar is below its DEMA exactly when it closes lower. */
  lemma DipIsBelowDema(closes: Series, period: nat, price: real)
    requires 2 <= period && FlatButLast(closes, price)
    ensures var t := |closes| - 1; closes[t] < Dema(closes, period)[t] <==> closes[t] < price
  {
    hide Dema;
    var t, a := |closes| - 1, 2.0 / ((period + 1) as real);
    DemaOfLastMove(closes, period, price);
    assert 0.0 < a < 1.0;
    var rest := (1.0 - a) * (1.0 - a);
    ProductPositive(1.0 - a, 1.0 - a);
    SignOf(closes[t] - price, rest);
    assert (closes[t] - price) * (1.0 - rest) == (closes[t] - price) - (closes[t] - price) * rest;
  }

  lemma SignOf(d: real, r: real)
    requires 0.0 < r
    ensures d * r < 0.0 <==> d < 0.0
  {
  }

  lemma DemaPrefix(closes: Series, period: nat, k: nat)
    requires 1 <= period && k <= |closes|
    ensures Dema(closes, period)[..k] == Dema(closes[..k], period)
  {
    var ema1 := Ema(closes, period);
    EmaPrefix(closes, period, k);
    EmaPrefix(ema1, period, k);
    var d, e := Dema(closes, period), Dema(closes[..k], period);
    forall i | 0 <= i < k ensures d[i] == e[i] {
      assert ema1[..k][i] == ema1[i] && Ema(ema1, period)[..k][i] == Ema(ema1, period)[i];
    }
  }

  // ---------- RSI ----------

  /** The rises (or falls) from each bar to the next. */
  function Rises(closes: Series): (r: Series)
    ensures |r| == if closes == [] then 0 else |closes| - 1
    ensures NonNegative(r)
  {
    if closes == [] then []
    else seq(|closes| - 1, i requires 0 <= i < |closes| - 1 =>
             if closes[i] < closes[i + 1] then closes[i + 1] - closes[i] else 0.0)
  }

  function Falls(closes: Series): (r: Series)
    ensures |r| == if closes == [] then 0 else |closes| - 1
    ensures NonNegative(r)
  {
    if closes == [] then []
    else seq(|closes| - 1, i requires 0 <= i < |closes| - 1 =>
             if closes[i + 1] < closes[i] then closes[i] - closes[i + 1] else 0.0)
  }

  /** 100 where nothing has fallen. */
  function Strength(up: real, down: real): real
    requires 0.0 <= up && 0.0 <= down
  {
    if down == 0.0 then 100.0
    else
      Quotient(up, down);
      100.0 - 100.0 / (1.0 + up / down)
  }

  lemma Quotient(up: real, down: real)
    requires 0.0 <= up && 0.0 < down
    ensures 0.0 <= up / down
    ensures up / down == 0.0 <==> up == 0.0
  {
  }

  /** The RSI of one bar; the first bar has nothing to compare with and reads 100. */
  function RsiOf(closes: Series, period: nat, i: nat): real
    requires 1 <= period && i < |closes|
  {
    if i == 0 then 100.0
    else
      SmoothedNonNegative(closes, period);
      Strength(Ema(Rises(closes), period)[i - 1], Ema(Falls(closes), period)[i - 1])
  }

  function Rsi(closes: Series, period: nat): (r: Series)
    requires 1 <= period
    ensures |r| == |closes|
  {
    seq(|closes|, i requires 0 <= i < |closes| => RsiOf(closes, period, i))
  }

  lemma SmoothedNonNegative(closes: Series, period: nat)
    requires 1 <= period
    ensures NonNegative(Ema(Rises(closes), period)) && NonNegative(Ema(Falls(closes), period))
  {
    EmaNonNegative(Rises(closes), period);
    EmaNonNegative(Falls(closes), period);
  }

  lemma {:induction false} EmaNonNegative(xs: Series, span: nat)
    requires 1 <= span && NonNegative(xs)
    ensures NonNegative(Ema(xs, span))
  {
    if |xs| > 1 {
      var front := xs[..|xs| - 1];
      EmaNonNegative(front, span);
      ProductNonNegative(1.0 - Alpha(span), Ema(front, span)[|xs| - 2]);
      ProductNonNegative(Alpha(span), xs[|xs| - 1]);
    }
  }

  lemma StrengthRange(up: real, down: real)
    requires 0.0 <= up && 0.0 <= down
    ensures 0.0 <= Strength(up, down) <= 100.0
    ensures Strength(up, down) == 100.0 <==> down == 0.0
    ensures Strength(up, down) == 0.0 <==> up == 0.0 && down != 0.0
  {
  }

  /** The RSI lies between 0 and 100. It is 100 exactly while no close has fallen and 0 exactly
      when some has fallen and none has risen. */
  lemma RsiExtremes(closes: Series, period: nat, i: nat)
    requires 2 <= period && i < |closes|
    ensures var rsi := Rsi(closes, period)[i];
            && 0.0 <= rsi <= 100.0
            && (rsi == 100.0 <==> forall j :: 0 <= j < i ==> closes[j] <= closes[j + 1])
            && (rsi == 0.0 <==> ((forall j :: 0 <= j < i ==> closes[j] >= closes[j + 1])
                                 && (exists j :: 0 <= j < i && closes[j] > closes[j + 1])))
  {
    hide Rsi, Rises, Falls, Ema, Strength, AllZero, NonNegative;
    RsiAt(closes, period, i);
    if i > 0 {
      var rises, falls := Rises(closes), Falls(closes);
      EmaZeroExactly(rises, period, i - 1);
      EmaZeroExactly(falls, period, i - 1);
      StrengthRange(Ema(rises, period)[i - 1], Ema(falls, period)[i - 1]);
      ZeroRises(closes, i);
    }
  }

  /** A step between two closes is a rise or a fall, and never both. */
  lemma StepIsRiseOrFall(closes: Series, j: nat)
    requires j + 1 < |closes|
    ensures Rises(closes)[j] - Falls(closes)[j] == closes[j + 1] - closes[j]
    ensures 0.0 <= Rises(closes)[j] && 0.0 <= Falls(closes)[j]
    ensures Rises(closes)[j] == 0.0 || Falls(closes)[j] == 0.0
  {
  }

  /** With `u` and `d` the smoothed rises and falls up to a bar, the RSI is `100 u / (u + d)`, and
      100 where nothing has fallen or there is nothing to compare with. */
  lemma RsiIsRatio(closes: Series, period: nat, i: nat)
    requires 1 <= period && i < |closes|
    ensures i == 0 ==> Rsi(closes, period)[i] == 100.0
    ensures i > 0 ==>
              var a := 2.0 / ((period + 1) as real);
              var u, d := WeightedSum(Rises(closes), a, i - 1, i), WeightedSum(Falls(closes), a, i - 1, i);
              if d == 0.0 then Rsi(closes, period)[i] == 100.0 else Rsi(closes, period)[i] * (u + d) == 100.0 * u
  {
    hide Rsi, Rises, Falls, Ema, Strength, WeightedSum;
    RsiAt(closes, period, i);
    if i > 0 {
      EmaAt(Rises(closes), period, i - 1);
      EmaAt(Falls(closes), period, i - 1);
      StrengthIsRatio(Ema(Rises(closes), period)[i - 1], Ema(Falls(closes), period)[i - 1]);
    }
  }

  lemma StrengthIsRatio(up: real, down: real)
    requires 0.0 <= up && 0.0 <= down
    ensures if down == 0.0 then Strength(up, down) == 100.0 else Strength(up, down) * (up + down) == 100.0 * up
  {
    if down != 0.0 {
      var q := up / down;
      assert q * down == up && 0.0 <= q;
      var r := 100.0 / (1.0 + q);
      assert r * (1.0 + q) == 100.0;
      assert r * (up + down) == r * (1.0 + q) * down;
      assert (100.0 - r) * (up + down) == 100.0 * (up + down) - r * (up + down);
    }
  }

  lemma RiseAt(closes: Series, j: nat)
    requires j + 1 < |closes|
    ensures Rises(closes)[j] == 0.0 <==> closes[j] >= closes[j + 1]
    ensures Falls(closes)[j] == 0.0 <==> closes[j] <= closes[j + 1]
  {
  }

  lemma ZeroRises(closes: Series, k: nat)
    requires 0 < k < |closes|
    ensures AllZero(Rises(closes), k) <==> forall j :: 0 <= j < k ==> closes[j] >= closes[j + 1]
    ensures AllZero(Falls(closes), k) <==> forall j :: 0 <= j < k ==> closes[j] <= closes[j + 1]
  {
    hide Rises, Falls;
    forall j | 0 <= j < k
      ensures (Rises(closes)[j] == 0.0 <==> closes[j] >= closes[j + 1])
           && (Falls(closes)[j] == 0.0 <==> closes[j] <= closes[j + 1])
    {
      RiseAt(closes, j);
    }
    if AllZero(Rises(closes), k) {
      forall j | 0 <= j < k ensures closes[j] >= closes[j + 1] {
        assert Rises(closes)[j] == 0.0;
      }
    } else {
      var j :| 0 <= j < k && Rises(closes)[j] != 0.0;
      assert closes[j] < closes[j + 1];
    }
    if AllZero(Falls(closes), k) {
      forall j | 0 <= j < k ensures closes[j] <= closes[j + 1] {
        assert Falls(closes)[j] == 0.0;
      }
    } else {
      var j :| 0 <= j < k && Falls(closes)[j] != 0.0;
      assert closes[j] > closes[j + 1];
    }
  }

  lemma RisesPrefix(closes: Series, k: nat)
    requires 0 < k <= |closes|
    ensures Rises(closes)[..k - 1] == Rises(closes[..k]) && Falls(closes)[..k - 1] == Falls(closes[..k])
  {
  }

  lemma RsiPrefixAt(closes: Series, period: nat, k: nat, i: nat)
    requires 1 <= period && i < k <= |closes|
    ensures Rsi(closes, period)[i] == Rsi(closes[..k], period)[i]
  {
    hide Rsi, Rises, Falls, Ema, Strength, NonNegative;
    RsiAt(closes, period, i);
    RsiAt(closes[..k], period, i);
    RisesPrefix(closes, k);
    EmaPrefix(Rises(closes), period, k - 1);
    EmaPrefix(Falls(closes), period, k - 1);
    if i > 0 {
      assert Ema(Rises(closes), period)[..k - 1][i - 1] == Ema(Rises(closes), period)[i - 1];
      assert Ema(Falls(closes), period)[..k - 1][i - 1] == Ema(Falls(closes), period)[i - 1];
    }
  }

  lemma RsiPrefix(closes: Series, period: nat, k: nat)
    requires 1 <= period && k <= |closes|
    ensures Rsi(closes, period)[..k] == Rsi(closes[..k], period)
  {
    hide Rsi;
    var r, s := Rsi(closes, period), Rsi(closes[..k], period);
    forall i | 0 <= i < k ensures r[..k][i] == s[i] {
      RsiPrefixAt(closes, period, k, i);
    }
  }

  lemma RsiAt(closes: Series, period: nat, i: nat)
    requires 1 <= period && i < |closes|
    ensures i == 0 ==> Rsi(closes, period)[i] == 100.0
    ensures i > 0 ==> 0.0 <= Ema(Rises(closes), period)[i - 1] && 0.0 <= Ema(Falls(closes), period)[i - 1]
    ensures i > 0 ==>
              Rsi(closes, period)[i] == Strength(Ema(Rises(closes), period)[i - 1], Ema(Falls(closes), period)[i - 1])
  {
    hide Rises, Falls, Ema, Strength;
    SmoothedNonNegative(closes, period);
    assert Rsi(closes, period)[i] == RsiOf(closes, period, i);
  }

  // ---------- signals ----------

  datatype Rules = Rules(demaPeriod: nat, rsiPeriod: nat, level: real) {
    predicate Valid() { 1 <= demaPeriod && 1 <= rsiPeriod }
  }

  predicate EntryState(closes: Series, rules: Rules, i: nat)
    requires rules.Valid() && i < |closes|
  {
    closes[i] < Dema(closes, rules.demaPeriod)[i]
  }

  /** The RSI crosses the level upwards; on the first bar there is nothing to cross from. */
  predicate ExitSignal(closes: Series, rules: Rules, i: nat)
    requires rules.Valid() && i < |closes|
  {
    var rsi := Rsi(closes, rules.rsiPeriod);
    rsi[i] > rules.level && i > 0 && rsi[i - 1] <= rules.level
  }

  /** Both signals of a bar are known at its close. */
  lemma SignalsPrefix(closes: Series, rules: Rules, k: nat, i: nat)
    requires rules.Valid() && i < k <= |closes|
    ensures EntryState(closes, rules, i) == EntryState(closes[..k], rules, i)
    ensures ExitSignal(closes, rules, i) == ExitSignal(closes[..k], rules, i)
  {
    hide Dema, Rsi;
    var dema, rsi := Dema(closes, rules.demaPeriod), Rsi(closes, rules.rsiPeriod);
    DemaPrefix(closes, rules.demaPeriod, k);
    RsiPrefix(closes, rules.rsiPeriod, k);
    assert dema[..k][i] == dema[i] && rsi[..k][i] == rsi[i];
    assert i > 0 ==> rsi[..k][i - 1] == rsi[i - 1];
  }
}
