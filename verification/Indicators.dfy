/** What the moving average and the RSI are, as facts about sums: a mean, and the share of the gains. */
module Indicators {
  import opened Prelude
  import opened Market

  /** The sum of the values from one index up to another. */
  function Total(values: seq<real>, from: nat, to: nat): real
    requires from <= to <= |values|
    decreases |values| - from
  {
    if from == to then 0.0 else values[from] + Total(values, from + 1, to)
  }

  predicate IsMean(values: seq<real>, window: int, index: nat, mean: real)
    requires index < |values|
  {
    0 < window <= index + 1 && mean * window as real == Total(values, index + 1 - window, index + 1)
  }

  /** The sum of the rises from one index to another. */
  function Gains(values: seq<real>, from: nat, to: nat): real
    requires from <= to < |values|
    decreases |values| - from
  {
    if from == to then 0.0
    else (if values[from + 1] > values[from] then values[from + 1] - values[from] else 0.0) + Gains(values, from + 1, to)
  }

  function Falls(values: seq<real>, from: nat, to: nat): real
    requires from <= to < |values|
    decreases |values| - from
  {
    if from == to then 0.0
    else (if values[from + 1] < values[from] then values[from] - values[from + 1] else 0.0) + Falls(values, from + 1, to)
  }

  /** In percent, the share of the gains in all moves of the window; without a fall, all or, without any move, half. */
  predicate IsRsi(values: seq<real>, window: int, index: nat, rsi: real)
    requires index < |values|
  {
    && 0 < window <= index
    && var gains, falls := Gains(values, index - window, index), Falls(values, index - window, index);
       if falls == 0.0 then rsi == (if gains > 0.0 then 100.0 else 50.0) else rsi * (gains + falls) == 100.0 * gains
  }

  lemma {:induction false} SumIsTotal(values: seq<real>, from: nat, to: nat)
    requires from <= to <= |values|
    ensures Sum(values[from..to]) == Total(values, from, to)
    decreases |values| - from
  {
    if from < to {
      SumIsTotal(values, from + 1, to);
      SumFirst(values[from..to]);
      assert values[from..to][1..] == values[from + 1..to];
    }
  }

  lemma {:induction false} SumFirst(values: seq<real>)
    requires values != []
    ensures Sum(values) == values[0] + Sum(values[1..])
  {
    if |values| > 1 {
      SumFirst(values[..|values| - 1]);
      assert values[..|values| - 1][1..] == values[1..][..|values| - 2];
    } else {
      assert values[1..] == [] && values[..0] == [];
    }
  }

  lemma Quotient(x: real, n: real, m: real)
    requires n > 0.0
    ensures x / n == m <==> m * n == x
  {
    var q := x / n;
    assert q * n == x;
    if q < m {
      assert (m - q) * n > 0.0;
    } else if m < q {
      assert (q - m) * n > 0.0;
    }
  }

  /** The moving average is the mean of the window, once there are enough values. */
  lemma SmaMeans(values: seq<real>, window: int, index: nat, mean: real)
    requires index < |values|
    ensures Sma(values, window, index) == Ok(Some(mean)) <==> IsMean(values, window, index, mean)
    ensures Sma(values, window, index) == Ok(None) <==> window > index + 1
    ensures Sma(values, window, index).Err? <==> window <= 0
  {
    if 0 < window <= index + 1 {
      SumIsTotal(values, index + 1 - window, index + 1);
      Quotient(Sum(values[index + 1 - window..index + 1]), window as real, mean);
    }
    hide Sum, Total;
  }

  lemma {:induction false} MovesAreGainsAndFalls(values: seq<real>, steps: nat, index: nat)
    requires steps <= index < |values|
    ensures Moves(values, steps, index) == (Gains(values, index - steps, index), Falls(values, index - steps, index))
  {
    if steps > 0 {
      MovesAreGainsAndFalls(values, steps - 1, index);
    }
  }

  lemma QuotientBack(x: real, n: real)
    requires n > 0.0
    ensures x / n * n == x
    ensures x > 0.0 ==> x / n > 0.0
  {
    var q := x / n;
    assert q * n == x;
    if q <= 0.0 {
      assert q * n <= 0.0;
    }
  }

  /** The quotient of two averages is that of the sums. */
  lemma Strength(gains: real, falls: real, n: real)
    requires gains > 0.0 && falls > 0.0 && n > 0.0
    ensures falls / n > 0.0 && (gains / n) / (falls / n) > 0.0
    ensures (gains / n) / (falls / n) * falls == gains
  {
    QuotientBack(gains, n);
    QuotientBack(falls, n);
    var g, f := gains / n, falls / n;
    QuotientBack(g, f);
    var strength := g / f;
    assert strength * (f * n) == (strength * f) * n;
  }

  lemma ShareOf(strength: real, gains: real, falls: real)
    requires strength > 0.0 && strength * falls == gains
    ensures (100.0 - 100.0 / (1.0 + strength)) * (gains + falls) == 100.0 * gains
  {
    QuotientBack(100.0, 1.0 + strength);
    var share := 100.0 / (1.0 + strength);
    assert gains + falls == (1.0 + strength) * falls;
    assert share * ((1.0 + strength) * falls) == (share * (1.0 + strength)) * falls;
    assert share * (gains + falls) == 100.0 * falls;
  }

  lemma OnlyShare(share: real, gains: real, falls: real, rsi: real)
    requires gains > 0.0 && falls > 0.0 && share * (gains + falls) == 100.0 * gains
    ensures share == rsi <==> rsi * (gains + falls) == 100.0 * gains
  {
    SameFactor(share, rsi, gains + falls);
  }

  lemma ShareOfGains(gains: real, falls: real, n: real, rsi: real)
    requires gains > 0.0 && falls > 0.0 && n > 0.0
    ensures falls / n > 0.0
    ensures 100.0 - 100.0 / (1.0 + (gains / n) / (falls / n)) == rsi <==> rsi * (gains + falls) == 100.0 * gains
  {
    Strength(gains, falls, n);
    var strength := (gains / n) / (falls / n);
    ShareOf(strength, gains, falls);
    OnlyShare(100.0 - 100.0 / (1.0 + strength), gains, falls, rsi);
  }

  lemma SameFactor(x: real, y: real, n: real)
    requires n > 0.0
    ensures x == y <==> x * n == y * n
  {
    if x < y {
      assert (y - x) * n > 0.0;
    } else if y < x {
      assert (x - y) * n > 0.0;
    }
  }

  lemma ZeroQuotient(x: real, n: real)
    requires x >= 0.0 && n > 0.0
    ensures x / n == 0.0 <==> x == 0.0
    ensures x / n > 0.0 <==> x > 0.0
  {
    var q := x / n;
    assert q * n == x;
    if q > 0.0 {
      assert q * n > 0.0;
    }
  }

  lemma ZeroShare(rsi: real, gains: real, falls: real)
    requires gains == 0.0 && falls > 0.0
    ensures rsi == 0.0 <==> rsi * (gains + falls) == 100.0 * gains
  {
    SameFactor(rsi, 0.0, gains + falls);
  }

  /** The RSI is the share of the gains, once there are enough values. */
  lemma RsiMeans(values: seq<real>, window: int, index: nat, rsi: real)
    requires index < |values|
    ensures Rsi(values, window, index) == Ok(Some(rsi)) <==> IsRsi(values, window, index, rsi)
    ensures Rsi(values, window, index) == Ok(None) <==> window > index
    ensures Rsi(values, window, index).Err? <==> window <= 0
  {
    if 0 < window <= index {
      MovesAreGainsAndFalls(values, window, index);
      var (gains, falls) := Moves(values, window, index);
      hide Moves, Gains, Falls;
      ZeroQuotient(gains, window as real);
      ZeroQuotient(falls, window as real);
      if gains > 0.0 && falls > 0.0 {
        ShareOfGains(gains, falls, window as real, rsi);
      } else if falls > 0.0 {
        ZeroShare(rsi, gains, falls);
      }
    }
  }
}
