/**
 * Buffers of the channel-first 1-D layout and finite sums over them.
 *
 * A loss node's output, target and gradient buffers have the numpy shape
 * (channels, ydim, batch).  Here a Row holds the values of one output
 * position across the batch, a Channel holds ydim rows and a Tensor holds
 * the channels in order.  Values are `real`: float32 rounding is not modelled.
 */
module Tensors {

  /** A value, or none where the source raises or yields NaN. */
  datatype Option<T> = None | Some(value: T)

  type Row = seq<real>
  type Channel = seq<Row>
  type Tensor = seq<Channel>

  /** `t` has `chs` channels of `rows` rows, each `batch` samples long. */
  ghost predicate Shaped(t: Tensor, chs: nat, rows: nat, batch: nat)
  {
    |t| == chs &&
    (forall c :: 0 <= c < |t| ==> |t[c]| == rows) &&
    (forall c, d :: 0 <= c < |t| && 0 <= d < |t[c]| ==> |t[c][d]| == batch)
  }

  /** `a` and `b` have the same shape, so elementwise operations on them are defined. */
  ghost predicate SameShape(a: Tensor, b: Tensor)
  {
    |a| == |b| &&
    (forall c :: 0 <= c < |a| ==> |a[c]| == |b[c]|) &&
    (forall c, d :: 0 <= c < |a| && 0 <= d < |a[c]| ==> |a[c][d]| == |b[c][d]|)
  }

  /** Every row of `x` is `batch` samples long. */
  ghost predicate RowsOfLength(x: Tensor, batch: nat)
  {
    forall c, d :: 0 <= c < |x| && 0 <= d < |x[c]| ==> |x[c][d]| == batch
  }

  /** `x` with entry (c, d, s) replaced by `v`. */
  function SetAt(x: Tensor, c: nat, d: nat, s: nat, v: real): (r: Tensor)
    requires c < |x| && d < |x[c]| && s < |x[c][d]|
  {
    x[c := x[c][d := x[c][d][s := v]]]
  }

  /** Changing one entry changes the sum by the difference. */
  lemma {:induction false} SumUpdate(v: seq<real>, i: nat, x: real)
    requires i < |v|
    ensures Sum(v[i := x]) == Sum(v) - v[i] + x
    decreases |v|
  {
    var n := |v| - 1;
    if i < n {
      assert v[i := x][..n] == v[..n][i := x];
      SumUpdate(v[..n], i, x);
    } else {
      assert v[i := x][..n] == v[..n];
    }
  }

  lemma {:induction false} TotalUpdate(m: seq<seq<real>>, d: nat, row: seq<real>)
    requires d < |m|
    ensures Total(m[d := row]) == Total(m) - Sum(m[d]) + Sum(row)
    decreases |m|
  {
    var n := |m| - 1;
    if d < n {
      assert m[d := row][..n] == m[..n][d := row];
      TotalUpdate(m[..n], d, row);
    } else {
      assert m[d := row][..n] == m[..n];
    }
  }

  lemma {:induction false} TensorTotalUpdate(x: Tensor, c: nat, ch: Channel)
    requires c < |x|
    ensures TensorTotal(x[c := ch]) == TensorTotal(x) - Total(x[c]) + Total(ch)
    decreases |x|
  {
    var n := |x| - 1;
    if c < n {
      assert x[c := ch][..n] == x[..n][c := ch];
      TensorTotalUpdate(x[..n], c, ch);
    } else {
      assert x[c := ch][..n] == x[..n];
    }
  }

  /** Changing one entry of a tensor changes its total by the difference. */
  lemma SetAtTotal(x: Tensor, c: nat, d: nat, s: nat, v: real)
    requires c < |x| && d < |x[c]| && s < |x[c][d]|
    ensures TensorTotal(SetAt(x, c, d, s, v)) == TensorTotal(x) - x[c][d][s] + v
  {
    SumUpdate(x[c][d], s, v);
    TotalUpdate(x[c], d, x[c][d][s := v]);
    TensorTotalUpdate(x, c, x[c][d := x[c][d][s := v]]);
  }

  /** Sum of a row of reals, left to right. */
  function Sum(v: seq<real>): real
  {
    if v == [] then 0.0 else Sum(v[..|v| - 1]) + v[|v| - 1]
  }

  /** Sum of every entry of a matrix, row by row. */
  function Total(m: seq<seq<real>>): real
  {
    if m == [] then 0.0 else Total(m[..|m| - 1]) + Sum(m[|m| - 1])
  }

  /** Sum of every entry of a tensor, channel by channel. */
  function TensorTotal(x: Tensor): real
  {
    if x == [] then 0.0 else TensorTotal(x[..|x| - 1]) + Total(x[|x| - 1])
  }

  /** Column `s` of a matrix whose rows are at least `s + 1` long. */
  function Col(m: seq<seq<real>>, s: nat): (r: seq<real>)
    requires forall d :: 0 <= d < |m| ==> s < |m[d]|
    ensures |r| == |m|
    ensures forall d :: 0 <= d < |m| ==> r[d] == m[d][s]
  {
    seq(|m|, d requires 0 <= d < |m| => m[d][s])
  }

  /** Sum of each of the first `n` columns of a matrix with rows of length `n`. */
  function ColSums(m: seq<seq<real>>, n: nat): (r: seq<real>)
    requires forall d :: 0 <= d < |m| ==> |m[d]| == n
    ensures |r| == n
  {
    seq(n, s requires 0 <= s < n => Sum(Col(m, s)))
  }

  /** Per-sample totals of a tensor: entry `s` sums sample `s` over all channels and rows. */
  function SampleTotals(x: Tensor, n: nat): (r: seq<real>)
    requires RowsOfLength(x, n)
    ensures |r| == n
  {
    seq(n, s requires 0 <= s < n => Sum(seq(|x|, c requires 0 <= c < |x| => Sum(Col(x[c], s)))))
  }

  /** Column `s` of a matrix as a matrix of one-sample rows: numpy's `m[:, s:s+1]`. */
  function Pick(m: seq<seq<real>>, s: nat): (r: seq<seq<real>>)
    requires forall d :: 0 <= d < |m| ==> s < |m[d]|
    ensures |r| == |m| && forall d :: 0 <= d < |m| ==> r[d] == [m[d][s]]
  {
    seq(|m|, d requires 0 <= d < |m| => [m[d][s]])
  }

  /** Sample `s` of a tensor as a tensor of batch size one: numpy's `x[:, :, s:s+1]`. */
  function SampleOf(x: Tensor, batch: nat, s: nat): (r: Tensor)
    requires RowsOfLength(x, batch) && s < batch
    ensures |r| == |x| && forall c :: 0 <= c < |x| ==> r[c] == Pick(x[c], s)
  {
    seq(|x|, c requires 0 <= c < |x| => Pick(x[c], s))
  }

  /** Adding up a picked column gives the column's sum. */
  lemma {:induction false} PickTotal(m: seq<seq<real>>, s: nat)
    requires forall d :: 0 <= d < |m| ==> s < |m[d]|
    ensures Total(Pick(m, s)) == Sum(Col(m, s))
    decreases |m|
  {
    if m != [] {
      var n := |m| - 1;
      PickTotal(m[..n], s);
      assert Pick(m, s)[..n] == Pick(m[..n], s);
      assert Col(m, s)[..n] == Col(m[..n], s);
      assert Sum([m[n][s]]) == m[n][s] by {
        assert [m[n][s]][..0] == [];
      }
      assert Total(Pick(m, s)) == Total(Pick(m[..n], s)) + Sum([m[n][s]]);
      assert Sum(Col(m, s)) == Sum(Col(m[..n], s)) + m[n][s];
    }
  }

  /** Adding up sample `s` on its own gives that sample's total. */
  lemma {:induction false} SampleOfTotal(x: Tensor, batch: nat, s: nat)
    requires RowsOfLength(x, batch) && s < batch
    ensures TensorTotal(SampleOf(x, batch, s)) == SampleTotals(x, batch)[s]
    decreases |x|
  {
    var totals := seq(|x|, c requires 0 <= c < |x| => Sum(Col(x[c], s)));
    assert SampleTotals(x, batch)[s] == Sum(totals);
    if x != [] {
      var n := |x| - 1;
      SampleOfTotal(x[..n], batch, s);
      assert SampleOf(x, batch, s)[..n] == SampleOf(x[..n], batch, s);
      assert totals[..n] == seq(n, c requires 0 <= c < n => Sum(Col(x[..n][c], s)));
      PickTotal(x[n], s);
    }
  }

  /** Summing two rows entrywise and then adding up equals adding up each row. */
  lemma {:induction false} SumPlus(a: seq<real>, b: seq<real>)
    requires |a| == |b|
    ensures Sum(seq(|a|, i requires 0 <= i < |a| => a[i] + b[i])) == Sum(a) + Sum(b)
    decreases |a|
  {
    var ab := seq(|a|, i requires 0 <= i < |a| => a[i] + b[i]);
    if a != [] {
      var k := |a| - 1;
      var ab' := seq(k, i requires 0 <= i < k => a[..k][i] + b[..k][i]);
      assert ab[..k] == ab';
      SumPlus(a[..k], b[..k]);
    }
  }

  /** Every entry multiplied by h. */
  function Scale(v: seq<real>, h: real): (r: seq<real>)
    ensures |r| == |v| && forall i :: 0 <= i < |v| ==> r[i] == h * v[i]
  {
    if v == [] then [] else Scale(v[..|v| - 1], h) + [h * v[|v| - 1]]
  }

  /** Scaling every entry scales the sum. */
  lemma {:induction false} SumScale(v: seq<real>, h: real)
    ensures Sum(Scale(v, h)) == h * Sum(v)
    decreases |v|
  {
    if v != [] {
      var k := |v| - 1;
      assert Scale(v, h)[..k] == Scale(v[..k], h);
      SumScale(v[..k], h);
    }
  }

  /** Adding up a matrix column by column gives the same as adding it up row by row. */
  lemma {:induction false} TotalByColumns(m: seq<seq<real>>, n: nat)
    requires forall d :: 0 <= d < |m| ==> |m[d]| == n
    ensures Sum(ColSums(m, n)) == Total(m)
    decreases |m|
  {
    if m == [] {
      ZeroSum(n);
      assert ColSums(m, n) == seq(n, i => 0.0);
    } else {
      var k := |m| - 1;
      var init := m[..k];
      TotalByColumns(init, n);
      var a := ColSums(init, n);
      var b := m[k];
      forall s | 0 <= s < n
        ensures ColSums(m, n)[s] == a[s] + b[s]
      {
        assert Col(m, s)[..k] == Col(init, s);
      }
      assert ColSums(m, n) == seq(|a|, i requires 0 <= i < |a| => a[i] + b[i]);
      SumPlus(a, b);
    }
  }

  lemma {:induction false} ZeroSum(n: nat)
    ensures Sum(seq(n, i => 0.0)) == 0.0
  {
    if n > 0 {
      assert seq(n, i => 0.0)[..n - 1] == seq(n - 1, i => 0.0);
      ZeroSum(n - 1);
    }
  }

  /**
   * Per-sample totals add up to the total of the whole tensor: summing over
   * the batch axis last or first gives the same number.
   */
  lemma {:induction false} SampleTotalsAddUp(x: Tensor, n: nat)
    requires RowsOfLength(x, n)
    ensures Sum(SampleTotals(x, n)) == TensorTotal(x)
  {
    // a[c] holds the per-sample sums of channel c
    var a := seq(|x|, c requires 0 <= c < |x| => ColSums(x[c], n));
    forall s | 0 <= s < n
      ensures SampleTotals(x, n)[s] == ColSums(a, n)[s]
    {
      assert Col(a, s) == seq(|x|, c requires 0 <= c < |x| => Sum(Col(x[c], s)));
    }
    assert SampleTotals(x, n) == ColSums(a, n);
    TotalByColumns(a, n);
    ChannelTotals(x, n);
  }

  /** Total of the per-channel column sums equals the tensor total. */
  lemma {:induction false} ChannelTotals(x: Tensor, n: nat)
    requires forall c, d :: 0 <= c < |x| && 0 <= d < |x[c]| ==> |x[c][d]| == n
    ensures Total(seq(|x|, c requires 0 <= c < |x| => ColSums(x[c], n))) == TensorTotal(x)
    decreases |x|
  {
    if x != [] {
      var k := |x| - 1;
      var a := seq(|x|, c requires 0 <= c < |x| => ColSums(x[c], n));
      assert a[..k] == seq(k, c requires 0 <= c < k => ColSums(x[..k][c], n));
      ChannelTotals(x[..k], n);
      TotalByColumns(x[k], n);
    }
  }

  /** A sum of non-negative reals is non-negative, and zero only when every entry is zero. */
  lemma {:induction false} SumNonNegative(v: seq<real>)
    requires forall i :: 0 <= i < |v| ==> v[i] >= 0.0
    ensures Sum(v) >= 0.0
    ensures Sum(v) == 0.0 <==> forall i :: 0 <= i < |v| ==> v[i] == 0.0
    decreases |v|
  {
    if v != [] {
      SumNonNegative(v[..|v| - 1]);
    }
  }

  lemma {:induction false} TotalNonNegative(m: seq<seq<real>>)
    requires forall d, s :: 0 <= d < |m| && 0 <= s < |m[d]| ==> m[d][s] >= 0.0
    ensures Total(m) >= 0.0
    ensures Total(m) == 0.0 <==> forall d, s :: 0 <= d < |m| && 0 <= s < |m[d]| ==> m[d][s] == 0.0
    decreases |m|
  {
    if m != [] {
      var k := |m| - 1;
      TotalNonNegative(m[..k]);
      SumNonNegative(m[k]);
      if Total(m) == 0.0 {
        forall d, s | 0 <= d < |m| && 0 <= s < |m[d]| ensures m[d][s] == 0.0 {
          if d < k { assert m[d] == m[..k][d]; }
        }
      }
    }
  }

  lemma {:induction false} TensorTotalNonNegative(x: Tensor)
    requires forall c, d, s :: 0 <= c < |x| && 0 <= d < |x[c]| && 0 <= s < |x[c][d]| ==> x[c][d][s] >= 0.0
    ensures TensorTotal(x) >= 0.0
    ensures TensorTotal(x) == 0.0 <==>
      forall c, d, s :: 0 <= c < |x| && 0 <= d < |x[c]| && 0 <= s < |x[c][d]| ==> x[c][d][s] == 0.0
    decreases |x|
  {
    if x != [] {
      var k := |x| - 1;
      TensorTotalNonNegative(x[..k]);
      TotalNonNegative(x[k]);
      if TensorTotal(x) == 0.0 {
        forall c, d, s | 0 <= c < |x| && 0 <= d < |x[c]| && 0 <= s < |x[c][d]| ensures x[c][d][s] == 0.0 {
          if c < k { assert x[c] == x[..k][c]; }
        }
      }
    }
  }

  /** Per-sample totals of a non-negative tensor are non-negative, and zero when the tensor is. */
  lemma SampleTotalsNonNegative(x: Tensor, n: nat)
    requires RowsOfLength(x, n)
    requires forall c, d, s :: 0 <= c < |x| && 0 <= d < |x[c]| && 0 <= s < |x[c][d]| ==> x[c][d][s] >= 0.0
    ensures forall s :: 0 <= s < n ==> SampleTotals(x, n)[s] >= 0.0
    ensures (forall c, d, s :: 0 <= c < |x| && 0 <= d < |x[c]| && 0 <= s < |x[c][d]| ==> x[c][d][s] == 0.0) ==>
      forall s :: 0 <= s < n ==> SampleTotals(x, n)[s] == 0.0
  {
    var zero := forall c, d, s :: 0 <= c < |x| && 0 <= d < |x[c]| && 0 <= s < |x[c][d]| ==> x[c][d][s] == 0.0;
    forall s | 0 <= s < n
      ensures SampleTotals(x, n)[s] >= 0.0 && (zero ==> SampleTotals(x, n)[s] == 0.0)
    {
      var v := seq(|x|, c requires 0 <= c < |x| => Sum(Col(x[c], s)));
      forall c | 0 <= c < |x|
        ensures v[c] >= 0.0 && (zero ==> v[c] == 0.0)
      {
        SumNonNegative(Col(x[c], s));
      }
      SumNonNegative(v);
      assert SampleTotals(x, n)[s] == Sum(v);
    }
  }
}
