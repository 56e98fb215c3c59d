/**
 * The loss formulas of the loss-node variants that need no logarithm.
 *
 * Mse1D: trLoss = ½·Σ(y − t)², lossVec = the same sum per sample,
 * base = baseVec = 0, and evalGrad writes y − t.
 * evalGrad of the other variants, elementwise:
 *   Bce1D and ZeroOneBce1D   (y − t) / (y·(1 − y) + ε)
 *   Cce1D                    −t / (y + ε)
 *   OneHotCce1D              −1 / y where t ≠ 0, and 0 elsewhere
 * where ε is LOSS_E0, the smallest positive float32.  The logarithmic
 * losses themselves are not modelled.
 */
module Losses {
  import opened Tensors

  /** The loss variants, selected once when the graph is built. */
  datatype LossKind = Mse | Bce | ZeroOneBce | Cce | OneHotCce

  function Pow2(n: nat): (r: real)
    ensures r >= 1.0
  {
    if n == 0 then 1.0 else 2.0 * Pow2(n - 1)
  }

  /** LOSS_E0 = nextafter(0, 1) in float32, the subnormal 2^-149. */
  const LossE0: real := 1.0 / Pow2(149)

  lemma LossE0Positive()
    ensures 0.0 < LossE0 <= 1.0
  {
  }

  // ---------------------------------------------------------------- Mse1D

  /** A square is non-negative, and zero only for zero. */
  lemma Square(a: real)
    ensures a * a >= 0.0
    ensures a != 0.0 ==> a * a > 0.0
    ensures a == 0.0 ==> a * a == 0.0
  {
    if a == 0.0 {
      assert a * a == 0.0 * 0.0;
    } else if a < 0.0 {
      var b := -a;
      assert b * b > 0.0;
      assert a * a == b * b;
      assert a * a > 0.0;
    }
  }

  lemma ProductNonNegative(a: real, b: real)
    requires a >= 0.0 && b >= 0.0
    ensures a * b >= 0.0
  {
  }

  lemma PositiveFactor(a: real, b: real)
    requires b > 0.0 && a * b > 0.0
    ensures a > 0.0
  {
    if a <= 0.0 {
      ProductNonNegative(-a, b);
    }
  }

  /** The squared difference (y − t)², never negative. */
  function SqDiff(y: real, t: real): (r: real)
    ensures r >= 0.0
  {
    Square(y - t);
    (y - t) * (y - t)
  }

  /** Moving y by h changes (y − t)² by 2h(y − t) + h². */
  lemma SqDiffShift(y: real, t: real, h: real)
    ensures SqDiff(y + h, t) == SqDiff(y, t) + 2.0 * h * (y - t) + h * h
  {
    var a := y - t;
    assert y + h - t == a + h;
    assert (a + h) * (a + h) == a * a + 2.0 * h * a + h * h;
  }

  /** Squared differences, entry by entry. */
  function SqRow(y: Row, t: Row): (r: Row)
    requires |y| == |t|
    ensures |r| == |y| && forall s :: 0 <= s < |y| ==> r[s] == SqDiff(y[s], t[s])
    ensures forall s :: 0 <= s < |y| ==> (r[s] == 0.0 <==> y[s] == t[s])
  {
    assert forall s :: 0 <= s < |y| ==> ((y[s] - t[s]) * (y[s] - t[s]) == 0.0 <==> y[s] == t[s]) by {
      forall s | 0 <= s < |y| { Square(y[s] - t[s]); }
    }
    seq(|y|, s requires 0 <= s < |y| => SqDiff(y[s], t[s]))
  }

  function SqChannel(y: Channel, t: Channel): (r: Channel)
    requires |y| == |t| && forall d :: 0 <= d < |y| ==> |y[d]| == |t[d]|
    ensures |r| == |y| && forall d :: 0 <= d < |y| ==> r[d] == SqRow(y[d], t[d])
  {
    seq(|y|, d requires 0 <= d < |y| => SqRow(y[d], t[d]))
  }

  function SqTensor(y: Tensor, t: Tensor): (r: Tensor)
    requires SameShape(y, t)
    ensures |r| == |y| && forall c :: 0 <= c < |y| ==> r[c] == SqChannel(y[c], t[c])
  {
    seq(|y|, c requires 0 <= c < |y| => SqChannel(y[c], t[c]))
  }

  /**
   * Mse1D.trLoss / teLoss: half the sum of squared differences over the
   * whole buffer; never negative, and zero exactly when y == t.
   */
  function MseLoss(y: Tensor, t: Tensor): (r: real)
    requires SameShape(y, t)
    ensures r >= 0.0
    ensures r == 0.0 <==> y == t
  {
    SqTensorZero(y, t);
    TensorTotalNonNegative(SqTensor(y, t));
    0.5 * TensorTotal(SqTensor(y, t))
  }

  /** Mse1D.lossVec: half the sum of squared differences of each sample (summing axes 0 and 1). */
  function MseLossVec(y: Tensor, t: Tensor, batch: nat): (r: seq<real>)
    requires SameShape(y, t) && RowsOfLength(y, batch)
    ensures |r| == batch
  {
    Scale(SampleTotals(SqTensor(y, t), batch), 0.5)
  }

  /** Mse1D.base: the loss of a perfect prediction, and a lower bound of every loss against `t`. */
  function MseBase(t: Tensor): (r: real)
    ensures r == MseLoss(t, t)
    ensures forall y :: SameShape(y, t) ==> r <= MseLoss(y, t)
  {
    0.0
  }

  /**
   * Mse1D.baseVec: the per-sample loss of a perfect prediction, and a lower
   * bound of every per-sample loss against `t` (a scalar in the source,
   * broadcast over the `batch` samples).
   */
  function MseBaseVec(t: Tensor, batch: nat): (r: real)
    requires RowsOfLength(t, batch)
    ensures forall s :: 0 <= s < batch ==> MseLossVec(t, t, batch)[s] == r
    ensures forall y, s :: SameShape(y, t) && RowsOfLength(y, batch) && 0 <= s < batch ==>
      r <= MseLossVec(y, t, batch)[s]
  {
    MseLossVecBounds(t, batch);
    0.0
  }

  /** Every per-sample loss is non-negative, and zero for a perfect prediction. */
  lemma MseLossVecBounds(t: Tensor, batch: nat)
    requires RowsOfLength(t, batch)
    ensures forall s :: 0 <= s < batch ==> MseLossVec(t, t, batch)[s] == 0.0
    ensures forall y, s :: SameShape(y, t) && RowsOfLength(y, batch) && 0 <= s < batch ==>
      0.0 <= MseLossVec(y, t, batch)[s]
  {
    forall y | SameShape(y, t) && RowsOfLength(y, batch)
      ensures forall s :: 0 <= s < batch ==> 0.0 <= MseLossVec(y, t, batch)[s]
      ensures y == t ==> forall s :: 0 <= s < batch ==> MseLossVec(y, t, batch)[s] == 0.0
    {
      SqTensorZero(y, t);
      SqTensorRows(y, t, batch);
      SampleTotalsNonNegative(SqTensor(y, t), batch);
    }
  }

  /** The squared differences are non-negative, and all zero exactly when y == t. */
  lemma SqTensorZero(y: Tensor, t: Tensor)
    requires SameShape(y, t)
    ensures forall c, d, s :: 0 <= c < |y| && 0 <= d < |y[c]| && 0 <= s < |y[c][d]| ==>
      SqTensor(y, t)[c][d][s] >= 0.0
    ensures (forall c, d, s :: 0 <= c < |y| && 0 <= d < |y[c]| && 0 <= s < |y[c][d]| ==>
      SqTensor(y, t)[c][d][s] == 0.0) <==> y == t
  {
    var sq := SqTensor(y, t);
    if forall c, d, s :: 0 <= c < |y| && 0 <= d < |y[c]| && 0 <= s < |y[c][d]| ==> sq[c][d][s] == 0.0 {
      forall c | 0 <= c < |y| ensures y[c] == t[c] {
        forall d | 0 <= d < |y[c]| ensures y[c][d] == t[c][d] {
          assert forall s :: 0 <= s < |y[c][d]| ==> sq[c][d][s] == 0.0;
        }
      }
    }
  }

  lemma SqTensorRows(y: Tensor, t: Tensor, batch: nat)
    requires SameShape(y, t) && RowsOfLength(y, batch)
    ensures RowsOfLength(SqTensor(y, t), batch)
  {
    var sq := SqTensor(y, t);
    forall c, d | 0 <= c < |sq| && 0 <= d < |sq[c]| ensures |sq[c][d]| == batch {
      assert sq[c][d] == SqRow(y[c][d], t[c][d]);
    }
  }

  /** The per-sample losses of Mse1D.lossVec add up to Mse1D.trLoss. */
  lemma MseLossVecSums(y: Tensor, t: Tensor, batch: nat)
    requires SameShape(y, t) && RowsOfLength(y, batch)
    ensures Sum(MseLossVec(y, t, batch)) == MseLoss(y, t)
  {
    var sq := SqTensor(y, t);
    SqTensorRows(y, t, batch);
    var totals := SampleTotals(sq, batch);
    SampleTotalsAddUp(sq, batch);
    SumScale(totals, 0.5);
  }

  /** Entry `s` of Mse1D.lossVec is the loss of sample `s` taken on its own. */
  lemma MseLossVecAt(y: Tensor, t: Tensor, batch: nat, s: nat)
    requires SameShape(y, t) && RowsOfLength(y, batch) && s < batch
    ensures SameShape(SampleOf(y, batch, s), SampleOf(t, batch, s))
    ensures MseLossVec(y, t, batch)[s] == MseLoss(SampleOf(y, batch, s), SampleOf(t, batch, s))
  {
    var ys, ts := SampleOf(y, batch, s), SampleOf(t, batch, s);
    var sq := SqTensor(y, t);
    SqTensorRows(y, t, batch);
    forall c | 0 <= c < |y| ensures SqTensor(ys, ts)[c] == SampleOf(sq, batch, s)[c] {
      forall d | 0 <= d < |y[c]| ensures SqTensor(ys, ts)[c][d] == SampleOf(sq, batch, s)[c][d] {
        assert sq[c][d] == SqRow(y[c][d], t[c][d]);
      }
    }
    assert SqTensor(ys, ts) == SampleOf(sq, batch, s);
    SampleOfTotal(sq, batch, s);
  }

  // -------------------------------------------------------------- evalGrad

  /** The divisor of the variant's gradient formula is nonzero at this entry. */
  predicate Divisible(kind: LossKind, y: real, t: real, eps: real)
  {
    match kind
    case Mse => true
    case Bce => y * (1.0 - y) + eps != 0.0
    case ZeroOneBce => y * (1.0 - y) + eps != 0.0
    case Cce => y + eps != 0.0
    case OneHotCce => t != 0.0 ==> y != 0.0
  }

  /** The gradient of the variant's loss with respect to one output entry. */
  function GradAt(kind: LossKind, y: real, t: real, eps: real): real
    requires Divisible(kind, y, t, eps)
  {
    match kind
    case Mse => y - t
    case Bce => (y - t) / (y * (1.0 - y) + eps)
    case ZeroOneBce => (y - t) / (y * (1.0 - y) + eps)
    case Cce => -t / (y + eps)
    case OneHotCce => if t != 0.0 then -1.0 / y else 0.0
  }

  /** Every entry of the pair of buffers has a nonzero divisor. */
  ghost predicate GradDefined(kind: LossKind, y: Tensor, t: Tensor, eps: real)
    requires SameShape(y, t)
  {
    forall c, d, s :: 0 <= c < |y| && 0 <= d < |y[c]| && 0 <= s < |y[c][d]| ==>
      Divisible(kind, y[c][d][s], t[c][d][s], eps)
  }

  function GradRow(kind: LossKind, y: Row, t: Row, eps: real): (r: Row)
    requires |y| == |t| && forall s :: 0 <= s < |y| ==> Divisible(kind, y[s], t[s], eps)
    ensures |r| == |y|
  {
    seq(|y|, s requires 0 <= s < |y| => GradAt(kind, y[s], t[s], eps))
  }

  function GradChannel(kind: LossKind, y: Channel, t: Channel, eps: real): (r: Channel)
    requires |y| == |t| && forall d :: 0 <= d < |y| ==> |y[d]| == |t[d]|
    requires forall d, s :: 0 <= d < |y| && 0 <= s < |y[d]| ==> Divisible(kind, y[d][s], t[d][s], eps)
    ensures |r| == |y| && forall d :: 0 <= d < |y| ==> r[d] == GradRow(kind, y[d], t[d], eps)
  {
    seq(|y|, d requires 0 <= d < |y| => GradRow(kind, y[d], t[d], eps))
  }

  /** evalGrad: the variant's gradient formula applied to every entry of (trY, trT). */
  function GradTensor(kind: LossKind, y: Tensor, t: Tensor, eps: real): (r: Tensor)
    requires SameShape(y, t) && GradDefined(kind, y, t, eps)
    ensures SameShape(r, y)
    ensures forall c, d, s :: 0 <= c < |y| && 0 <= d < |y[c]| && 0 <= s < |y[c][d]| ==>
      r[c][d][s] == GradAt(kind, y[c][d][s], t[c][d][s], eps)
  {
    seq(|y|, c requires 0 <= c < |y| => GradChannel(kind, y[c], t[c], eps))
  }

  lemma SqRowUpdate(y: Row, t: Row, s: nat, v: real)
    requires |y| == |t| && s < |y|
    ensures SqRow(y[s := v], t) == SqRow(y, t)[s := SqDiff(v, t[s])]
  {
    var a, b := SqRow(y[s := v], t), SqRow(y, t)[s := SqDiff(v, t[s])];
    forall k | 0 <= k < |a| ensures a[k] == b[k] {
      if k != s { assert y[s := v][k] == y[k]; }
    }
  }

  lemma SqChannelUpdate(y: Channel, t: Channel, d: nat, row: Row)
    requires |y| == |t| && (forall k :: 0 <= k < |y| ==> |y[k]| == |t[k]|) && d < |y| && |row| == |t[d]|
    ensures SqChannel(y[d := row], t) == SqChannel(y, t)[d := SqRow(row, t[d])]
  {
    var a, b := SqChannel(y[d := row], t), SqChannel(y, t)[d := SqRow(row, t[d])];
    forall k | 0 <= k < |a| ensures a[k] == b[k] {
      if k != d { assert y[d := row][k] == y[k]; }
    }
  }

  lemma SqTensorUpdate(y: Tensor, t: Tensor, c: nat, ch: Channel)
    requires SameShape(y, t) && c < |y| && |ch| == |t[c]| && forall k :: 0 <= k < |ch| ==> |ch[k]| == |t[c][k]|
    ensures SameShape(y[c := ch], t)
    ensures SqTensor(y[c := ch], t) == SqTensor(y, t)[c := SqChannel(ch, t[c])]
  {
    var a, b := SqTensor(y[c := ch], t), SqTensor(y, t)[c := SqChannel(ch, t[c])];
    forall k | 0 <= k < |a| ensures a[k] == b[k] {
      if k != c { assert y[c := ch][k] == y[k]; }
    }
  }

  /** Changing one output entry changes exactly the matching squared difference. */
  lemma SqTensorSetAt(y: Tensor, t: Tensor, c: nat, d: nat, s: nat, u: real)
    requires SameShape(y, t) && c < |y| && d < |y[c]| && s < |y[c][d]|
    ensures SameShape(SetAt(y, c, d, s, u), t)
    ensures SqTensor(SetAt(y, c, d, s, u), t) == SetAt(SqTensor(y, t), c, d, s, SqDiff(u, t[c][d][s]))
  {
    var sq := SqTensor(y, t);
    var yr, tr := y[c][d], t[c][d];
    var e := SqDiff(u, tr[s]);
    var row := yr[s := u];
    var ch := y[c][d := row];
    SqRowUpdate(yr, tr, s, u);
    assert SqRow(row, tr) == SqRow(yr, tr)[s := e];
    SqChannelUpdate(y[c], t[c], d, row);
    SqTensorUpdate(y, t, c, ch);
    assert SetAt(y, c, d, s, u) == y[c := ch];
    assert sq[c] == SqChannel(y[c], t[c]) && sq[c][d] == SqRow(yr, tr);
    assert SqChannel(ch, t[c]) == sq[c][d := sq[c][d][s := e]];
  }

  /**
   * The Mse1D gradient is the derivative of Mse1D.trLoss: moving one output
   * entry by h changes the loss by h times the gradient at that entry, plus
   * the second-order term h²/2.
   */
  lemma MseGradIsDerivative(y: Tensor, t: Tensor, c: nat, d: nat, s: nat, h: real)
    requires SameShape(y, t) && c < |y| && d < |y[c]| && s < |y[c][d]|
    ensures SameShape(SetAt(y, c, d, s, y[c][d][s] + h), t)
    ensures MseLoss(SetAt(y, c, d, s, y[c][d][s] + h), t) ==
      MseLoss(y, t) + h * GradTensor(Mse, y, t, 0.0)[c][d][s] + 0.5 * h * h
  {
    var v, w := y[c][d][s], t[c][d][s];
    MseLossSetAt(y, t, c, d, s, v + h);
    assert GradTensor(Mse, y, t, 0.0)[c][d][s] == v - w;
    HalveStep(MseLoss(y, t), MseLoss(SetAt(y, c, d, s, v + h), t), v, w, h);
  }

  /** Changing one output entry changes the Mse1D loss by half the change of its squared difference. */
  lemma MseLossSetAt(y: Tensor, t: Tensor, c: nat, d: nat, s: nat, u: real)
    requires SameShape(y, t) && c < |y| && d < |y[c]| && s < |y[c][d]|
    ensures SameShape(SetAt(y, c, d, s, u), t)
    ensures MseLoss(SetAt(y, c, d, s, u), t) ==
      MseLoss(y, t) + 0.5 * (SqDiff(u, t[c][d][s]) - SqDiff(y[c][d][s], t[c][d][s]))
  {
    var sq := SqTensor(y, t);
    SqTensorSetAt(y, t, c, d, s, u);
    SetAtTotal(sq, c, d, s, SqDiff(u, t[c][d][s]));
    assert sq[c][d][s] == SqDiff(y[c][d][s], t[c][d][s]);
  }

  /** Half of the change of (y − t)² when y moves by h. */
  lemma HalveStep(l0: real, l1: real, y: real, t: real, h: real)
    requires l1 == l0 + 0.5 * (SqDiff(y + h, t) - SqDiff(y, t))
    ensures l1 == l0 + h * (y - t) + 0.5 * h * h
  {
    SqDiffShift(y, t, h);
  }

  /** The Mse1D gradient vanishes exactly where the output meets the target, and everywhere exactly when the loss is 0. */
  lemma MseGradZeroIff(y: Tensor, t: Tensor)
    requires SameShape(y, t)
    ensures (forall c, d, s :: 0 <= c < |y| && 0 <= d < |y[c]| && 0 <= s < |y[c][d]| ==>
      GradTensor(Mse, y, t, 0.0)[c][d][s] == 0.0) <==> MseLoss(y, t) == 0.0
  {
    SqTensorZero(y, t);
    var g := GradTensor(Mse, y, t, 0.0);
    var sq := SqTensor(y, t);
    assert forall c, d, s :: 0 <= c < |y| && 0 <= d < |y[c]| && 0 <= s < |y[c][d]| ==>
      (g[c][d][s] == 0.0 <==> sq[c][d][s] == 0.0);
  }

  /** ZeroOneBce1D.evalGrad computes the same gradient as Bce1D.evalGrad, for every ε. */
  lemma ZeroOneBceGradIsBce(y: Tensor, t: Tensor, eps: real)
    requires SameShape(y, t) && GradDefined(Bce, y, t, eps)
    ensures GradDefined(ZeroOneBce, y, t, eps)
    ensures GradTensor(ZeroOneBce, y, t, eps) == GradTensor(Bce, y, t, eps)
  {
    var a, b := GradTensor(ZeroOneBce, y, t, eps), GradTensor(Bce, y, t, eps);
    forall c | 0 <= c < |y| ensures a[c] == b[c] {
      forall d | 0 <= d < |y[c]| ensures a[c][d] == b[c][d] {
        assert forall s :: 0 <= s < |y[c][d]| ==> a[c][d][s] == b[c][d][s];
      }
    }
  }

  /**
   * The ε floor: for outputs in [0, 1] (as a sigmoid produces) and any
   * positive ε, the Bce1D, ZeroOneBce1D and Cce1D divisors are positive, so
   * their gradients are defined everywhere.
   */
  lemma EpsFloorDefined(kind: LossKind, y: Tensor, t: Tensor, eps: real)
    requires SameShape(y, t) && eps > 0.0 && kind != OneHotCce
    requires forall c, d, s :: 0 <= c < |y| && 0 <= d < |y[c]| && 0 <= s < |y[c][d]| ==>
      0.0 <= y[c][d][s] <= 1.0
    ensures GradDefined(kind, y, t, eps)
  {
    forall c, d, s | 0 <= c < |y| && 0 <= d < |y[c]| && 0 <= s < |y[c][d]|
      ensures Divisible(kind, y[c][d][s], t[c][d][s], eps)
    {
      var v := y[c][d][s];
      ProductNonNegative(v, 1.0 - v);
    }
  }

  /** With ε = LOSS_E0 the floor applies: Bce1D, ZeroOneBce1D and Cce1D gradients are defined on outputs in [0, 1]. */
  lemma LossE0FloorDefined(kind: LossKind, y: Tensor, t: Tensor)
    requires SameShape(y, t) && kind != OneHotCce
    requires forall c, d, s :: 0 <= c < |y| && 0 <= d < |y[c]| && 0 <= s < |y[c][d]| ==>
      0.0 <= y[c][d][s] <= 1.0
    ensures GradDefined(kind, y, t, LossE0)
  {
    LossE0Positive();
    EpsFloorDefined(kind, y, t, LossE0);
  }


  /**
   * With a target in [0, 1], an output in [0, 1] and a positive ε, the Bce1D
   * gradient has the sign of y − t: it pushes the output towards the target,
   * and is zero exactly when they meet.
   */
  lemma BceGradSign(y: real, t: real, eps: real)
    requires 0.0 <= y <= 1.0 && eps > 0.0
    ensures Divisible(Bce, y, t, eps)
    ensures GradAt(Bce, y, t, eps) > 0.0 <==> y > t
    ensures GradAt(Bce, y, t, eps) == 0.0 <==> y == t
  {
    var q := y * (1.0 - y) + eps;
    ProductNonNegative(y, 1.0 - y);
    assert q > 0.0;
    var g := (y - t) / q;
    assert g * q == y - t;
  }

  /**
   * OneHotCce1D against Cce1D: off the target (t = 0) both gradients are 0;
   * on a one-hot position (t = 1) OneHotCce1D omits the ε floor, giving −1/y
   * where Cce1D gives −1/(y + ε).
   */
  lemma OneHotCceAgainstCce(y: real, t: real, eps: real)
    requires eps > 0.0 && y > 0.0 && (t == 0.0 || t == 1.0)
    ensures Divisible(OneHotCce, y, t, eps) && Divisible(Cce, y, t, eps)
    ensures t == 0.0 ==> GradAt(OneHotCce, y, t, eps) == GradAt(Cce, y, t, eps) == 0.0
    ensures t == 1.0 ==> GradAt(OneHotCce, y, t, eps) == -1.0 / y && GradAt(Cce, y, t, eps) == -1.0 / (y + eps)
    ensures t == 1.0 ==> GradAt(OneHotCce, y, t, eps) < GradAt(Cce, y, t, eps) < 0.0
  {
    if t == 1.0 {
      var a, b := 1.0 / y, 1.0 / (y + eps);
      assert a * y == 1.0 && b * (y + eps) == 1.0;
      assert b > 0.0;
      assert (a - b) * y == 1.0 - b * y == b * eps;
      ProductNonNegative(b, eps);
      assert b * eps != 0.0;
      PositiveFactor(a - b, y);
    }
  }
}
