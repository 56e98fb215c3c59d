/**
 * Accuracy counting of a loss node (`trAccurateCount`, `trAccuracy` and the
 * test-set versions).
 *
 * The buffers have the layout (channels, rows, batch), rows being axis 1.
 * With one row per sample the prediction is a binary decision: a position
 * counts when output and target fall on the same side of 0.5.  With several
 * rows the prediction is a class: a (channel, sample) pair counts when the
 * first-occurrence argmax over the rows agrees.  Accuracy divides the count
 * by the batch size.
 */
module Accuracy {
  import opened Tensors

  /** Output and target fall on the same side of the 0.5 threshold. */
  predicate Agree(y: real, t: real)
  {
    (y > 0.5) == (t > 0.5)
  }

  /** The positions of a row where output and target agree. */
  ghost function AgreeAt(y: Row, t: Row): set<nat>
    requires |y| == |t|
  {
    set s: nat | s < |y| && Agree(y[s], t[s])
  }

  /** The agreeing positions of a row: those before the last, and the last if it agrees. */
  lemma AgreeAtSplit(y: Row, t: Row)
    requires |y| == |t| && |y| > 0
    ensures var n := |y| - 1;
      |AgreeAt(y, t)| == |AgreeAt(y[..n], t[..n])| + (if Agree(y[n], t[n]) then 1 else 0)
  {
    var n := |y| - 1;
    assert forall s :: 0 <= s < n ==> y[..n][s] == y[s] && t[..n][s] == t[s];
    assert AgreeAt(y, t) == AgreeAt(y[..n], t[..n]) + (if Agree(y[n], t[n]) then {n} else {});
  }

  /** Number of positions of a row where output and target agree. */
  function AgreeRow(y: Row, t: Row): (r: nat)
    requires |y| == |t|
    ensures r == |AgreeAt(y, t)|
    ensures r <= |y|
    ensures r == |y| <==> forall s :: 0 <= s < |y| ==> Agree(y[s], t[s])
    ensures r == 0 <==> forall s :: 0 <= s < |y| ==> !Agree(y[s], t[s])
    decreases |y|
  {
    if y == [] then
      assert AgreeAt(y, t) == {};
      0
    else
      var n := |y| - 1;
      var init := AgreeRow(y[..n], t[..n]);
      assert forall s :: 0 <= s < n ==> y[..n][s] == y[s] && t[..n][s] == t[s];
      AgreeAtSplit(y, t);
      init + (if Agree(y[n], t[n]) then 1 else 0)
  }

  /** The (row, position) pairs of two tables at which output and target agree. */
  ghost function AgreePairs(y: seq<Row>, t: seq<Row>, batch: nat): set<(nat, nat)>
    requires |y| == |t|
    requires forall c :: 0 <= c < |y| ==> |y[c]| == batch && |t[c]| == batch
  {
    set c: nat, s: nat | c < |y| && s < batch && Agree(y[c][s], t[c][s]) :: (c, s)
  }

  /** Number of agreeing positions of two tables whose rows are `batch` long. */
  function AgreeTable(y: seq<Row>, t: seq<Row>, batch: nat): (r: nat)
    requires |y| == |t|
    requires forall c :: 0 <= c < |y| ==> |y[c]| == batch && |t[c]| == batch
    ensures r == |AgreePairs(y, t, batch)|
    ensures r <= |y| * batch
    ensures r == |y| * batch <==>
      forall c, s :: 0 <= c < |y| && 0 <= s < batch ==> Agree(y[c][s], t[c][s])
    ensures r == 0 <==>
      forall c, s :: 0 <= c < |y| && 0 <= s < batch ==> !Agree(y[c][s], t[c][s])
    decreases |y|
  {
    if y == [] then
      assert AgreePairs(y, t, batch) == {};
      0
    else
      var n := |y| - 1;
      var init := AgreeTable(y[..n], t[..n], batch);
      var last := AgreeRow(y[n], t[n]);
      assert forall c :: 0 <= c < n ==> y[..n][c] == y[c] && t[..n][c] == t[c];
      AgreePairsSplit(y, t, batch);
      MulSucc(n, batch);
      assert init + last == n * batch + batch <==> init == n * batch && last == batch;
      assert init + last == 0 <==> init == 0 && last == 0;
      init + last
  }

  /** The pairs (n, s) for the positions s in X. */
  ghost function Pairs(n: nat, X: set<nat>): set<(nat, nat)>
  {
    set s | s in X :: (n, s)
  }

  lemma {:induction false} PairsCard(n: nat, X: set<nat>)
    ensures |Pairs(n, X)| == |X|
    decreases |X|
  {
    if X == {} {
      assert Pairs(n, X) == {};
    } else {
      var x :| x in X;
      PairsCard(n, X - {x});
      assert Pairs(n, X) == Pairs(n, X - {x}) + {(n, x)};
      assert (n, x) !in Pairs(n, X - {x});
    }
  }

  /** The agreeing pairs of a table: those of all rows but the last, and those of the last. */
  lemma AgreePairsSplit(y: seq<Row>, t: seq<Row>, batch: nat)
    requires |y| == |t| && |y| > 0
    requires forall c :: 0 <= c < |y| ==> |y[c]| == batch && |t[c]| == batch
    ensures var n := |y| - 1;
      |AgreePairs(y, t, batch)| == |AgreePairs(y[..n], t[..n], batch)| + |AgreeAt(y[n], t[n])|
  {
    var n := |y| - 1;
    assert forall c :: 0 <= c < n ==> y[..n][c] == y[c] && t[..n][c] == t[c];
    var init, last := AgreePairs(y[..n], t[..n], batch), Pairs(n, AgreeAt(y[n], t[n]));
    assert AgreePairs(y, t, batch) == init + last;
    assert init * last == {};
    PairsCard(n, AgreeAt(y[n], t[n]));
  }

  /**
   * A buffer with one row per channel seen as a (channels, batch) table:
   * numpy's `x[:, 0, :]`.
   */
  function Squeeze(x: Tensor, batch: nat): (r: seq<Row>)
    requires Shaped(x, |x|, 1, batch)
    ensures |r| == |x|
    ensures forall c :: 0 <= c < |x| ==> r[c] == x[c][0] && |r[c]| == batch
  {
    seq(|x|, c requires 0 <= c < |x| => x[c][0])
  }

  /** The first index at which `v` takes its maximum (numpy's argmax). */
  function ArgMax(v: seq<real>): (r: nat)
    requires |v| > 0
    ensures r < |v|
    decreases |v|
  {
    var n := |v| - 1;
    if n == 0 then 0
    else
      var m := ArgMax(v[..n]);
      if v[n] > v[m] then n else m
  }

  /** `ArgMax` picks a maximal entry, and the first one among equal maxima. */
  lemma {:induction false} ArgMaxIsFirstMax(v: seq<real>)
    requires |v| > 0
    ensures forall k :: 0 <= k < |v| ==> v[k] <= v[ArgMax(v)]
    ensures forall k :: 0 <= k < ArgMax(v) ==> v[k] < v[ArgMax(v)]
    decreases |v|
  {
    var n := |v| - 1;
    if n > 0 {
      ArgMaxIsFirstMax(v[..n]);
      assert forall k :: 0 <= k < n ==> v[..n][k] == v[k];
    }
  }

  /**
   * The class of each of the first `n` samples of a channel: the argmax over
   * the rows, as numpy's `argmax(axis=1)` gives it for one channel.
   */
  function Classes(x: Channel, n: nat): (r: seq<nat>)
    requires |x| > 0
    requires forall d :: 0 <= d < |x| ==> n <= |x[d]|
    ensures |r| == n
    ensures forall s :: 0 <= s < n ==> r[s] == ArgMax(Col(x, s))
  {
    if n == 0 then []
    else Classes(x, n - 1) + [ArgMax(Col(x, n - 1))]
  }

  /** The positions at which two class sequences agree. */
  ghost function SameAt(a: seq<nat>, b: seq<nat>): set<nat>
    requires |a| == |b|
  {
    set s: nat | s < |a| && a[s] == b[s]
  }

  /** The agreeing positions of two class sequences: those before the last, and the last if it agrees. */
  lemma SameAtSplit(a: seq<nat>, b: seq<nat>)
    requires |a| == |b| && |a| > 0
    ensures var n := |a| - 1;
      |SameAt(a, b)| == |SameAt(a[..n], b[..n])| + (if a[n] == b[n] then 1 else 0)
  {
    var n := |a| - 1;
    assert forall s :: 0 <= s < n ==> a[..n][s] == a[s] && b[..n][s] == b[s];
    assert SameAt(a, b) == SameAt(a[..n], b[..n]) + (if a[n] == b[n] then {n} else {});
  }

  /** Number of positions at which two class sequences agree. */
  function CountSame(a: seq<nat>, b: seq<nat>): (r: nat)
    requires |a| == |b|
    ensures r == |SameAt(a, b)|
    ensures r <= |a|
    ensures r == |a| <==> forall s :: 0 <= s < |a| ==> a[s] == b[s]
    ensures r == 0 <==> forall s :: 0 <= s < |a| ==> a[s] != b[s]
    decreases |a|
  {
    if a == [] then
      assert SameAt(a, b) == {};
      0
    else
      var n := |a| - 1;
      var init := CountSame(a[..n], b[..n]);
      assert forall s :: 0 <= s < n ==> a[..n][s] == a[s] && b[..n][s] == b[s];
      SameAtSplit(a, b);
      init + (if a[n] == b[n] then 1 else 0)
  }

  /** The (channel, sample) pairs at which two class tables agree. */
  ghost function SamePairs(a: seq<seq<nat>>, b: seq<seq<nat>>, batch: nat): set<(nat, nat)>
    requires |a| == |b|
    requires forall c :: 0 <= c < |a| ==> |a[c]| == batch && |b[c]| == batch
  {
    set c: nat, s: nat | c < |a| && s < batch && a[c][s] == b[c][s] :: (c, s)
  }

  /** The agreeing pairs of two class tables: those of all channels but the last, and those of the last. */
  lemma SamePairsSplit(a: seq<seq<nat>>, b: seq<seq<nat>>, batch: nat)
    requires |a| == |b| && |a| > 0
    requires forall c :: 0 <= c < |a| ==> |a[c]| == batch && |b[c]| == batch
    ensures var n := |a| - 1;
      |SamePairs(a, b, batch)| == |SamePairs(a[..n], b[..n], batch)| + |SameAt(a[n], b[n])|
  {
    var n := |a| - 1;
    assert forall c :: 0 <= c < n ==> a[..n][c] == a[c] && b[..n][c] == b[c];
    var init, last := SamePairs(a[..n], b[..n], batch), Pairs(n, SameAt(a[n], b[n]));
    assert SamePairs(a, b, batch) == init + last;
    assert init * last == {};
    PairsCard(n, SameAt(a[n], b[n]));
  }

  /** Number of (channel, sample) positions at which two class tables agree. */
  function CountSameTable(a: seq<seq<nat>>, b: seq<seq<nat>>, batch: nat): (r: nat)
    requires |a| == |b|
    requires forall c :: 0 <= c < |a| ==> |a[c]| == batch && |b[c]| == batch
    ensures r == |SamePairs(a, b, batch)|
    ensures r <= |a| * batch
    ensures r == |a| * batch <==>
      forall c, s :: 0 <= c < |a| && 0 <= s < batch ==> a[c][s] == b[c][s]
    ensures r == 0 <==>
      forall c, s :: 0 <= c < |a| && 0 <= s < batch ==> a[c][s] != b[c][s]
    decreases |a|
  {
    if a == [] then
      assert SamePairs(a, b, batch) == {};
      0
    else
      var n := |a| - 1;
      var init := CountSameTable(a[..n], b[..n], batch);
      var last := CountSame(a[n], b[n]);
      assert forall c :: 0 <= c < n ==> a[..n][c] == a[c] && b[..n][c] == b[c];
      SamePairsSplit(a, b, batch);
      MulSucc(n, batch);
      assert init + last == n * batch + batch <==> init == n * batch && last == batch;
      assert init + last == 0 <==> init == 0 && last == 0;
      init + last
  }

  /** numpy's `argmax(axis=1)` of a whole buffer: the class of every (channel, sample). */
  function ClassTable(x: Tensor, rows: nat, batch: nat): (r: seq<seq<nat>>)
    requires rows > 0 && Shaped(x, |x|, rows, batch)
    ensures |r| == |x|
    ensures forall c :: 0 <= c < |x| ==> |r[c]| == batch
    ensures forall c, s :: 0 <= c < |x| && 0 <= s < batch ==> r[c][s] == ArgMax(Col(x[c], s))
  {
    seq(|x|, c requires 0 <= c < |x| => Classes(x[c], batch))
  }

  /** Number of (channel, sample) pairs of the buffer whose argmax over the rows agrees. */
  function ArgMaxTensor(y: Tensor, t: Tensor, rows: nat, batch: nat): (r: nat)
    requires rows > 0
    requires Shaped(y, |y|, rows, batch) && Shaped(t, |y|, rows, batch)
    ensures r == |SamePairs(ClassTable(y, rows, batch), ClassTable(t, rows, batch), batch)|
    ensures r <= |y| * batch
    ensures r == |y| * batch <==>
      forall c, s :: 0 <= c < |y| && 0 <= s < batch ==> ClassTable(y, rows, batch)[c][s] == ClassTable(t, rows, batch)[c][s]
    ensures r == 0 <==>
      forall c, s :: 0 <= c < |y| && 0 <= s < batch ==> ClassTable(y, rows, batch)[c][s] != ClassTable(t, rows, batch)[c][s]
  {
    CountSameTable(ClassTable(y, rows, batch), ClassTable(t, rows, batch), batch)
  }

  /**
   * Sample `s` of channel `c` is predicted right: on the same side of 0.5
   * with one row, with the same argmax over the rows otherwise.
   */
  predicate Hit(y: Tensor, t: Tensor, rows: nat, batch: nat, c: nat, s: nat)
    requires rows > 0 && Shaped(y, |y|, rows, batch) && Shaped(t, |y|, rows, batch)
    requires c < |y| && s < batch
  {
    if rows == 1 then Agree(y[c][0][s], t[c][0][s])
    else ClassTable(y, rows, batch)[c][s] == ClassTable(t, rows, batch)[c][s]
  }

  /** The (channel, sample) pairs predicted right. */
  ghost function HitPairs(y: Tensor, t: Tensor, rows: nat, batch: nat): set<(nat, nat)>
    requires rows > 0 && Shaped(y, |y|, rows, batch) && Shaped(t, |y|, rows, batch)
  {
    set c: nat, s: nat | c < |y| && s < batch && Hit(y, t, rows, batch, c, s) :: (c, s)
  }

  /**
   * `trAccurateCount`: with one row the thresholded count, otherwise the
   * argmax count; none for zero rows, where numpy's argmax over an empty
   * axis raises.
   */
  function AccurateCount(y: Tensor, t: Tensor, rows: nat, batch: nat): (r: Option<nat>)
    requires Shaped(y, |y|, rows, batch) && Shaped(t, |y|, rows, batch)
    ensures r.Some? <==> rows > 0
    ensures r.Some? ==> r.value == |HitPairs(y, t, rows, batch)|
    ensures r.Some? ==> r.value <= |y| * batch
    ensures r.Some? ==> (r.value == |y| * batch <==>
      forall c, s :: 0 <= c < |y| && 0 <= s < batch ==> Hit(y, t, rows, batch, c, s))
    ensures r.Some? ==> (r.value == 0 <==>
      forall c, s :: 0 <= c < |y| && 0 <= s < batch ==> !Hit(y, t, rows, batch, c, s))
  {
    if rows == 1 then
      OneRowHits(y, t, batch);
      Some(AgreeTable(Squeeze(y, batch), Squeeze(t, batch), batch))
    else if rows == 0 then None
    else
      ClassHits(y, t, rows, batch);
      Some(ArgMaxTensor(y, t, rows, batch))
  }

  /** With one row, agreement at every (channel, sample) of the table is a hit at every (channel, sample). */
  lemma OneRowHits(y: Tensor, t: Tensor, batch: nat)
    requires Shaped(y, |y|, 1, batch) && Shaped(t, |y|, 1, batch)
    ensures (forall c, s :: 0 <= c < |y| && 0 <= s < batch ==>
      Agree(Squeeze(y, batch)[c][s], Squeeze(t, batch)[c][s])) <==>
      (forall c, s :: 0 <= c < |y| && 0 <= s < batch ==> Hit(y, t, 1, batch, c, s))
    ensures (forall c, s :: 0 <= c < |y| && 0 <= s < batch ==>
      !Agree(Squeeze(y, batch)[c][s], Squeeze(t, batch)[c][s])) <==>
      (forall c, s :: 0 <= c < |y| && 0 <= s < batch ==> !Hit(y, t, 1, batch, c, s))
    ensures HitPairs(y, t, 1, batch) == AgreePairs(Squeeze(y, batch), Squeeze(t, batch), batch)
  {
    forall c, s | 0 <= c < |y| && 0 <= s < batch
      ensures Hit(y, t, 1, batch, c, s) == Agree(Squeeze(y, batch)[c][s], Squeeze(t, batch)[c][s])
    {
    }
  }

  /** With several rows, equal classes at every (channel, sample) is a hit at every (channel, sample). */
  lemma ClassHits(y: Tensor, t: Tensor, rows: nat, batch: nat)
    requires rows > 1 && Shaped(y, |y|, rows, batch) && Shaped(t, |y|, rows, batch)
    ensures (forall c, s :: 0 <= c < |y| && 0 <= s < batch ==>
      ClassTable(y, rows, batch)[c][s] == ClassTable(t, rows, batch)[c][s]) <==>
      (forall c, s :: 0 <= c < |y| && 0 <= s < batch ==> Hit(y, t, rows, batch, c, s))
    ensures (forall c, s :: 0 <= c < |y| && 0 <= s < batch ==>
      ClassTable(y, rows, batch)[c][s] != ClassTable(t, rows, batch)[c][s]) <==>
      (forall c, s :: 0 <= c < |y| && 0 <= s < batch ==> !Hit(y, t, rows, batch, c, s))
    ensures HitPairs(y, t, rows, batch) == SamePairs(ClassTable(y, rows, batch), ClassTable(t, rows, batch), batch)
  {
    forall c, s | 0 <= c < |y| && 0 <= s < batch
      ensures Hit(y, t, rows, batch, c, s) == (ClassTable(y, rows, batch)[c][s] == ClassTable(t, rows, batch)[c][s])
    {
    }
  }

  /**
   * `trAccuracy`: the count divided by the batch size; none where the count
   * raises or the batch is empty (0 / 0 is NaN).  It lies in [0, channels],
   * so in [0, 1] for a single channel; it is the number of channels iff
   * every (channel, sample) pair is a hit, and 0 iff none is.
   */
  function AccuracyOf(y: Tensor, t: Tensor, rows: nat, batch: nat): (r: Option<real>)
    requires Shaped(y, |y|, rows, batch) && Shaped(t, |y|, rows, batch)
    ensures r.Some? <==> rows > 0 && batch > 0
    ensures r.Some? ==> r.value == AccurateCount(y, t, rows, batch).value as real / batch as real
    ensures r.Some? ==> 0.0 <= r.value <= |y| as real
    ensures r.Some? ==> (r.value == |y| as real <==>
      forall c, s :: 0 <= c < |y| && 0 <= s < batch ==> Hit(y, t, rows, batch, c, s))
    ensures r.Some? ==> (r.value == 0.0 <==>
      forall c, s :: 0 <= c < |y| && 0 <= s < batch ==> !Hit(y, t, rows, batch, c, s))
  {
    match AccurateCount(y, t, rows, batch)
    case None => None
    case Some(n) =>
      if batch == 0 then None
      else
        DivBound(n, |y|, batch);
        DivIff(n, |y|, batch);
        Some(n as real / batch as real)
  }

  lemma MulSucc(n: nat, b: nat)
    ensures (n + 1) * b == n * b + b
  {
  }

  /** A count of at most k per sample, divided by the batch size, lies in [0, k]. */
  lemma DivBound(n: nat, k: nat, b: nat)
    requires b > 0 && n <= k * b
    ensures 0.0 <= n as real / b as real <= k as real
  {
    var q := n as real / b as real;
    assert q * (b as real) == n as real;
    assert (k * b) as real == (k as real) * (b as real);
  }

  /** The quotient is k exactly when the count is k per sample, and 0 exactly when the count is 0. */
  lemma DivIff(n: nat, k: nat, b: nat)
    requires b > 0
    ensures n as real / b as real == k as real <==> n == k * b
    ensures n as real / b as real == 0.0 <==> n == 0
  {
    var q := n as real / b as real;
    assert q * (b as real) == n as real;
    assert (k * b) as real == (k as real) * (b as real);
  }

  /** A perfect prediction is counted right at every (channel, sample) pair. */
  lemma PerfectCount(t: Tensor, rows: nat, batch: nat)
    requires rows > 0 && Shaped(t, |t|, rows, batch)
    ensures AccurateCount(t, t, rows, batch) == Some(|t| * batch)
  {
    assert forall c, s :: 0 <= c < |t| && 0 <= s < batch ==> Hit(t, t, rows, batch, c, s);
  }

  /** A perfect prediction has accuracy equal to the number of channels (1 for one channel). */
  lemma PerfectAccuracy(t: Tensor, rows: nat, batch: nat)
    requires rows > 0 && batch > 0 && Shaped(t, |t|, rows, batch)
    ensures AccuracyOf(t, t, rows, batch) == Some(|t| as real)
  {
    PerfectCount(t, rows, batch);
    DivIff(|t| * batch, |t|, batch);
  }
}
