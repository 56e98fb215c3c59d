/**
 * The terminal loss node of the channel-first node graph (`LossFunc1D`).
 *
 * A loss node merges the outputs of its predecessors into one buffer per
 * data set (train, test, prediction), laid out channel first as
 * (channels, rows, batch).  `compile` gives predecessor i the channel range
 * [startYs[i], endYs[i]) of the merged buffer; the forward `push*`
 * operations copy a predecessor's fragment into its range, and the backward
 * `pullGrad` evaluates the gradient of the loss and hands every predecessor
 * its range of `gradY`.  The loss variant (Mse1D, Bce1D, ...) is the
 * constant `kind`.
 */
module LossNode {
  import opened Tensors
  import opened Layout
  import opened Accuracy
  import opened Losses

  /** The per-sample shape of a node's output: unknown before `compile`, a length, or a 2-D grid. */
  datatype Dim = Unknown | Flat(n: nat) | Grid(h: nat, w: nat)

  /** Rows per channel of a buffer of this shape (a grid is flattened row by row). */
  function Rows(d: Dim): nat
    requires d != Unknown
  {
    match d
    case Flat(n) => n
    case Grid(h, w) => h * w
  }

  /** The outcome of `compile`: True, False, or the IndexError of a node without predecessors. */
  datatype CompileStatus = Compiled | ShapeUnknown | NoPredecessor

  /**
   * A predecessor node as the loss node sees it: its output shape and
   * channel count, the back-links `addPrevSets` records, and the gradient
   * slices it has been handed.
   */
  class PrevSet {
    var ydim: Dim
    var ychs: nat
    var nextSets: seq<object>
    var nextInd: seq<int>
    var received: seq<seq<Channel>>

    constructor(ydim: Dim, ychs: nat)
      ensures this.ydim == ydim && this.ychs == ychs
      ensures nextSets == [] && nextInd == [] && received == []
    {
      this.ydim := ydim;
      this.ychs := ychs;
      nextSets := [];
      nextInd := [];
      received := [];
    }

    /** The predecessor's `pullGrad`: it records the slice of `gradY` it is given. */
    method PullGrad(g: seq<Channel>)
      modifies this
      ensures received == old(received) + [g]
      ensures ydim == old(ydim) && ychs == old(ychs)
      ensures nextSets == old(nextSets) && nextInd == old(nextInd)
    {
      received := received + [g];
    }
  }

  /** The channel counts of the predecessors, in order. */
  function Chs(ps: seq<PrevSet>): (r: seq<nat>)
    reads ps
    ensures |r| == |ps|
  {
    if ps == [] then [] else Chs(ps[..|ps| - 1]) + [ps[|ps| - 1].ychs]
  }

  lemma {:induction false} ChsAt(ps: seq<PrevSet>, i: nat)
    requires i < |ps|
    ensures Chs(ps)[i] == ps[i].ychs
    decreases |ps|
  {
    var n := |ps| - 1;
    if i < n {
      ChsAt(ps[..n], i);
    }
  }

  /** Every predecessor's output shape is known. */
  ghost predicate ShapesKnown(ps: seq<PrevSet>)
    reads ps
  {
    forall i :: 0 <= i < |ps| ==> ps[i].ydim != Unknown
  }

  /** n copies of the node `o`. */
  function Copies(o: object, n: nat): (r: seq<object>)
    ensures |r| == n && forall k :: 0 <= k < n ==> r[k] == o
  {
    if n == 0 then [] else Copies(o, n - 1) + [o]
  }

  /** One step of `addPrevSets`: the links of `p` after argument k is handled. */
  lemma LinkStep(args: seq<PrevSet>, k: nat, p: PrevSet, base: nat, node: object,
                 ind0: seq<int>, ind: seq<int>, sets0: seq<object>, sets: seq<object>)
    requires k < |args|
    requires ind == ind0 + Positions(args[..k], p, base)
    requires sets == sets0 + Copies(node, |Positions(args[..k], p, base)|)
    ensures (if args[k] == p then ind + [base + k] else ind) == ind0 + Positions(args[..k + 1], p, base)
    ensures (if args[k] == p then sets + [node] else sets) == sets0 + Copies(node, |Positions(args[..k + 1], p, base)|)
  {
    PositionsSnoc(args, k, p, base);
    var pos := Positions(args[..k], p, base);
    if args[k] == p {
      assert ind0 + pos + [base + k] == ind0 + (pos + [base + k]);
      assert Copies(node, |pos| + 1) == Copies(node, |pos|) + [node];
      assert sets0 + Copies(node, |pos|) + [node] == sets0 + (Copies(node, |pos|) + [node]);
    }
  }

  /**
   * The loop of `addPrevSets`: appends `args` to the list `prev`; each
   * argument gets `node` appended to its `nextSets` and the index it now
   * occupies in the list appended to its `nextInd`, once per occurrence.
   */
  method Register(prev: seq<PrevSet>, args: seq<PrevSet>, node: object) returns (ps: seq<PrevSet>)
    modifies args
    ensures ps == prev + args
    ensures forall p :: p in args ==>
      p.nextInd == old(p.nextInd) + Positions(args, p, |prev|) &&
      p.nextSets == old(p.nextSets) + Copies(node, |Positions(args, p, |prev|)|)
    ensures forall p :: p in args ==> p.ydim == old(p.ydim) && p.ychs == old(p.ychs) && p.received == old(p.received)
  {
    var base := |prev|;
    ps := prev;
    var k := 0;
    while k < |args|
      invariant 0 <= k <= |args|
      invariant ps == prev + args[..k]
      invariant forall p :: p in args ==>
        p.nextInd == old(p.nextInd) + Positions(args[..k], p, base) &&
        p.nextSets == old(p.nextSets) + Copies(node, |Positions(args[..k], p, base)|)
      invariant forall p :: p in args ==> p.ydim == old(p.ydim) && p.ychs == old(p.ychs) && p.received == old(p.received)
      modifies args
    {
      var pset := args[k];
      assert |ps| == base + k;
      label Head:
      pset.nextInd := pset.nextInd + [|ps|];
      ps := ps + [pset];
      pset.nextSets := pset.nextSets + [node];
      forall p | p in args
        ensures p.nextInd == old(p.nextInd) + Positions(args[..k + 1], p, base)
        ensures p.nextSets == old(p.nextSets) + Copies(node, |Positions(args[..k + 1], p, base)|)
      {
        assert p.nextInd == if args[k] == p then old@Head(p.nextInd) + [base + k] else old@Head(p.nextInd);
        assert p.nextSets == if args[k] == p then old@Head(p.nextSets) + [node] else old@Head(p.nextSets);
        LinkStep(args, k, p, base, node, old(p.nextInd), old@Head(p.nextInd), old(p.nextSets), old@Head(p.nextSets));
      }
      assert args[..k + 1] == args[..k] + [pset];
      k := k + 1;
    }
    assert args[..|args|] == args;
  }

  /** One step of `pullGrad`: what `p` has received after predecessor i is handed slice i. */
  lemma HandStep(prevs: seq<PrevSet>, ss: seq<seq<Channel>>, i: nat, p: PrevSet,
                 rec0: seq<seq<Channel>>, rec: seq<seq<Channel>>)
    requires i < |prevs| == |ss|
    requires rec == rec0 + Handed(prevs[..i], p, ss[..i])
    ensures (if prevs[i] == p then rec + [ss[i]] else rec) == rec0 + Handed(prevs[..i + 1], p, ss[..i + 1])
  {
    assert prevs[..i + 1][..i] == prevs[..i];
    assert ss[..i + 1][..i] == ss[..i];
    if prevs[i] == p {
      assert rec0 + Handed(prevs[..i], p, ss[..i]) + [ss[i]] == rec0 + (Handed(prevs[..i], p, ss[..i]) + [ss[i]]);
    }
  }

  /** The loop of `pullGrad`: predecessor i is handed slice i, in order. */
  method HandOut(ps: seq<PrevSet>, ss: seq<seq<Channel>>)
    requires |ps| == |ss|
    modifies ps
    ensures forall p :: p in ps ==> p.received == old(p.received) + Handed(ps, p, ss)
    ensures forall p :: p in ps ==>
      p.ydim == old(p.ydim) && p.ychs == old(p.ychs) && p.nextSets == old(p.nextSets) && p.nextInd == old(p.nextInd)
  {
    var i := 0;
    while i < |ps|
      invariant 0 <= i <= |ps|
      invariant forall p :: p in ps ==> p.received == old(p.received) + Handed(ps[..i], p, ss[..i])
      invariant forall p :: p in ps ==>
        p.ydim == old(p.ydim) && p.ychs == old(p.ychs) && p.nextSets == old(p.nextSets) && p.nextInd == old(p.nextInd)
    {
      var pset := ps[i];
      label Head:
      pset.PullGrad(ss[i]);
      forall p | p in ps
        ensures p.received == old(p.received) + Handed(ps[..i + 1], p, ss[..i + 1])
      {
        assert p.received == if ps[i] == p then old@Head(p.received) + [ss[i]] else old@Head(p.received);
        HandStep(ps, ss, i, p, old(p.received), old@Head(p.received));
      }
      i := i + 1;
    }
    assert ps[..|ps|] == ps && ss[..|ss|] == ss;
  }

  /**
   * `np.empty((chs, rows, batch))`: a fresh buffer of that shape.  Its
   * contents are unspecified; the model fills it with zeros.
   */
  method Allocate(chs: nat, rows: nat, batch: nat) returns (a: array<Channel>)
    ensures fresh(a) && Shaped(a[..], chs, rows, batch)
  {
    a := new Channel[chs](_ => seq(rows, _ => seq(batch, _ => 0.0)));
  }

  /** The slice assignment `buf[start:start + len(frag)] = frag`. */
  method Fill(buf: array<Channel>, start: nat, frag: seq<Channel>)
    requires start + |frag| <= buf.Length
    modifies buf
    ensures buf[..] == Place(old(buf[..]), start, frag)
  {
    forall k | start <= k < start + |frag| {
      buf[k] := frag[k - start];
    }
  }

  /** `fill(0)` on one channel: the same shape, every entry zero. */
  function ZeroChannel(g: Channel): (r: Channel)
    ensures |r| == |g| && forall d :: 0 <= d < |g| ==> |r[d]| == |g[d]|
    ensures forall d, s :: 0 <= d < |g| && 0 <= s < |g[d]| ==> r[d][s] == 0.0
  {
    seq(|g|, d requires 0 <= d < |g| => seq(|g[d]|, _ => 0.0))
  }

  /**
   * The masked assignment `gradY[t.nonzero()] = -1 / y[t.nonzero()]` on one
   * channel: entries where the target is nonzero get -1/y, the others keep
   * their value.
   */
  function Scatter(g: Channel, y: Channel, t: Channel): (r: Channel)
    requires |g| == |y| == |t|
    requires forall d :: 0 <= d < |g| ==> |g[d]| == |y[d]| == |t[d]|
    requires forall d, s :: 0 <= d < |y| && 0 <= s < |y[d]| ==> t[d][s] != 0.0 ==> y[d][s] != 0.0
    ensures |r| == |g| && forall d :: 0 <= d < |g| ==> |r[d]| == |g[d]|
    ensures forall d, s :: 0 <= d < |g| && 0 <= s < |g[d]| ==>
      r[d][s] == if t[d][s] != 0.0 then -1.0 / y[d][s] else g[d][s]
  {
    seq(|g|, d requires 0 <= d < |g| =>
      seq(|g[d]|, s requires 0 <= s < |g[d]| => if t[d][s] != 0.0 then -1.0 / y[d][s] else g[d][s]))
  }

  /** Zero-filling and then scattering -1/y at the nonzero targets is the one-hot gradient. */
  lemma ScatterIsOneHotGrad(g: Channel, y: Channel, t: Channel)
    requires |g| == |y| == |t|
    requires forall d :: 0 <= d < |g| ==> |g[d]| == |y[d]| == |t[d]|
    requires forall d, s :: 0 <= d < |y| && 0 <= s < |y[d]| ==> t[d][s] != 0.0 ==> y[d][s] != 0.0
    ensures Scatter(ZeroChannel(g), y, t) == GradChannel(OneHotCce, y, t, LossE0)
  {
    var a, b := Scatter(ZeroChannel(g), y, t), GradChannel(OneHotCce, y, t, LossE0);
    forall d | 0 <= d < |y| ensures a[d] == b[d] {
      assert b[d] == GradRow(OneHotCce, y[d], t[d], LossE0);
    }
  }

  /** A total divided by a nonzero batch size. */
  function Mean(total: real, batch: nat): (r: real)
    requires batch > 0
    ensures r * batch as real == total
    ensures total >= 0.0 ==> r >= 0.0
    ensures r == 0.0 <==> total == 0.0
  {
    total / batch as real
  }

  /** The first loop of `compile`: false as soon as a predecessor's shape is unknown. */
  method KnownShapes(ps: seq<PrevSet>) returns (known: bool)
    ensures known == ShapesKnown(ps)
  {
    var i := 0;
    while i < |ps|
      invariant 0 <= i <= |ps|
      invariant ShapesKnown(ps[..i])
    {
      if ps[i].ydim == Unknown {
        return false;
      }
      i := i + 1;
    }
    assert ps[..i] == ps;
    return true;
  }

  /**
   * The table-building loop of `compile`: predecessor i starts at the
   * running channel total and ends after its own channels.
   */
  method LayTable(chs: seq<nat>) returns (starts: array<int>, ends: array<int>, total: nat)
    ensures fresh(starts) && fresh(ends)
    ensures starts[..] == Starts(chs) && ends[..] == Ends(chs) && total == SumNat(chs)
  {
    ghost var st, en := Starts(chs), Ends(chs);
    starts := new int[|chs|];
    ends := new int[|chs|];
    total := 0;
    var i := 0;
    while i < |chs|
      invariant 0 <= i <= |chs|
      invariant total == SumNat(chs[..i])
      invariant forall j :: 0 <= j < i ==> starts[j] == st[j] && ends[j] == en[j]
      modifies starts, ends
    {
      StartsAt(chs, i);
      EndAt(chs, i);
      starts[i] := total;
      total := total + chs[i];
      ends[i] := total;
      i := i + 1;
    }
    assert chs[..|chs|] == chs;
    assert starts[..] == st by {
      forall j | 0 <= j < |st| ensures starts[..][j] == st[j] { }
    }
    assert ends[..] == en by {
      forall j | 0 <= j < |en| ensures ends[..][j] == en[j] { }
    }
  }

  class LossFunc1D {
    const kind: LossKind
    var ydim: Dim
    var ychs: nat
    // merged outputs of the predecessors, and their batch sizes (axis -1)
    var trY: array<Channel>
    var teY: array<Channel>
    var prY: array<Channel>
    var trBatch: nat
    var teBatch: nat
    var prBatch: nat
    // targets, assigned by the graph
    var trT: seq<Channel>
    var teT: seq<Channel>
    var gradY: array<Channel>
    var prevSets: seq<PrevSet>
    // the channel table: trY[startYs[i]..endYs[i]] belongs to prevSets[i]
    var startYs: array<int>
    var endYs: array<int>

    /** The four buffers are distinct arrays. */
    ghost predicate Valid()
      reads this
    {
      trY != teY && trY != prY && teY != prY &&
      gradY != trY && gradY != teY && gradY != prY
    }

    /** The channel table gives every predecessor a range inside a buffer of n channels. */
    ghost predicate Table(n: nat)
      reads this, startYs, endYs
    {
      startYs.Length == endYs.Length == |prevSets| &&
      RangesWithin(startYs[..], endYs[..], n)
    }

    constructor(kind: LossKind)
      ensures this.kind == kind && ydim == Unknown && prevSets == []
      ensures trY.Length == 0 && teY.Length == 0 && prY.Length == 0 && gradY.Length == 0
      ensures ychs == 0 && trBatch == 0 && teBatch == 0 && prBatch == 0
      ensures trT == [] && teT == [] && startYs.Length == 0 && endYs.Length == 0
      ensures Valid()
    {
      this.kind := kind;
      ydim := Unknown;
      ychs := 0;
      trY := new Channel[0];
      teY := new Channel[0];
      prY := new Channel[0];
      gradY := new Channel[0];
      trBatch, teBatch, prBatch := 0, 0, 0;
      trT, teT := [], [];
      prevSets := [];
      startYs := new int[0];
      endYs := new int[0];
    }

    /**
     * `addPrevSets`: appends the arguments to `prevSets` in order; each
     * argument gets this node appended to its `nextSets` and the index it
     * now occupies in `prevSets` appended to its `nextInd`, once per
     * occurrence in the arguments.
     */
    method AddPrevSets(args: seq<PrevSet>)
      modifies this, args
      ensures prevSets == old(prevSets) + args
      ensures forall p :: p in args ==>
        p.nextInd == old(p.nextInd) + Positions(args, p, |old(prevSets)|) &&
        p.nextSets == old(p.nextSets) + Copies(this, |Positions(args, p, |old(prevSets)|)|)
      ensures forall p :: p in args ==> p.ydim == old(p.ydim) && p.ychs == old(p.ychs) && p.received == old(p.received)
      ensures ydim == old(ydim) && ychs == old(ychs) && Valid() == old(Valid())
      ensures trY == old(trY) && teY == old(teY) && prY == old(prY) && gradY == old(gradY)
      ensures startYs == old(startYs) && endYs == old(endYs)
      ensures trT == old(trT) && teT == old(teT)
      ensures trBatch == old(trBatch) && teBatch == old(teBatch) && prBatch == old(prBatch)
    {
      prevSets := Register(prevSets, args, this);
    }

    /**
     * `compile`: fails, changing nothing, when a predecessor's shape is
     * unknown; raises (changing nothing) when there is no predecessor;
     * otherwise takes the first predecessor's shape and lays out the
     * channel table as prefix sums of the predecessors' channel counts.
     */
    method Compile() returns (status: CompileStatus)
      modifies this
      ensures status == ShapeUnknown <==> !old(ShapesKnown(prevSets))
      ensures status == NoPredecessor <==> old(ShapesKnown(prevSets)) && prevSets == []
      ensures status != Compiled ==> ydim == old(ydim) && ychs == old(ychs) && startYs == old(startYs) && endYs == old(endYs)
      ensures status == Compiled ==>
        ydim == prevSets[0].ydim && ydim != Unknown &&
        fresh(startYs) && fresh(endYs) &&
        startYs[..] == Starts(old(Chs(prevSets))) && endYs[..] == Ends(old(Chs(prevSets))) &&
        ychs == SumNat(old(Chs(prevSets)))
      ensures prevSets == old(prevSets)
      ensures trY == old(trY) && teY == old(teY) && prY == old(prY) && gradY == old(gradY)
      ensures trBatch == old(trBatch) && teBatch == old(teBatch) && prBatch == old(prBatch)
      ensures trT == old(trT) && teT == old(teT)
    {
      var chs := Chs(prevSets);
      var known := KnownShapes(prevSets);
      if !known {
        status := ShapeUnknown;
      } else if prevSets == [] {
        status := NoPredecessor;
      } else {
        var starts, ends, total := LayTable(chs);
        ydim := prevSets[0].ydim;
        startYs, endYs, ychs := starts, ends, total;
        status := Compiled;
      }
    }

    /**
     * `prePropBoth`: fresh train and test buffers of shape (ychs, rows,
     * size), and a gradient buffer of the train buffer's shape.
     */
    method PrePropBoth(trSiz: nat, teSiz: nat)
      requires ydim != Unknown
      modifies this
      ensures fresh(trY) && fresh(teY) && fresh(gradY) && Valid()
      ensures ydim == old(ydim)
      ensures Shaped(trY[..], ychs, Rows(ydim), trSiz) && Shaped(teY[..], ychs, Rows(ydim), teSiz)
      ensures SameShape(gradY[..], trY[..]) && trBatch == trSiz && teBatch == teSiz
      ensures prY == old(prY) && prBatch == old(prBatch)
      ensures ychs == old(ychs) && prevSets == old(prevSets)
      ensures startYs == old(startYs) && endYs == old(endYs) && trT == old(trT) && teT == old(teT)
    {
      var rows := Rows(ydim);
      trY := Allocate(ychs, rows, trSiz);
      teY := Allocate(ychs, rows, teSiz);
      gradY := Allocate(ychs, rows, trSiz);
      trBatch, teBatch := trSiz, teSiz;
    }

    /** `prePropTr`: a fresh train buffer and a gradient buffer of its shape. */
    method PrePropTr(trSiz: nat)
      requires ydim != Unknown
      modifies this
      ensures fresh(trY) && fresh(gradY) && Valid() == old(prY != teY)
      ensures ydim == old(ydim)
      ensures Shaped(trY[..], ychs, Rows(ydim), trSiz)
      ensures SameShape(gradY[..], trY[..]) && trBatch == trSiz
      ensures teY == old(teY) && prY == old(prY) && teBatch == old(teBatch) && prBatch == old(prBatch)
      ensures ychs == old(ychs) && prevSets == old(prevSets)
      ensures startYs == old(startYs) && endYs == old(endYs) && trT == old(trT) && teT == old(teT)
    {
      var rows := Rows(ydim);
      trY := Allocate(ychs, rows, trSiz);
      gradY := Allocate(ychs, rows, trSiz);
      trBatch := trSiz;
    }

    /** `prePropTe`: a fresh test buffer; the gradient buffer is left alone. */
    method PrePropTe(teSiz: nat)
      requires ydim != Unknown
      modifies this
      ensures fresh(teY) && Valid() == old(trY != prY && gradY != trY && gradY != prY)
      ensures ydim == old(ydim)
      ensures Shaped(teY[..], ychs, Rows(ydim), teSiz) && teBatch == teSiz
      ensures gradY == old(gradY) && trY == old(trY) && prY == old(prY)
      ensures trBatch == old(trBatch) && prBatch == old(prBatch)
      ensures ychs == old(ychs) && prevSets == old(prevSets)
      ensures startYs == old(startYs) && endYs == old(endYs) && trT == old(trT) && teT == old(teT)
    {
      teY := Allocate(ychs, Rows(ydim), teSiz);
      teBatch := teSiz;
    }

    /** `prePropPr`: a fresh prediction buffer; the gradient buffer is left alone. */
    method PrePropPr(prSiz: nat)
      requires ydim != Unknown
      modifies this
      ensures fresh(prY) && Valid() == old(trY != teY && gradY != trY && gradY != teY)
      ensures ydim == old(ydim)
      ensures Shaped(prY[..], ychs, Rows(ydim), prSiz) && prBatch == prSiz
      ensures gradY == old(gradY) && trY == old(trY) && teY == old(teY)
      ensures trBatch == old(trBatch) && teBatch == old(teBatch)
      ensures ychs == old(ychs) && prevSets == old(prevSets)
      ensures startYs == old(startYs) && endYs == old(endYs) && trT == old(trT) && teT == old(teT)
    {
      prY := Allocate(ychs, Rows(ydim), prSiz);
      prBatch := prSiz;
    }

    /** The channel range of predecessor `index` fits `frag` inside a buffer of n channels. */
    ghost predicate Fits(index: nat, n: nat, frag: seq<Channel>)
      reads this, startYs, endYs
    {
      index < startYs.Length && index < endYs.Length &&
      0 <= startYs[index] <= endYs[index] <= n && |frag| == endYs[index] - startYs[index]
    }

    /** `pushTr` (forward propagation): predecessor `index` writes its fragment into its range of trY. */
    method PushTr(index: nat, frag: seq<Channel>)
      requires Fits(index, trY.Length, frag)
      modifies trY
      ensures trY[..] == Place(old(trY[..]), startYs[index], frag)
    {
      Fill(trY, startYs[index], frag);
    }

    /** `pushTe`: the same for the test buffer. */
    method PushTe(index: nat, frag: seq<Channel>)
      requires Fits(index, teY.Length, frag)
      modifies teY
      ensures teY[..] == Place(old(teY[..]), startYs[index], frag)
    {
      Fill(teY, startYs[index], frag);
    }

    /** `pushPr`: the same for the prediction buffer. */
    method PushPr(index: nat, frag: seq<Channel>)
      requires Fits(index, prY.Length, frag)
      modifies prY
      ensures prY[..] == Place(old(prY[..]), startYs[index], frag)
    {
      Fill(prY, startYs[index], frag);
    }

    /** `pushBoth`: the train and test fragments into the same range of trY and teY. */
    method PushBoth(index: nat, trFrag: seq<Channel>, teFrag: seq<Channel>)
      requires Valid() && Fits(index, trY.Length, trFrag) && Fits(index, teY.Length, teFrag)
      modifies trY, teY
      ensures trY[..] == Place(old(trY[..]), startYs[index], trFrag)
      ensures teY[..] == Place(old(teY[..]), startYs[index], teFrag)
    {
      Fill(trY, startYs[index], trFrag);
      Fill(teY, startYs[index], teFrag);
    }

    /** What `evalGrad` needs: output, target and gradient buffers of one shape, and no division by zero. */
    ghost predicate GradReady()
      reads this, trY, gradY
    {
      Valid() && SameShape(trY[..], trT) && SameShape(gradY[..], trY[..]) &&
      GradDefined(kind, trY[..], trT, LossE0)
    }

    /**
     * `evalGrad`: gradY becomes the variant's gradient of the train loss
     * at (trY, trT).  OneHotCce1D zero-fills gradY and then writes -1/y
     * where the target is nonzero; the other variants write the whole
     * formula in one elementwise operation.
     */
    method EvalGrad()
      requires GradReady()
      modifies gradY
      ensures gradY[..] == GradTensor(kind, trY[..], trT, LossE0)
    {
      ghost var want := GradTensor(kind, trY[..], trT, LossE0);
      if kind == OneHotCce {
        forall c | 0 <= c < gradY.Length {
          gradY[c] := ZeroChannel(gradY[c]);
        }
        forall c | 0 <= c < gradY.Length {
          gradY[c] := Scatter(gradY[c], trY[c], trT[c]);
        }
        forall c | 0 <= c < gradY.Length ensures gradY[c] == want[c] {
          ScatterIsOneHotGrad(old(gradY[c]), trY[c], trT[c]);
        }
      } else {
        forall c | 0 <= c < gradY.Length {
          gradY[c] := GradChannel(kind, trY[c], trT[c], LossE0);
        }
      }
      assert gradY[..] == want;
    }

    /**
     * `pullGrad` (back propagation): evaluates the gradient, then hands
     * every predecessor, in order, the slice of gradY in its channel range.
     */
    method PullGrad()
      requires GradReady() && Table(gradY.Length)
      modifies gradY, prevSets
      ensures gradY[..] == GradTensor(kind, trY[..], trT, LossE0)
      ensures forall p :: p in prevSets ==>
        p.received == old(p.received) + Handed(prevSets, p, Slices(gradY[..], startYs[..], endYs[..]))
      ensures forall p :: p in prevSets ==>
        p.ydim == old(p.ydim) && p.ychs == old(p.ychs) && p.nextSets == old(p.nextSets) && p.nextInd == old(p.nextInd)
    {
      EvalGrad();
      HandOut(prevSets, Slices(gradY[..], startYs[..], endYs[..]));
    }

    // ------------------------------------------------- losses and accuracies

    /** Mse1D `trLoss`: half the squared error summed over the train buffer; zero exactly on a perfect fit. */
    function TrLoss(): (r: real)
      reads this, trY
      requires kind == Mse && SameShape(trY[..], trT)
      ensures r >= 0.0 && (r == 0.0 <==> trY[..] == trT)
    {
      MseLoss(trY[..], trT)
    }

    /** Mse1D `teLoss`: the same over the test buffer. */
    function TeLoss(): (r: real)
      reads this, teY
      requires kind == Mse && SameShape(teY[..], teT)
      ensures r >= 0.0 && (r == 0.0 <==> teY[..] == teT)
    {
      MseLoss(teY[..], teT)
    }

    /**
     * `trLossMean`: the loss divided by the batch size, the length of the
     * target's last axis (so, by `Losses.MseLossVecSums`, the mean of the
     * per-sample losses); none for an empty batch, where the float division
     * is 0/0, which is NaN.
     */
    function TrLossMean(): (r: Option<real>)
      reads this, trY
      requires kind == Mse && SameShape(trY[..], trT) && RowsOfLength(trT, trBatch)
      ensures r.Some? <==> trBatch > 0
      ensures r.Some? ==> r.value >= 0.0 && (r.value == 0.0 <==> trY[..] == trT)
      ensures r.Some? ==> r.value * trBatch as real == TrLoss()
    {
      if trBatch == 0 then None
      else
        Some(Mean(TrLoss(), trBatch))
    }

    /** `teLossMean`: the same over the test buffer. */
    function TeLossMean(): (r: Option<real>)
      reads this, teY
      requires kind == Mse && SameShape(teY[..], teT) && RowsOfLength(teT, teBatch)
      ensures r.Some? <==> teBatch > 0
      ensures r.Some? ==> r.value >= 0.0 && (r.value == 0.0 <==> teY[..] == teT)
      ensures r.Some? ==> r.value * teBatch as real == TeLoss()
    {
      if teBatch == 0 then None
      else
        Some(Mean(TeLoss(), teBatch))
    }

    /** The train buffer and target are (ychs, n, trBatch) for a flat shape of n rows. */
    ghost predicate TrShaped()
      reads this, trY
    {
      ydim.Flat? && Shaped(trY[..], ychs, ydim.n, trBatch) && Shaped(trT, ychs, ydim.n, trBatch)
    }

    /** The test buffer and target are (ychs, n, teBatch) for a flat shape of n rows. */
    ghost predicate TeShaped()
      reads this, teY
    {
      ydim.Flat? && Shaped(teY[..], ychs, ydim.n, teBatch) && Shaped(teT, ychs, ydim.n, teBatch)
    }

    /**
     * `trAccurateCount`: the number of (channel, sample) pairs predicted
     * right, `HitPairs`; none when there are no rows; every pair when trY equals trT.
     */
    function TrAccurateCount(): (r: Option<nat>)
      reads this, trY
      requires TrShaped()
      ensures r.Some? <==> ydim.n > 0
      ensures r.Some? ==> r.value == |HitPairs(trY[..], trT, ydim.n, trBatch)|
      ensures r.Some? ==> r.value <= ychs * trBatch
      ensures r.Some? ==> (r.value == ychs * trBatch <==>
        forall c, s :: 0 <= c < ychs && 0 <= s < trBatch ==> Hit(trY[..], trT, ydim.n, trBatch, c, s))
      ensures r.Some? ==> (r.value == 0 <==>
        forall c, s :: 0 <= c < ychs && 0 <= s < trBatch ==> !Hit(trY[..], trT, ydim.n, trBatch, c, s))
      ensures ydim.n > 0 && trY[..] == trT ==> r == Some(ychs * trBatch)
    {
      if ydim.n > 0 && trY[..] == trT then
        PerfectCount(trT, ydim.n, trBatch);
        AccurateCount(trY[..], trT, ydim.n, trBatch)
      else
        AccurateCount(trY[..], trT, ydim.n, trBatch)
    }

    /** `teAccurateCount`: the same over the test buffer. */
    function TeAccurateCount(): (r: Option<nat>)
      reads this, teY
      requires TeShaped()
      ensures r.Some? <==> ydim.n > 0
      ensures r.Some? ==> r.value == |HitPairs(teY[..], teT, ydim.n, teBatch)|
      ensures r.Some? ==> r.value <= ychs * teBatch
      ensures r.Some? ==> (r.value == ychs * teBatch <==>
        forall c, s :: 0 <= c < ychs && 0 <= s < teBatch ==> Hit(teY[..], teT, ydim.n, teBatch, c, s))
      ensures r.Some? ==> (r.value == 0 <==>
        forall c, s :: 0 <= c < ychs && 0 <= s < teBatch ==> !Hit(teY[..], teT, ydim.n, teBatch, c, s))
      ensures ydim.n > 0 && teY[..] == teT ==> r == Some(ychs * teBatch)
    {
      if ydim.n > 0 && teY[..] == teT then
        PerfectCount(teT, ydim.n, teBatch);
        AccurateCount(teY[..], teT, ydim.n, teBatch)
      else
        AccurateCount(teY[..], teT, ydim.n, teBatch)
    }

    /**
     * `trAccuracy`: the count per sample (`TrAccurateCount` over the batch
     * size), in [0, ychs]; none when there are
     * no rows or no samples; ychs when trY equals trT.
     */
    function TrAccuracy(): (r: Option<real>)
      reads this, trY
      requires TrShaped()
      ensures r.Some? <==> ydim.n > 0 && trBatch > 0
      ensures r.Some? ==> TrAccurateCount().Some? && r.value == TrAccurateCount().value as real / trBatch as real
      ensures r.Some? ==> 0.0 <= r.value <= ychs as real
      ensures r.Some? ==> (r.value == ychs as real <==>
        forall c, s :: 0 <= c < ychs && 0 <= s < trBatch ==> Hit(trY[..], trT, ydim.n, trBatch, c, s))
      ensures r.Some? ==> (r.value == 0.0 <==>
        forall c, s :: 0 <= c < ychs && 0 <= s < trBatch ==> !Hit(trY[..], trT, ydim.n, trBatch, c, s))
      ensures r.Some? && trY[..] == trT ==> r.value == ychs as real
    {
      if ydim.n > 0 && trBatch > 0 && trY[..] == trT then
        PerfectAccuracy(trT, ydim.n, trBatch);
        AccuracyOf(trY[..], trT, ydim.n, trBatch)
      else
        AccuracyOf(trY[..], trT, ydim.n, trBatch)
    }

    /** `teAccuracy`: the same over the test buffer. */
    function TeAccuracy(): (r: Option<real>)
      reads this, teY
      requires TeShaped()
      ensures r.Some? <==> ydim.n > 0 && teBatch > 0
      ensures r.Some? ==> TeAccurateCount().Some? && r.value == TeAccurateCount().value as real / teBatch as real
      ensures r.Some? ==> 0.0 <= r.value <= ychs as real
      ensures r.Some? ==> (r.value == ychs as real <==>
        forall c, s :: 0 <= c < ychs && 0 <= s < teBatch ==> Hit(teY[..], teT, ydim.n, teBatch, c, s))
      ensures r.Some? ==> (r.value == 0.0 <==>
        forall c, s :: 0 <= c < ychs && 0 <= s < teBatch ==> !Hit(teY[..], teT, ydim.n, teBatch, c, s))
      ensures r.Some? && teY[..] == teT ==> r.value == ychs as real
    {
      if ydim.n > 0 && teBatch > 0 && teY[..] == teT then
        PerfectAccuracy(teT, ydim.n, teBatch);
        AccuracyOf(teY[..], teT, ydim.n, teBatch)
      else
        AccuracyOf(teY[..], teT, ydim.n, teBatch)
    }
  }
}
