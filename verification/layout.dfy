/**
 * The channel table of a loss node.
 *
 * `compile` gives predecessor i the half-open channel range
 * [startYs[i], endYs[i]) of the merged buffer, where the ranges are the
 * running (prefix) sums of the predecessors' channel counts.  This module
 * defines that table as functions of the channel counts `chs` and proves
 * what the table promises: the ranges follow each other without gaps or
 * overlaps and tile [0, sum of chs) exactly, so slicing a merged buffer by
 * the table and concatenating the slices gives the buffer back, and
 * writing every predecessor's fragment into its range fills the buffer.
 */
module Layout {

  /** Total number of channels: the running total after adding each count in order. */
  function SumNat(chs: seq<nat>): nat
  {
    if chs == [] then 0 else SumNat(chs[..|chs| - 1]) + chs[|chs| - 1]
  }

  lemma SumNatSnoc(chs: seq<nat>, i: nat)
    requires i < |chs|
    ensures SumNat(chs[..i + 1]) == SumNat(chs[..i]) + chs[i]
  {
    assert chs[..i + 1][..i] == chs[..i];
  }

  /** Prefix sums grow: a longer prefix never has fewer channels. */
  lemma {:induction false} SumNatMonotone(chs: seq<nat>, i: nat, j: nat)
    requires i <= j <= |chs|
    ensures SumNat(chs[..i]) <= SumNat(chs[..j])
    decreases j - i
  {
    if i < j {
      SumNatSnoc(chs, j - 1);
      SumNatMonotone(chs, i, j - 1);
    }
  }

  /**
   * startYs, as the loop of `compile` lays it out: predecessor i starts at
   * the running total of the channel counts of predecessors 0..i-1.
   */
  function Starts(chs: seq<nat>): (r: seq<nat>)
    ensures |r| == |chs|
    decreases |chs|
  {
    if chs == [] then []
    else
      var n := |chs| - 1;
      Starts(chs[..n]) + [SumNat(chs[..n])]
  }

  /** Predecessor i starts after the channels of predecessors 0..i-1. */
  lemma {:induction false} StartsAt(chs: seq<nat>, i: nat)
    requires i < |chs|
    ensures Starts(chs)[i] == SumNat(chs[..i])
    decreases |chs|
  {
    var n := |chs| - 1;
    if i < n {
      StartsAt(chs[..n], i);
      assert chs[..n][..i] == chs[..i];
    }
  }

  /** endYs: predecessor i ends after its own channels. */
  function Ends(chs: seq<nat>): (r: seq<nat>)
    ensures |r| == |chs|
  {
    var s := Starts(chs);
    seq(|chs|, i requires 0 <= i < |chs| => s[i] + chs[i])
  }

  /** Range i ends at the total of predecessors 0..i. */
  lemma EndAt(chs: seq<nat>, i: nat)
    requires i < |chs|
    ensures Ends(chs)[i] == SumNat(chs[..i + 1])
  {
    StartsAt(chs, i);
    SumNatSnoc(chs, i);
  }

  /**
   * The table's chaining: the first range starts at channel 0, range i + 1
   * starts where range i ends, and the last range ends at the total channel
   * count.
   */
  lemma LayoutChain(chs: seq<nat>)
    ensures |chs| > 0 ==> Starts(chs)[0] == 0
    ensures forall i :: 0 <= i < |chs| - 1 ==> Starts(chs)[i + 1] == Ends(chs)[i]
    ensures |chs| > 0 ==> Ends(chs)[|chs| - 1] == SumNat(chs)
  {
    forall i | 0 <= i < |chs|
      ensures Ends(chs)[i] == Starts(chs)[i] + chs[i]
      ensures Ends(chs)[i] == SumNat(chs[..i + 1])
    {
      EndAt(chs, i);
    }
    if |chs| > 0 {
      StartsAt(chs, 0);
    }
    forall i | 0 <= i < |chs| - 1 ensures Starts(chs)[i + 1] == Ends(chs)[i] {
      StartsAt(chs, i + 1);
    }
    assert chs[..|chs|] == chs;
  }

  /** Ranges come in predecessor order and never overlap: range i ends before range j starts. */
  lemma RangesOrdered(chs: seq<nat>, i: nat, j: nat)
    requires i < j < |chs|
    ensures Ends(chs)[i] <= Starts(chs)[j]
  {
    EndAt(chs, i);
    StartsAt(chs, j);
    SumNatMonotone(chs, i + 1, j);
  }

  /** Every range lies inside [0, SumNat(chs)). */
  lemma RangeInside(chs: seq<nat>, i: nat)
    requires i < |chs|
    ensures Starts(chs)[i] <= Ends(chs)[i] <= SumNat(chs)
  {
    EndAt(chs, i);
    SumNatMonotone(chs, i + 1, |chs|);
    assert chs[..|chs|] == chs;
  }

  /**
   * The predecessor that owns merged channel `k`: every channel below the
   * total lies in some range, so the ranges cover [0, SumNat(chs)).
   */
  function Owner(chs: seq<nat>, k: nat): (i: nat)
    requires k < SumNat(chs)
    ensures i < |chs|
    ensures Starts(chs)[i] <= k < Ends(chs)[i]
    decreases |chs|
  {
    var n := |chs| - 1;
    if SumNat(chs[..n]) <= k then
      EndAt(chs, n);
      StartsAt(chs, n);
      assert chs[..n + 1] == chs;
      n
    else
      var j := Owner(chs[..n], k);
      assert chs[..n][..j] == chs[..j] && chs[..n][..j + 1] == chs[..j + 1];
      EndAt(chs[..n], j);
      EndAt(chs, j);
      j
  }

  /** No channel lies in two ranges, so the owner of a channel is unique. */
  lemma OwnerUnique(chs: seq<nat>, k: nat, i: nat)
    requires i < |chs| && Starts(chs)[i] <= k < Ends(chs)[i]
    ensures k < SumNat(chs) && Owner(chs, k) == i
  {
    RangeInside(chs, i);
    var o := Owner(chs, k);
    if o < i {
      RangesOrdered(chs, o, i);
    } else if i < o {
      RangesOrdered(chs, i, o);
    }
  }

  /** Concatenation of a sequence of sequences, in order. */
  function Concat<T>(ss: seq<seq<T>>): seq<T>
  {
    if ss == [] then [] else Concat(ss[..|ss| - 1]) + ss[|ss| - 1]
  }

  /** Well-formed ranges into a buffer of length n. */
  ghost predicate RangesWithin(starts: seq<int>, ends: seq<int>, n: nat)
  {
    |starts| == |ends| &&
    forall i :: 0 <= i < |starts| ==> 0 <= starts[i] <= ends[i] <= n
  }

  /** The slice buf[starts[i]..ends[i]] of every predecessor, in predecessor order. */
  function Slices<T>(buf: seq<T>, starts: seq<int>, ends: seq<int>): (r: seq<seq<T>>)
    requires RangesWithin(starts, ends, |buf|)
    ensures |r| == |starts|
    ensures forall i :: 0 <= i < |r| ==> r[i] == buf[starts[i]..ends[i]]
  {
    seq(|starts|, i requires 0 <= i < |starts| => buf[starts[i]..ends[i]])
  }

  /** The table from `chs` is a valid set of ranges into a buffer of SumNat(chs) channels. */
  lemma TableWithin(chs: seq<nat>)
    ensures RangesWithin(Starts(chs), Ends(chs), SumNat(chs))
  {
    forall i | 0 <= i < |chs| ensures Starts(chs)[i] <= Ends(chs)[i] <= SumNat(chs) {
      RangeInside(chs, i);
    }
  }

  /**
   * Handing every predecessor its slice of the merged buffer and gluing the
   * slices back together, in predecessor order, reproduces the buffer.
   */
  lemma {:induction false} SlicesReassemble<T>(buf: seq<T>, chs: seq<nat>)
    requires |buf| == SumNat(chs)
    ensures RangesWithin(Starts(chs), Ends(chs), |buf|)
    ensures Concat(Slices(buf, Starts(chs), Ends(chs))) == buf
  {
    TableWithin(chs);
    var ss := Slices(buf, Starts(chs), Ends(chs));
    var k := 0;
    while k < |chs|
      invariant 0 <= k <= |chs|
      invariant SumNat(chs[..k]) <= |buf|
      invariant Concat(ss[..k]) == buf[..SumNat(chs[..k])]
    {
      SliceStep(buf, chs, k);
      assert ss[..k + 1][..k] == ss[..k];
      assert Concat(ss[..k + 1]) == Concat(ss[..k]) + ss[k];
      k := k + 1;
    }
    assert ss[..|chs|] == ss;
    assert chs[..|chs|] == chs;
    assert buf[..|buf|] == buf;
  }

  /** Range k continues the prefix of the buffer that ranges 0..k-1 cover. */
  lemma SliceStep<T>(buf: seq<T>, chs: seq<nat>, k: nat)
    requires |buf| == SumNat(chs) && k < |chs|
    ensures SumNat(chs[..k + 1]) <= |buf|
    ensures Starts(chs)[k] == SumNat(chs[..k]) && Ends(chs)[k] == SumNat(chs[..k + 1])
    ensures buf[..SumNat(chs[..k])] + buf[Starts(chs)[k]..Ends(chs)[k]] == buf[..SumNat(chs[..k + 1])]
  {
    EndAt(chs, k);
    StartsAt(chs, k);
    RangeInside(chs, k);
    JoinSlices(buf, SumNat(chs[..k]), SumNat(chs[..k + 1]));
  }

  lemma JoinSlices<T>(buf: seq<T>, a: nat, b: nat)
    requires a <= b <= |buf|
    ensures buf[..a] + buf[a..b] == buf[..b]
  {
  }

  /** `buf` with the channels from `start` on overwritten by `frag`. */
  function Place<T>(buf: seq<T>, start: nat, frag: seq<T>): (r: seq<T>)
    requires start + |frag| <= |buf|
    ensures |r| == |buf|
    ensures forall k :: start <= k < start + |frag| ==> r[k] == frag[k - start]
    ensures forall k :: 0 <= k < |buf| && !(start <= k < start + |frag|) ==> r[k] == buf[k]
  {
    buf[..start] + frag + buf[start + |frag|..]
  }

  /** Fragments whose sizes match the channel counts. */
  ghost predicate FragmentsFit<T>(frags: seq<seq<T>>, chs: seq<nat>)
  {
    |frags| == |chs| && forall i :: 0 <= i < |chs| ==> |frags[i]| == chs[i]
  }

  /** The buffer after pushing fragments 0..n-1, in that order, into their ranges. */
  function PushFirst<T>(buf: seq<T>, chs: seq<nat>, frags: seq<seq<T>>, n: nat): (r: seq<T>)
    requires |buf| == SumNat(chs) && FragmentsFit(frags, chs) && n <= |chs|
    ensures |r| == |buf|
  {
    if n == 0 then buf
    else
      RangeInside(chs, n - 1);
      Place(PushFirst(buf, chs, frags, n - 1), Starts(chs)[n - 1], frags[n - 1])
  }

  /**
   * Pushing every predecessor's fragment into its range fills the whole
   * merged buffer: whatever it held before, it now holds exactly the
   * fragments, concatenated in predecessor order.
   */
  lemma {:induction false} PushAllFills<T>(buf: seq<T>, chs: seq<nat>, frags: seq<seq<T>>)
    requires |buf| == SumNat(chs) && FragmentsFit(frags, chs)
    ensures PushFirst(buf, chs, frags, |chs|) == Concat(frags)
  {
    var k := 0;
    while k < |chs|
      invariant 0 <= k <= |chs|
      invariant SumNat(chs[..k]) <= |buf|
      invariant |Concat(frags[..k])| == SumNat(chs[..k])
      invariant PushFirst(buf, chs, frags, k) == Concat(frags[..k]) + buf[SumNat(chs[..k])..]
    {
      SliceStep(buf, chs, k);
      assert frags[..k + 1][..k] == frags[..k];
      var c := Concat(frags[..k]);
      var n := SumNat(chs[..k]);
      assert Place(c + buf[n..], n, frags[k]) == c + frags[k] + buf[SumNat(chs[..k + 1])..];
      k := k + 1;
    }
    assert frags[..|chs|] == frags;
    assert chs[..|chs|] == chs;
  }

  /**
   * The indices a list occupies in `base + args` at the positions where
   * `args` holds `p`, in order: what `addPrevSets` appends to p's `nextInd`.
   */
  function Positions<T(==)>(args: seq<T>, p: T, base: nat): (r: seq<nat>)
    ensures |r| <= |args|
    decreases |args|
  {
    if args == [] then []
    else
      var n := |args| - 1;
      var init := Positions(args[..n], p, base);
      if args[n] == p then init + [base + n] else init
  }

  /**
   * The positions are exactly the indices of `p` in `base + args`, in
   * increasing order: each one holds p, every occurrence of p is listed,
   * and none is listed twice.
   */
  lemma {:induction false} PositionsExact<T>(args: seq<T>, p: T, base: nat)
    ensures forall k :: 0 <= k < |Positions(args, p, base)| ==>
      base <= Positions(args, p, base)[k] < base + |args| && args[Positions(args, p, base)[k] - base] == p
    ensures forall j :: 0 <= j < |args| && args[j] == p ==> base + j in Positions(args, p, base)
    ensures forall k, m :: 0 <= k < m < |Positions(args, p, base)| ==>
      Positions(args, p, base)[k] < Positions(args, p, base)[m]
    decreases |args|
  {
    if args != [] {
      var n := |args| - 1;
      PositionsExact(args[..n], p, base);
      assert forall j :: 0 <= j < n ==> args[..n][j] == args[j];
    }
  }

  /** One more argument adds its index when it is `p`. */
  lemma PositionsSnoc<T>(args: seq<T>, k: nat, p: T, base: nat)
    requires k < |args|
    ensures Positions(args[..k + 1], p, base) ==
      Positions(args[..k], p, base) + (if args[k] == p then [base + k] else [])
  {
    assert args[..k + 1][..k] == args[..k];
  }

  /** Positions recorded in `nextInd` point back at the predecessor in the extended list. */
  lemma PositionsPointBack<T>(prev: seq<T>, args: seq<T>, p: T)
    ensures forall k :: k in Positions(args, p, |prev|) ==> |prev| <= k < |prev| + |args| && (prev + args)[k] == p
  {
    PositionsExact(args, p, |prev|);
  }

  /**
   * The slices a sink `p` receives when the slices `ss` are handed to the
   * list `prevs` in order (p may occur more than once in the list).
   */
  function Handed<T(==), S>(prevs: seq<T>, p: T, ss: seq<S>): (r: seq<S>)
    requires |prevs| == |ss|
    ensures |r| <= |prevs|
    decreases |prevs|
  {
    if prevs == [] then []
    else
      var n := |prevs| - 1;
      Handed(prevs[..n], p, ss[..n]) + (if prevs[n] == p then [ss[n]] else [])
  }

  /** Entries of the list are pairwise distinct. */
  ghost predicate Distinct<T>(s: seq<T>)
  {
    forall i, j :: 0 <= i < j < |s| ==> s[i] != s[j]
  }

  /**
   * When no predecessor is registered twice, predecessor i receives exactly
   * slice i and nothing else; a node not in the list receives nothing.
   */
  lemma {:induction false} HandedDistinct<T, S>(prevs: seq<T>, ss: seq<S>, i: nat)
    requires |prevs| == |ss| && Distinct(prevs) && i < |prevs|
    ensures Handed(prevs, prevs[i], ss) == [ss[i]]
    decreases |prevs|
  {
    var n := |prevs| - 1;
    if i < n {
      HandedDistinct(prevs[..n], ss[..n], i);
    } else {
      HandedAbsent(prevs[..n], prevs[n], ss[..n]);
    }
  }

  lemma {:induction false} HandedAbsent<T, S>(prevs: seq<T>, p: T, ss: seq<S>)
    requires |prevs| == |ss| && p !in prevs
    ensures Handed(prevs, p, ss) == []
    decreases |prevs|
  {
    if prevs != [] {
      var n := |prevs| - 1;
      HandedAbsent(prevs[..n], p, ss[..n]);
    }
  }
}
