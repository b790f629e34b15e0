/** Addressing in the simulator's single block of integers: the `Array2` view, the seven
    regions the constructor carves out of the block, and what `reinit` clears. Addresses
    are offsets from the start of the block. */
module JobShopLayout {
  import opened Wrappers

  /** `Array2(ptr, m)`: a view of a block as rows of `width` cells starting at `base`. */
  datatype Array2 = Array2(base: int, width: nat)

  /** `a[i]`: the address where row `i` begins. */
  function Row(a: Array2, i: int): int
  {
    a.base + i * a.width
  }

  /** `a[i][k]`: the address of cell `k` of row `i`. */
  function At(a: Array2, i: int, k: int): int
  {
    Row(a, i) + k
  }

  /** A cell of one of the first `rows` rows lies in the region of `rows * width` cells
      starting at `base`, and its row begins `i * width` cells after `base`. */
  lemma AtInRegion(a: Array2, rows: nat, i: int, k: int)
    requires 0 <= i < rows && 0 <= k < a.width
    ensures Row(a, i) == a.base + i * a.width
    ensures a.base <= At(a, i, k) < a.base + rows * a.width
  {
    assert i * a.width + k < (i + 1) * a.width <= rows * a.width;
  }

  /** A later row begins at least one full row after an earlier one ends. */
  lemma RowsApart(i: int, j: int, width: nat)
    requires i < j
    ensures (i + 1) * width <= j * width
  {
    assert j * width - (i + 1) * width == (j - i - 1) * width;
  }

  /** Two cells inside the rows' width have the same address only if they are the same cell. */
  lemma AtInjective(a: Array2, i1: int, k1: int, i2: int, k2: int)
    requires 0 <= k1 < a.width && 0 <= k2 < a.width
    requires At(a, i1, k1) == At(a, i2, k2)
    ensures i1 == i2 && k1 == k2
  {
    if i1 < i2 {
      RowsApart(i1, i2, a.width);
    } else if i2 < i1 {
      RowsApart(i2, i1, a.width);
    }

  }

  /** A contiguous run of `len` cells starting at `start`. */
  datatype Region = Region(start: int, len: int)

  predicate In(r: Region, p: int)
  {
    r.start <= p < r.start + r.len
  }

  /** Cell `p` belongs to one of the regions. */
  predicate Covered(rs: seq<Region>, p: int)
  {
    exists t :: 0 <= t < |rs| && In(rs[t], p)
  }

  /** The regions follow one another without gaps from `lo` to `hi`. */
  predicate Consecutive(rs: seq<Region>, lo: int, hi: int)
    decreases |rs|
  {
    if |rs| == 0 then lo == hi
    else rs[0].start == lo && rs[0].len >= 0 && Consecutive(rs[1..], lo + rs[0].len, hi)
  }

  /** Regions that follow one another cover every cell between `lo` and `hi` exactly once. */
  lemma {:induction false} ConsecutiveCover(rs: seq<Region>, lo: int, hi: int, p: int)
    requires Consecutive(rs, lo, hi)
    ensures lo <= p < hi <==> Covered(rs, p)
    ensures forall t, u :: 0 <= t < u < |rs| ==> !(In(rs[t], p) && In(rs[u], p))
    decreases |rs|
  {
    if |rs| > 0 {
      ConsecutiveCover(rs[1..], lo + rs[0].len, hi, p);
      ConsecutiveBounds(rs[1..], lo + rs[0].len, hi);
      assert forall t :: 1 <= t < |rs| ==> rs[t] == rs[1..][t - 1];
      if exists t :: 0 <= t < |rs| && In(rs[t], p) {
        var t :| 0 <= t < |rs| && In(rs[t], p);
        if t > 0 {
          assert In(rs[1..][t - 1], p);
        }
      }
      if lo + rs[0].len <= p < hi {
        var t :| 0 <= t < |rs[1..]| && In(rs[1..][t], p);
        assert In(rs[t + 1], p);
      }
    }
  }

  /** Every region of a consecutive run lies between its ends. */
  lemma {:induction false} ConsecutiveBounds(rs: seq<Region>, lo: int, hi: int)
    requires Consecutive(rs, lo, hi)
    ensures lo <= hi
    ensures forall t :: 0 <= t < |rs| ==> lo <= rs[t].start && rs[t].start + rs[t].len <= hi
    decreases |rs|
  {
    if |rs| > 0 {
      ConsecutiveBounds(rs[1..], lo + rs[0].len, hi);
      assert forall t :: 1 <= t < |rs| ==> rs[t] == rs[1..][t - 1];
    }
  }

  /** The number of cells the constructor allocates: `2*n*m + m + (4+w)*n`. */
  function BlockSize(n: nat, m: nat, w: nat): nat
  {
    2 * n * m + m + (4 + w) * n
  }

  /** Where the constructor places each region of the block. */
  datatype Layout = Layout(durations: Array2, ends: Array2, makespan: int, nbIncoming: int,
                           nbIncoming0: int, head: int, outgoing: Array2)

  function MakeLayout(n: nat, m: nat, w: nat): Layout
  {
    var makespan := 2 * (n * m);
    var nbIncoming := makespan + m;
    var nbIncoming0 := nbIncoming + n;
    var head := nbIncoming0 + n;
    Layout(Array2(0, m), Array2(n * m, m), makespan, nbIncoming, nbIncoming0, head, Array2(head + n, w + 1))
  }

  /** The seven regions in block order, each with the number of cells it owns. */
  function Regions(l: Layout, n: nat, m: nat, w: nat): seq<Region>
  {
    [Region(l.durations.base, n * m), Region(l.ends.base, n * m), Region(l.makespan, m),
     Region(l.nbIncoming, n), Region(l.nbIncoming0, n), Region(l.head, n),
     Region(l.outgoing.base, n * (w + 1))]
  }

  /** The constructor's regions follow one another in the stated order and exactly fill the
      block: every cell of the block belongs to exactly one region, and no region reaches
      outside it. */
  lemma LayoutPartition(n: nat, m: nat, w: nat)
    ensures Consecutive(Regions(MakeLayout(n, m, w), n, m, w), 0, BlockSize(n, m, w))
    ensures forall p :: 0 <= p < BlockSize(n, m, w) <==> Covered(Regions(MakeLayout(n, m, w), n, m, w), p)
    ensures forall p, t, u :: 0 <= t < u < 7 ==>
              !(In(Regions(MakeLayout(n, m, w), n, m, w)[t], p) && In(Regions(MakeLayout(n, m, w), n, m, w)[u], p))
  {
    var rs := Regions(MakeLayout(n, m, w), n, m, w);
    var size := BlockSize(n, m, w);
    LayoutConsecutive(n, m, w);
    forall p
      ensures 0 <= p < size <==> Covered(rs, p)
      ensures forall t, u :: 0 <= t < u < 7 ==> !(In(rs[t], p) && In(rs[u], p))
    {
      ConsecutiveCover(rs, 0, size, p);
    }
  }

  /** The constructor's regions follow one another from the start to the end of the block. */
  lemma LayoutConsecutive(n: nat, m: nat, w: nat)
    ensures Consecutive(Regions(MakeLayout(n, m, w), n, m, w), 0, BlockSize(n, m, w))
  {
    var rs := Regions(MakeLayout(n, m, w), n, m, w);
    assert rs[6].start + rs[6].len == BlockSize(n, m, w) by {
      assert n * (w + 1) == n * w + n;
      assert (4 + w) * n == 4 * n + n * w;
      assert 2 * n * m == 2 * (n * m);
    }
    assert 0 <= n * m && 0 <= n * (w + 1);
    forall t | 0 < t < |rs|
      ensures rs[t].start == rs[t - 1].start + rs[t - 1].len
    {
    }
    AdjacentConsecutive(rs, 0, BlockSize(n, m, w));
  }

  /** Regions that each start where the previous one ends follow one another. */
  lemma {:induction false} AdjacentConsecutive(rs: seq<Region>, lo: int, hi: int)
    requires |rs| > 0 && rs[0].start == lo && rs[|rs| - 1].start + rs[|rs| - 1].len == hi
    requires forall t :: 0 <= t < |rs| ==> rs[t].len >= 0
    requires forall t :: 0 < t < |rs| ==> rs[t].start == rs[t - 1].start + rs[t - 1].len
    ensures Consecutive(rs, lo, hi)
    decreases |rs|
  {
    if |rs| == 1 {
      assert rs[1..] == [];
    } else {
      var tail := rs[1..];
      forall t | 0 < t < |tail|
        ensures tail[t].start == tail[t - 1].start + tail[t - 1].len
      {
        assert tail[t] == rs[t + 1] && tail[t - 1] == rs[t];
      }
      AdjacentConsecutive(tail, lo + rs[0].len, hi);
    }
  }

  /** Every cell `[i][k]` of the durations, ends and outgoing views stays inside the region
      the constructor gave that view. */
  lemma ViewsInRegions(n: nat, m: nat, w: nat, i: int, k: int)
    requires 0 <= i < n
    ensures 0 <= k < m ==> In(Regions(MakeLayout(n, m, w), n, m, w)[0], At(MakeLayout(n, m, w).durations, i, k))
    ensures 0 <= k < m ==> In(Regions(MakeLayout(n, m, w), n, m, w)[1], At(MakeLayout(n, m, w).ends, i, k))
    ensures 0 <= k <= w ==> In(Regions(MakeLayout(n, m, w), n, m, w)[6], At(MakeLayout(n, m, w).outgoing, i, k))
  {
    var l := MakeLayout(n, m, w);
    if 0 <= k < m {
      AtInRegion(l.durations, n, i, k);
      AtInRegion(l.ends, n, i, k);
    }
    if 0 <= k <= w {
      AtInRegion(l.outgoing, n, i, k);
    }
  }

  // ---------------------------------------------------------------------------------
  // reinit

  /** `memset` of `len` cells from `lo` with `v`. */
  function Fill(b: seq<int>, lo: int, len: int, v: int): (r: seq<int>)
    requires 0 <= lo && 0 <= len && lo + len <= |b|
    ensures |r| == |b|
    ensures forall p :: 0 <= p < |b| ==> r[p] == if lo <= p < lo + len then v else b[p]
  {
    b[..lo] + seq(len, _ => v) + b[lo + len..]
  }

  /** `reinit` as written: zeroes `nbIncoming0` and writes -1 into `n*3` cells from the start
      of `outgoing`, whatever the row width `w+1`. A write past the end of the block has no
      defined result (`None`). */
  function ReinitAsWritten(b: seq<int>, n: nat, m: nat, w: nat): Option<seq<int>>
    requires |b| == BlockSize(n, m, w)
  {
    var l := MakeLayout(n, m, w);
    if l.outgoing.base + n * 3 > |b| then None
    else Some(Fill(Fill(b, l.nbIncoming0, n, 0), l.outgoing.base, n * 3, -1))
  }

  /** `reinit` with the `outgoing` size the constructor allocated: `n*(w+1)` cells. */
  function Reinit(b: seq<int>, n: nat, m: nat, w: nat): seq<int>
    requires |b| == BlockSize(n, m, w)
  {
    var l := MakeLayout(n, m, w);
    assert l.outgoing.base + n * (w + 1) == |b| by { OutgoingEnd(n, m, w); }
    Fill(Fill(b, l.nbIncoming0, n, 0), l.outgoing.base, n * (w + 1), -1)
  }

  /** The `outgoing` region ends where the block ends. */
  lemma OutgoingEnd(n: nat, m: nat, w: nat)
    ensures MakeLayout(n, m, w).outgoing.base + n * (w + 1) == BlockSize(n, m, w)
    ensures MakeLayout(n, m, w).head + n == MakeLayout(n, m, w).outgoing.base
  {
    assert n * (w + 1) == n * w + n;
  }

  /** After `Reinit` every `nbIncoming0` entry is 0, every slot of every successor row is
      -1 (the graph is empty) and the cells before `nbIncoming0` and the `head` region are
      untouched. */
  lemma ReinitEmpties(b: seq<int>, n: nat, m: nat, w: nat)
    requires |b| == BlockSize(n, m, w)
    ensures |Reinit(b, n, m, w)| == |b|
    ensures MakeLayout(n, m, w).nbIncoming0 <= MakeLayout(n, m, w).head <= MakeLayout(n, m, w).outgoing.base <= |b|
    ensures var r, l := Reinit(b, n, m, w), MakeLayout(n, m, w);
      (forall p :: 0 <= p < |b| && l.nbIncoming0 <= p < l.head ==> r[p] == 0)
      && (forall i, k :: 0 <= i < n && 0 <= k <= w ==>
            0 <= At(l.outgoing, i, k) < |b| && r[At(l.outgoing, i, k)] == -1)
      && (forall p :: 0 <= p < |b| && (p < l.nbIncoming0 || l.head <= p < l.outgoing.base) ==> r[p] == b[p])
  {
    var r, l := Reinit(b, n, m, w), MakeLayout(n, m, w);
    OutgoingEnd(n, m, w);
    var r1 := Fill(b, l.nbIncoming0, n, 0);
    assert r == Fill(r1, l.outgoing.base, n * (w + 1), -1);
    assert forall p :: l.outgoing.base <= p < |b| ==> r[p] == -1;
    forall i, k | 0 <= i < n && 0 <= k <= w
      ensures 0 <= At(l.outgoing, i, k) < |b| && r[At(l.outgoing, i, k)] == -1
    {
      AtInRegion(l.outgoing, n, i, k);
    }
  }

  /** With the job-shop's out-degree bound `w == 2`, the hard-coded `n*3` is exactly the
      size of `outgoing`, so `reinit` as written is the intended one. */
  lemma ReinitAsWrittenAtWidthTwo(b: seq<int>, n: nat, m: nat)
    requires |b| == BlockSize(n, m, 2)
    ensures ReinitAsWritten(b, n, m, 2) == Some(Reinit(b, n, m, 2))
  {
  }

  /** For any other bound the hard-coded `n*3` is wrong. With four nodes, one sample and
      `w == 3`, the fill stops after three rows of width 4, so every slot of row 3 (block
      cells 33 to 36) keeps its old, non-negative value: `addPrecedence` and `simulate`
      read it as a successor that no precedence added. With one node and `w == 3` the
      row's last slot keeps its old value; with `w == 1` the write runs past the end of the
      block. */
  lemma ReinitAsWrittenCounterexample()
    ensures var b := seq(BlockSize(4, 1, 3), _ => 7);
            var l := MakeLayout(4, 1, 3);
            ReinitAsWritten(b, 4, 1, 3).Some?
            && At(l.outgoing, 3, 0) == 33
            && forall k :: 0 <= k <= 3 ==> ReinitAsWritten(b, 4, 1, 3).value[At(l.outgoing, 3, k)] == 7
    ensures var b := seq(BlockSize(1, 1, 3), _ => 7);
            ReinitAsWritten(b, 1, 1, 3).Some?
            && ReinitAsWritten(b, 1, 1, 3).value[At(MakeLayout(1, 1, 3).outgoing, 0, 3)] == 7
    ensures ReinitAsWritten(seq(BlockSize(1, 1, 1), _ => 7), 1, 1, 1).None?
  {
    var b4 := seq(BlockSize(4, 1, 3), _ => 7);
    var l4 := MakeLayout(4, 1, 3);
    assert |b4| == 37 && l4.outgoing.base == 21 && l4.outgoing.width == 4;
    forall k | 0 <= k <= 3
      ensures ReinitAsWritten(b4, 4, 1, 3).value[At(l4.outgoing, 3, k)] == 7
    {
      assert At(l4.outgoing, 3, k) == 33 + k;
    }
    var b := seq(BlockSize(1, 1, 3), _ => 7);
    assert |b| == 10;
    assert At(MakeLayout(1, 1, 3).outgoing, 0, 3) == 9;
  }
}
