/** The frequency-allocation example: transmitters are numbered cell by cell, and the
    separation constraints between their frequencies are enumerated by nested loops. */
module Allocation {
  import opened Wrappers
  import opened SeqMath
  import opened JavaInt

  const NbCell: nat := 25
  const NbAvailFreq: nat := 256

  /** Number of transmitters (channels) in each cell. */
  const NbChannel: seq<int> := [8, 6, 6, 1, 4, 4, 8, 8, 8, 8, 4, 9, 8, 4, 4, 10, 8, 9, 8, 4, 5, 4, 8, 1, 1]

  /** Least frequency separation between transmitters of two cells. */
  const Dist: seq<seq<int>> := [
    [16, 1, 1, 0, 0, 0, 0, 0, 1, 1, 1, 1, 1, 2, 2, 1, 1, 0, 0, 0, 2, 2, 1, 1, 1],
    [1, 16, 2, 0, 0, 0, 0, 0, 2, 2, 1, 1, 1, 2, 2, 1, 1, 0, 0, 0, 0, 0, 0, 0, 0],
    [1, 2, 16, 0, 0, 0, 0, 0, 2, 2, 1, 1, 1, 2, 2, 1, 1, 0, 0, 0, 0, 0, 0, 0, 0],
    [0, 0, 0, 16, 2, 2, 0, 0, 0, 0, 0, 0, 0, 0, 0, 0, 0, 1, 1, 1, 0, 0, 0, 1, 1],
    [0, 0, 0, 2, 16, 2, 0, 0, 0, 0, 0, 0, 0, 0, 0, 0, 0, 1, 1, 1, 0, 0, 0, 1, 1],
    [0, 0, 0, 2, 2, 16, 0, 0, 0, 0, 0, 0, 0, 0, 0, 0, 0, 1, 1, 1, 0, 0, 0, 1, 1],
    [0, 0, 0, 0, 0, 0, 16, 2, 0, 0, 1, 1, 1, 0, 0, 1, 1, 1, 1, 2, 0, 0, 0, 1, 1],
    [0, 0, 0, 0, 0, 0, 2, 16, 0, 0, 1, 1, 1, 0, 0, 1, 1, 1, 1, 2, 0, 0, 0, 1, 1],
    [1, 2, 2, 0, 0, 0, 0, 0, 16, 2, 2, 2, 2, 2, 2, 1, 1, 1, 1, 1, 1, 1, 0, 1, 1],
    [1, 2, 2, 0, 0, 0, 0, 0, 2, 16, 2, 2, 2, 2, 2, 1, 1, 1, 1, 1, 1, 1, 0, 1, 1],
    [1, 1, 1, 0, 0, 0, 1, 1, 2, 2, 16, 2, 2, 2, 2, 2, 2, 1, 1, 2, 1, 1, 0, 1, 1],
    [1, 1, 1, 0, 0, 0, 1, 1, 2, 2, 2, 16, 2, 2, 2, 2, 2, 1, 1, 2, 1, 1, 0, 1, 1],
    [1, 1, 1, 0, 0, 0, 1, 1, 2, 2, 2, 2, 16, 2, 2, 2, 2, 1, 1, 2, 1, 1, 0, 1, 1],
    [2, 2, 2, 0, 0, 0, 0, 0, 2, 2, 2, 2, 2, 16, 2, 1, 1, 1, 1, 1, 1, 1, 1, 1, 1],
    [2, 2, 2, 0, 0, 0, 0, 0, 2, 2, 2, 2, 2, 2, 16, 1, 1, 1, 1, 1, 1, 1, 1, 1, 1],
    [1, 1, 1, 0, 0, 0, 1, 1, 1, 1, 2, 2, 2, 1, 1, 16, 2, 2, 2, 1, 2, 2, 1, 2, 2],
    [1, 1, 1, 0, 0, 0, 1, 1, 1, 1, 2, 2, 2, 1, 1, 2, 16, 2, 2, 1, 2, 2, 1, 2, 2],
    [0, 0, 0, 1, 1, 1, 1, 1, 1, 1, 1, 1, 1, 1, 1, 2, 2, 16, 2, 2, 1, 1, 0, 2, 2],
    [0, 0, 0, 1, 1, 1, 1, 1, 1, 1, 1, 1, 1, 1, 1, 2, 2, 2, 16, 2, 1, 1, 0, 2, 2],
    [0, 0, 0, 1, 1, 1, 2, 2, 1, 1, 2, 2, 2, 1, 1, 1, 1, 2, 2, 16, 1, 1, 0, 1, 1],
    [2, 0, 0, 0, 0, 0, 0, 0, 1, 1, 1, 1, 1, 1, 1, 2, 2, 1, 1, 1, 16, 2, 1, 2, 2],
    [2, 0, 0, 0, 0, 0, 0, 0, 1, 1, 1, 1, 1, 1, 1, 2, 2, 1, 1, 1, 2, 16, 1, 2, 2],
    [1, 0, 0, 0, 0, 0, 0, 0, 0, 0, 0, 0, 0, 1, 1, 1, 1, 0, 0, 0, 1, 1, 16, 1, 1],
    [1, 0, 0, 1, 1, 1, 1, 1, 1, 1, 1, 1, 1, 1, 1, 2, 2, 2, 2, 1, 2, 2, 1, 16, 2],
    [1, 0, 0, 1, 1, 1, 1, 1, 1, 1, 1, 1, 1, 1, 1, 2, 2, 2, 2, 1, 2, 2, 1, 2, 16]
  ]


  /** Distance required between two channels of the same cell. */
  const IntraGap: int := 16

  /** Channel counts and distances of a network of cells. The proofs below hold for every
      network of this shape; `Instance` is the one of the example. */
  datatype Network = Network(nbChannel: seq<int>, dist: seq<seq<int>>)

  const Instance: Network := Network(NbChannel, Dist)

  /** One distance row per cell, no negative channel count, and at most `IntMax` transmitters. */
  predicate Shaped(net: Network)
  {
    |net.dist| == |net.nbChannel|
    && (forall c :: 0 <= c < |net.dist| ==> |net.dist[c]| == |net.nbChannel|)
    && (forall c :: 0 <= c < |net.nbChannel| ==> 0 <= net.nbChannel[c])
    && Sum(net.nbChannel) <= IntMax
  }

  // ---------------------------------------------------------------------------------
  // Transmitter numbering

  /** Transmitters in the cells before `cell`. */
  function PrefixSum(net: Network, cell: nat): int
    requires cell <= |net.nbChannel|
  {
    Sum(net.nbChannel[..cell])
  }

  lemma PrefixSumStep(net: Network, cell: nat)
    requires cell < |net.nbChannel|
    ensures PrefixSum(net, cell + 1) == PrefixSum(net, cell) + net.nbChannel[cell]
  {
    SumStep(net.nbChannel, cell);
  }

  /** `PrefixSumStep` stated for the last cell below `k`. */
  lemma PrefixSumLast(net: Network, k: nat)
    requires 0 < k <= |net.nbChannel|
    ensures PrefixSum(net, k) == PrefixSum(net, k - 1) + net.nbChannel[k - 1]
  {
    PrefixSumStep(net, k - 1);
  }

  lemma {:induction false} PrefixSumGrows(net: Network, c1: nat, c2: nat)
    requires Shaped(net) && c1 <= c2 <= |net.nbChannel|
    ensures PrefixSum(net, c1) <= PrefixSum(net, c2)
    decreases c2 - c1
  {
    if c1 < c2 {
      PrefixSumGrows(net, c1, c2 - 1);
      PrefixSumStep(net, c2 - 1);
    }
  }

  /** The prefix sums never decrease and stay between 0 and the number of transmitters. */
  lemma PrefixSumMonotone(net: Network, c1: nat, c2: nat)
    requires Shaped(net) && c1 <= c2 <= |net.nbChannel|
    ensures 0 <= PrefixSum(net, c1) <= PrefixSum(net, c2) <= Sum(net.nbChannel)
  {
    PrefixSumGrows(net, 0, c1);
    PrefixSumGrows(net, c1, c2);
    PrefixSumGrows(net, c2, |net.nbChannel|);
    assert net.nbChannel[..0] == [];
    assert net.nbChannel[..|net.nbChannel|] == net.nbChannel;
  }

  /** `getTransmitterIndex` as a value: the cells before `cell` (none for a negative one),
      then the channel, added in 32-bit arithmetic. For a cell past the table the Java loop
      reads outside `nbChannel` and throws; that outcome is `None`. */
  function TransmitterIndex(net: Network, cell: int, channel: int): (r: Option<int>)
    ensures r.Some? <==> cell <= |net.nbChannel|
  {
    if cell > |net.nbChannel| then None
    else Some(Wrap32((if cell < 0 then 0 else PrefixSum(net, cell)) + channel))
  }

  /** The while loop of `getTransmitterIndex`. */
  method GetTransmitterIndex(net: Network, cell: int, channel: int) returns (r: Option<int>)
    requires Shaped(net) && IsInt32(cell) && IsInt32(channel)
    ensures r == TransmitterIndex(net, cell, channel)
  {
    var idx := 0;
    var c := 0;
    while c < cell
      invariant 0 <= c <= |net.nbChannel| && (c <= cell || c == 0)
      invariant idx == PrefixSum(net, c)
      decreases cell - c
    {
      if c >= |net.nbChannel| {
        return None;
      }
      PrefixSumStep(net, c);
      idx := idx + net.nbChannel[c];
      c := c + 1;
    }
    if cell < 0 {
      assert net.nbChannel[..0] == [];
    }
    return Some(Wrap32(idx + channel));
  }

  /** A transmitter: a cell and one of its channels. */
  predicate Valid(net: Network, cell: int, channel: int)
  {
    0 <= cell < |net.nbChannel| && 0 <= channel < net.nbChannel[cell]
  }

  /** The index of a transmitter; no wrap-around happens for one. */
  function Index(net: Network, cell: int, channel: int): (r: int)
    requires Shaped(net) && Valid(net, cell, channel)
    ensures TransmitterIndex(net, cell, channel) == Some(r)
    ensures PrefixSum(net, cell) <= r < PrefixSum(net, cell + 1)
  {
    PrefixSumStep(net, cell);
    PrefixSumMonotone(net, cell, cell + 1);
    PrefixSumMonotone(net, cell + 1, |net.nbChannel|);
    assert IsInt32(PrefixSum(net, cell) + channel);
    PrefixSum(net, cell) + channel
  }

  /** `nbTransmitters`: the index one past the last cell, which is the total channel count. */
  function NbTransmitters(net: Network): (r: int)
    requires Shaped(net)
    ensures TransmitterIndex(net, |net.nbChannel|, 0) == Some(r) && r == Sum(net.nbChannel)
  {
    assert net.nbChannel[..|net.nbChannel|] == net.nbChannel;
    PrefixSumMonotone(net, 0, |net.nbChannel|);
    PrefixSum(net, |net.nbChannel|)
  }

  /** The example's tables have the expected shape and 148 transmitters. */
  lemma InstanceFacts()
    ensures Shaped(Instance)
    ensures |Instance.nbChannel| == NbCell
    ensures NbTransmitters(Instance) == 148
  {
    ChannelTotal();
    DistShape();
    assert Shaped(Instance);
    assert NbTransmitters(Instance) == Sum(Instance.nbChannel);
  }

  /** The example's cells hold 148 channels, none a negative count. */
  lemma ChannelTotal()
    ensures |NbChannel| == NbCell && Sum(NbChannel) == 148
    ensures forall c :: 0 <= c < NbCell ==> 0 <= NbChannel[c]
  {
    var c0, c1, c2, c3, c4 := [8, 6, 6, 1, 4], [4, 8, 8, 8, 8], [4, 9, 8, 4, 4], [10, 8, 9, 8, 4], [5, 4, 8, 1, 1];
    assert NbChannel == c0 + c1 + c2 + c3 + c4;
    SumOfFive(c0); SumOfFive(c1); SumOfFive(c2); SumOfFive(c3); SumOfFive(c4);
    SumConcat(c0, c1);
    SumConcat(c0 + c1, c2);
    SumConcat(c0 + c1 + c2, c3);
    SumConcat(c0 + c1 + c2 + c3, c4);
  }

  /** The sum of five values, written out. */
  lemma SumOfFive(s: seq<int>)
    requires |s| == 5
    ensures Sum(s) == s[0] + s[1] + s[2] + s[3] + s[4]
  {
    SumStep(s, 0); SumStep(s, 1); SumStep(s, 2); SumStep(s, 3); SumStep(s, 4);
    assert s[..0] == [] && s[..5] == s;
  }

  /** The example's distance table has one row of 25 distances per cell. */
  lemma DistShape()
    ensures |Dist| == NbCell && forall c :: 0 <= c < NbCell ==> |Dist[c]| == NbCell
  {
  }

  /** Each next cell starts where the previous one ends, so indices grow with the cell. */
  lemma IndexStep(net: Network, cell: int)
    requires Shaped(net) && 0 <= cell < |net.nbChannel|
    ensures TransmitterIndex(net, cell + 1, 0).Some? && TransmitterIndex(net, cell, 0).Some?
    ensures TransmitterIndex(net, cell + 1, 0).value == TransmitterIndex(net, cell, 0).value + net.nbChannel[cell]
  {
    PrefixSumStep(net, cell);
    PrefixSumMonotone(net, cell, cell + 1);
    PrefixSumMonotone(net, cell + 1, |net.nbChannel|);
  }

  /** Every transmitter's index addresses the frequency array. */
  lemma IndexInBounds(net: Network, cell: int, channel: int)
    requires Shaped(net) && Valid(net, cell, channel)
    ensures 0 <= Index(net, cell, channel) < NbTransmitters(net)
  {
    PrefixSumMonotone(net, cell + 1, |net.nbChannel|);
    PrefixSumMonotone(net, 0, cell);
    assert net.nbChannel[..|net.nbChannel|] == net.nbChannel;
  }

  /** Distinct transmitters get distinct indices. */
  lemma IndexInjective(net: Network, c1: int, ch1: int, c2: int, ch2: int)
    requires Shaped(net) && Valid(net, c1, ch1) && Valid(net, c2, ch2)
    ensures Index(net, c1, ch1) == Index(net, c2, ch2) <==> c1 == c2 && ch1 == ch2
  {
    if c1 < c2 {
      PrefixSumMonotone(net, c1 + 1, c2);
    } else if c2 < c1 {
      PrefixSumMonotone(net, c2 + 1, c1);
    }
  }

  // ---------------------------------------------------------------------------------
  // Separation constraints

  /** `|freq[t1] - freq[t2]| >= gap`. */
  datatype Separation = Separation(t1: int, t2: int, gap: int)

  predicate Holds(c: Separation, freq: seq<int>)
  {
    0 <= c.t1 < |freq| && 0 <= c.t2 < |freq|
    && (if freq[c.t1] >= freq[c.t2] then freq[c.t1] - freq[c.t2] else freq[c.t2] - freq[c.t1]) >= c.gap
  }

  /** A frequency plan: one frequency in 0 .. nbAvailFreq-1 per transmitter, meeting every
      constraint. */
  predicate Solution(net: Network, freq: seq<int>, cs: seq<Separation>)
    requires Shaped(net)
  {
    |freq| == NbTransmitters(net)
    && (forall t :: 0 <= t < |freq| ==> 0 <= freq[t] <= NbAvailFreq - 1)
    && AllHold(cs, freq)
  }

  predicate AllHold(cs: seq<Separation>, freq: seq<int>)
  {
    forall k :: 0 <= k < |cs| ==> Holds(cs[k], freq)
  }

  lemma AllHoldAppend(a: seq<Separation>, b: seq<Separation>, freq: seq<int>)
    ensures AllHold(a + b, freq) <==> AllHold(a, freq) && AllHold(b, freq)
  {
    if AllHold(a + b, freq) {
      forall k | 0 <= k < |a|
        ensures Holds(a[k], freq)
      {
        assert (a + b)[k] == a[k];
      }
      forall k | 0 <= k < |b|
        ensures Holds(b[k], freq)
      {
        assert (a + b)[|a| + k] == b[k];
      }
    }
  }

  predicate NoDuplicates(s: seq<Separation>)
  {
    forall a, b :: 0 <= a < b < |s| ==> s[a] != s[b]
  }

  /** Regrouping a concatenation of constraint sequences. */
  lemma ConcatAssoc(a: seq<Separation>, b: seq<Separation>, c: seq<Separation>)
    ensures (a + b) + c == a + (b + c)
  {
  }

  lemma NoDuplicatesAppend(a: seq<Separation>, b: seq<Separation>)
    requires NoDuplicates(a) && NoDuplicates(b)
    requires forall s, t :: 0 <= s < |a| && 0 <= t < |b| ==> a[s] != b[t]
    ensures NoDuplicates(a + b)
  {
    var c := a + b;
    forall s, t | 0 <= s < t < |c|
      ensures c[s] != c[t]
    {
      if s < |a| && t >= |a| {
        assert c[s] == a[s] && c[t] == b[t - |a|];
      } else if s >= |a| {
        assert c[s] == b[s - |a|] && c[t] == b[t - |a|];
      }
    }
  }

  /** Every constraint of `s` names a transmitter of `lo .. hi - 1` first and one below `top` second. */
  predicate Spans(s: seq<Separation>, lo: int, hi: int, top: int)
  {
    forall t :: 0 <= t < |s| ==> lo <= s[t].t1 < hi && s[t].t2 < top
  }

  /** Every constraint of `s` names a transmitter of at least `mid` second. */
  predicate SecondFrom(s: seq<Separation>, mid: int)
  {
    forall t :: 0 <= t < |s| ==> mid <= s[t].t2
  }

  /** Every constraint of `s` names a transmitter below `top` first. */
  predicate FirstBelow(s: seq<Separation>, top: int)
  {
    forall t :: 0 <= t < |s| ==> s[t].t1 < top
  }

  /** Widening the upper bound of the second transmitters. */
  lemma SpansWiden(s: seq<Separation>, lo: int, hi: int, mid: int, top: int)
    requires Spans(s, lo, hi, mid) && mid <= top
    ensures Spans(s, lo, hi, top)
  {
  }

  /** Two runs of distinct constraints whose second transmitters lie on either side of
      `mid` concatenate to distinct constraints, within the union of their bounds. */
  lemma AppendBySecond(a: seq<Separation>, b: seq<Separation>, lo: int, hi: int, mid: int, top: int)
    requires NoDuplicates(a) && NoDuplicates(b) && mid <= top
    requires Spans(a, lo, hi, mid) && Spans(b, lo, hi, top) && SecondFrom(b, mid)
    ensures NoDuplicates(a + b) && Spans(a + b, lo, hi, top)
  {
    NoDuplicatesAppend(a, b);
    forall t | 0 <= t < |a + b|
      ensures lo <= (a + b)[t].t1 < hi && (a + b)[t].t2 < top
    {
      if t < |a| {
        assert (a + b)[t] == a[t];
      } else {
        assert (a + b)[t] == b[t - |a|];
      }
    }
  }

  /** Two runs of distinct constraints whose first transmitters lie on either side of
      `mid` concatenate to distinct constraints, within the union of their bounds. */
  lemma AppendRows(a: seq<Separation>, b: seq<Separation>, lo: int, mid: int, hi: int, lo2: int, top: int)
    requires NoDuplicates(a) && NoDuplicates(b) && lo <= mid <= hi
    requires Spans(a, lo, mid, top) && SecondFrom(a, lo2) && Spans(b, mid, hi, top) && SecondFrom(b, lo2)
    ensures NoDuplicates(a + b) && Spans(a + b, lo, hi, top) && SecondFrom(a + b, lo2)
  {
    NoDuplicatesAppend(a, b);
    forall t | 0 <= t < |a + b|
      ensures lo <= (a + b)[t].t1 < hi && lo2 <= (a + b)[t].t2 < top
    {
      if t < |a| {
        assert (a + b)[t] == a[t];
      } else {
        assert (a + b)[t] == b[t - |a|];
      }
    }
  }

  /** The same with only an upper bound on the first transmitters. */
  lemma AppendByFirst(a: seq<Separation>, b: seq<Separation>, mid: int, top: int, top2: int)
    requires NoDuplicates(a) && NoDuplicates(b) && mid <= top
    requires FirstBelow(a, mid) && Spans(b, mid, top, top2)
    ensures NoDuplicates(a + b) && FirstBelow(a + b, top)
  {
    NoDuplicatesAppend(a, b);
    forall t | 0 <= t < |a + b|
      ensures (a + b)[t].t1 < top
    {
      if t < |a| {
        assert (a + b)[t] == a[t];
      } else {
        assert (a + b)[t] == b[t - |a|];
      }
    }
  }

  // Within a cell: every pair of channels, at distance `IntraGap`.

  /** Constraints of channel `ch1` of `cell` with the channels after it. */
  function IntraRow(net: Network, cell: int, ch1: int): seq<Separation>
    requires Shaped(net) && Valid(net, cell, ch1)
  {
    seq(net.nbChannel[cell] - ch1 - 1, t requires 0 <= t < net.nbChannel[cell] - ch1 - 1 =>
      Separation(Index(net, cell, ch1), Index(net, cell, ch1 + 1 + t), IntraGap))
  }

  /** The rows of the first `k` channels of `cell`. */
  function IntraCell(net: Network, cell: int, k: nat): seq<Separation>
    requires Shaped(net) && 0 <= cell < |net.nbChannel| && k <= net.nbChannel[cell]
  {
    if k == 0 then [] else IntraCell(net, cell, k - 1) + IntraRow(net, cell, k - 1)
  }

  /** One more channel `k` of `cell` appends its row. */
  lemma IntraCellStep(net: Network, cell: int, k: nat)
    requires Shaped(net) && 0 <= cell < |net.nbChannel| && k < net.nbChannel[cell]
    ensures IntraCell(net, cell, k + 1) == IntraCell(net, cell, k) + IntraRow(net, cell, k)
  {
  }

  /** The within-cell constraints of the first `k` cells. */
  function Intra(net: Network, k: nat): seq<Separation>
    requires Shaped(net) && k <= |net.nbChannel|
  {
    if k == 0 then [] else Intra(net, k - 1) + IntraCell(net, k - 1, net.nbChannel[k - 1])
  }

  /** `s` separates channels `a < b` of `cell`. */
  predicate IntraPair(net: Network, cell: int, a: int, b: int, s: Separation)
    requires Shaped(net)
  {
    0 <= cell < |net.nbChannel| && 0 <= a < b < net.nbChannel[cell]
    && s == Separation(Index(net, cell, a), Index(net, cell, b), IntraGap)
  }

  /** The two inner loops of the first loop nest of `main`, for one cell. */
  method IntraCellConstraints(net: Network, cs0: seq<Separation>, cell: int) returns (cs: seq<Separation>)
    requires Shaped(net) && 0 <= cell < |net.nbChannel| && IsInt32(|net.nbChannel|)
    ensures cs == cs0 + IntraCell(net, cell, net.nbChannel[cell])
  {
    ChannelCountFits(net, cell);
    cs := cs0;
    for channel1 := 0 to net.nbChannel[cell]
      invariant cs == cs0 + IntraCell(net, cell, channel1)
    {
      ghost var row := IntraRow(net, cell, channel1);
      for channel2 := channel1 + 1 to net.nbChannel[cell]
        invariant cs == cs0 + IntraCell(net, cell, channel1) + row[..channel2 - channel1 - 1]
      {
        var i1 := GetTransmitterIndex(net, cell, channel1);
        var i2 := GetTransmitterIndex(net, cell, channel2);
        assert i1.value == Index(net, cell, channel1) && i2.value == Index(net, cell, channel2);
        assert row[channel2 - channel1 - 1] == Separation(i1.value, i2.value, IntraGap);
        assert row[..channel2 - channel1] == row[..channel2 - channel1 - 1] + [Separation(i1.value, i2.value, IntraGap)];
        ConcatAssoc(cs0 + IntraCell(net, cell, channel1), row[..channel2 - channel1 - 1], [Separation(i1.value, i2.value, IntraGap)]);
        cs := cs + [Separation(i1.value, i2.value, IntraGap)];
      }
      assert row[..net.nbChannel[cell] - channel1 - 1] == row;
      IntraCellStep(net, cell, channel1);
      ConcatAssoc(cs0, IntraCell(net, cell, channel1), row);
    }
  }

  /** The first loop nest of `main`. */
  method IntraConstraints(net: Network) returns (cs: seq<Separation>)
    requires Shaped(net) && IsInt32(|net.nbChannel|)
    ensures cs == Intra(net, |net.nbChannel|)
  {
    cs := [];
    for cell := 0 to |net.nbChannel|
      invariant cs == Intra(net, cell)
    {
      cs := IntraCellConstraints(net, cs, cell);
    }
  }

  lemma IntraRowFacts(net: Network, cell: int, ch1: int)
    requires Shaped(net) && Valid(net, cell, ch1)
    ensures NoDuplicates(IntraRow(net, cell, ch1))
    ensures forall t :: 0 <= t < |IntraRow(net, cell, ch1)| ==> IntraRow(net, cell, ch1)[t].t1 == Index(net, cell, ch1)
    ensures forall s :: s in IntraRow(net, cell, ch1) <==> exists b :: IntraPair(net, cell, ch1, b, s)
  {
    var row := IntraRow(net, cell, ch1);
    forall s, t | 0 <= s < t < |row|
      ensures row[s] != row[t]
    {
      IndexInjective(net, cell, ch1 + 1 + s, cell, ch1 + 1 + t);
    }
    forall s | s in row
      ensures exists b :: IntraPair(net, cell, ch1, b, s)
    {
      var t :| 0 <= t < |row| && row[t] == s;
      assert IntraPair(net, cell, ch1, ch1 + 1 + t, s);
    }
    forall s | exists b :: IntraPair(net, cell, ch1, b, s)
      ensures s in row
    {
      var b :| IntraPair(net, cell, ch1, b, s);
      assert row[b - ch1 - 1] == s;
    }
  }

  lemma {:induction false} IntraCellFacts(net: Network, cell: int, k: nat)
    requires Shaped(net) && 0 <= cell < |net.nbChannel| && k <= net.nbChannel[cell]
    ensures NoDuplicates(IntraCell(net, cell, k))
    ensures forall t :: 0 <= t < |IntraCell(net, cell, k)| ==>
              PrefixSum(net, cell) <= IntraCell(net, cell, k)[t].t1 < PrefixSum(net, cell) + k
    ensures forall s :: s in IntraCell(net, cell, k) <==> exists a, b :: a < k && IntraPair(net, cell, a, b, s)
  {
    if k > 0 {
      var a, b := IntraCell(net, cell, k - 1), IntraRow(net, cell, k - 1);
      IntraCellFacts(net, cell, k - 1);
      IntraRowFacts(net, cell, k - 1);
      assert forall t :: 0 <= t < |b| ==> b[t].t1 == PrefixSum(net, cell) + k - 1;
      NoDuplicatesAppend(a, b);
      forall t | 0 <= t < |a + b|
        ensures PrefixSum(net, cell) <= (a + b)[t].t1 < PrefixSum(net, cell) + k
      {
        if t >= |a| {
          assert (a + b)[t] == b[t - |a|];
        }
      }
      forall s | exists a', b' :: a' < k && IntraPair(net, cell, a', b', s)
        ensures s in a + b
      {
        var a', b' :| a' < k && IntraPair(net, cell, a', b', s);
        if a' == k - 1 {
          assert s in b;
        } else {
          assert s in a;
        }
      }
    }
  }

  lemma {:induction false} IntraFacts(net: Network, k: nat)
    requires Shaped(net) && k <= |net.nbChannel|
    ensures NoDuplicates(Intra(net, k))
    ensures forall t :: 0 <= t < |Intra(net, k)| ==> Intra(net, k)[t].t1 < PrefixSum(net, k)
    ensures forall s :: s in Intra(net, k) <==> exists cell, a, b :: cell < k && IntraPair(net, cell, a, b, s)
  {
    if k > 0 {
      var a, b := Intra(net, k - 1), IntraCell(net, k - 1, net.nbChannel[k - 1]);
      IntraFacts(net, k - 1);
      IntraCellFacts(net, k - 1, net.nbChannel[k - 1]);
      PrefixSumStep(net, k - 1);
      NoDuplicatesAppend(a, b);
      forall t | 0 <= t < |a + b|
        ensures (a + b)[t].t1 < PrefixSum(net, k)
      {
        if t >= |a| {
          assert (a + b)[t] == b[t - |a|];
        }
      }
      forall s | exists cell, a', b' :: cell < k && IntraPair(net, cell, a', b', s)
        ensures s in a + b
      {
        var cell, a', b' :| cell < k && IntraPair(net, cell, a', b', s);
        if cell == k - 1 {
          assert s in b;
        } else {
          assert s in a;
        }
      }
    }
  }

  /** Within each cell, every pair of channels `a < b` is constrained exactly once, at
      distance `IntraGap`, and nothing else is. */
  lemma IntraExactlyOnce(net: Network)
    requires Shaped(net)
    ensures NoDuplicates(Intra(net, |net.nbChannel|))
    ensures forall s :: s in Intra(net, |net.nbChannel|) <==> exists cell, a, b :: IntraPair(net, cell, a, b, s)
  {
    IntraFacts(net, |net.nbChannel|);
  }

  // Between cells: every channel pair of two cells at positive distance, at that distance.

  /** Constraints of channel `ch1` of `c1` with every channel of `c2`. */
  function InterRow(net: Network, c1: int, c2: int, ch1: int): seq<Separation>
    requires Shaped(net) && Valid(net, c1, ch1) && 0 <= c2 < |net.nbChannel|
  {
    seq(net.nbChannel[c2], t requires 0 <= t < net.nbChannel[c2] =>
      Separation(Index(net, c1, ch1), Index(net, c2, t), net.dist[c1][c2]))
  }

  /** The rows of the first `k` channels of `c1` against `c2`. */
  function InterBlock(net: Network, c1: int, c2: int, k: nat): seq<Separation>
    requires Shaped(net) && 0 <= c1 < |net.nbChannel| && 0 <= c2 < |net.nbChannel| && k <= net.nbChannel[c1]
  {
    if k == 0 then [] else InterBlock(net, c1, c2, k - 1) + InterRow(net, c1, c2, k - 1)
  }

  /** The constraints of `c1` with the cells `c1+1 .. k-1` at positive distance. */
  function InterCell(net: Network, c1: int, k: int): seq<Separation>
    requires Shaped(net) && 0 <= c1 < |net.nbChannel| && c1 < k <= |net.nbChannel|
    decreases k
  {
    if k == c1 + 1 then []
    else InterCell(net, c1, k - 1) + (if net.dist[c1][k - 1] > 0 then InterBlock(net, c1, k - 1, net.nbChannel[c1]) else [])
  }

  /** One more channel `k` of `c1` appends its row against `c2`. */
  lemma InterBlockStep(net: Network, c1: int, c2: int, k: nat)
    requires Shaped(net) && 0 <= c1 < |net.nbChannel| && 0 <= c2 < |net.nbChannel| && k < net.nbChannel[c1]
    ensures InterBlock(net, c1, c2, k + 1) == InterBlock(net, c1, c2, k) + InterRow(net, c1, c2, k)
  {
  }

  /** One more cell `c2` appends its block to the constraints of `c1`, or nothing at distance zero. */
  lemma InterCellStep(net: Network, c1: int, c2: int)
    requires Shaped(net) && 0 <= c1 < c2 < |net.nbChannel|
    ensures net.dist[c1][c2] > 0 ==> InterCell(net, c1, c2 + 1) == InterCell(net, c1, c2) + InterBlock(net, c1, c2, net.nbChannel[c1])
    ensures net.dist[c1][c2] <= 0 ==> InterCell(net, c1, c2 + 1) == InterCell(net, c1, c2)
  {
    assert InterCell(net, c1, c2) + [] == InterCell(net, c1, c2);
  }

  /** The between-cell constraints whose first cell is among the first `k`. */
  function Inter(net: Network, k: nat): seq<Separation>
    requires Shaped(net) && k <= |net.nbChannel|
  {
    if k == 0 then [] else Inter(net, k - 1) + InterCell(net, k - 1, |net.nbChannel|)
  }


  /** `s` separates channel `a` of `c1` from channel `b` of a later cell `c2` at positive distance. */
  predicate InterPair(net: Network, c1: int, c2: int, a: int, b: int, s: Separation)
    requires Shaped(net)
  {
    0 <= c1 < c2 < |net.nbChannel| && net.dist[c1][c2] > 0
    && 0 <= a < net.nbChannel[c1] && 0 <= b < net.nbChannel[c2]
    && s == Separation(Index(net, c1, a), Index(net, c2, b), net.dist[c1][c2])
  }

  /** The two innermost loops of the second loop nest: every channel of `cell1` against
      every channel of `cell2`. */
  method InterBlockConstraints(net: Network, cs0: seq<Separation>, cell1: int, cell2: int) returns (cs: seq<Separation>)
    requires Shaped(net) && 0 <= cell1 < |net.nbChannel| && 0 <= cell2 < |net.nbChannel|
    requires IsInt32(|net.nbChannel|)
    ensures cs == cs0 + InterBlock(net, cell1, cell2, net.nbChannel[cell1])
  {
    ChannelCountFits(net, cell1);
    ChannelCountFits(net, cell2);
    cs := cs0;
    for channel1 := 0 to net.nbChannel[cell1]
      invariant cs == cs0 + InterBlock(net, cell1, cell2, channel1)
    {
      ghost var row := InterRow(net, cell1, cell2, channel1);
      for channel2 := 0 to net.nbChannel[cell2]
        invariant cs == cs0 + InterBlock(net, cell1, cell2, channel1) + row[..channel2]
      {
        var i1 := GetTransmitterIndex(net, cell1, channel1);
        var i2 := GetTransmitterIndex(net, cell2, channel2);
        assert i1.value == Index(net, cell1, channel1) && i2.value == Index(net, cell2, channel2);
        assert row[channel2] == Separation(i1.value, i2.value, net.dist[cell1][cell2]);
        assert row[..channel2 + 1] == row[..channel2] + [Separation(i1.value, i2.value, net.dist[cell1][cell2])];
        ConcatAssoc(cs0 + InterBlock(net, cell1, cell2, channel1), row[..channel2], [Separation(i1.value, i2.value, net.dist[cell1][cell2])]);
        cs := cs + [Separation(i1.value, i2.value, net.dist[cell1][cell2])];
      }
      assert row[..net.nbChannel[cell2]] == row;
      InterBlockStep(net, cell1, cell2, channel1);
      ConcatAssoc(cs0, InterBlock(net, cell1, cell2, channel1), row);
    }
  }

  /** The middle loop of the second loop nest: `cell1` against every later cell. */
  method InterCellConstraints(net: Network, cs0: seq<Separation>, cell1: int) returns (cs: seq<Separation>)
    requires Shaped(net) && 0 <= cell1 < |net.nbChannel| && IsInt32(|net.nbChannel|)
    ensures cs == cs0 + InterCell(net, cell1, |net.nbChannel|)
  {
    cs := cs0;
    for cell2 := cell1 + 1 to |net.nbChannel|
      invariant cs == cs0 + InterCell(net, cell1, cell2)
    {
      InterCellStep(net, cell1, cell2);
      if net.dist[cell1][cell2] > 0 {
        ConcatAssoc(cs0, InterCell(net, cell1, cell2), InterBlock(net, cell1, cell2, net.nbChannel[cell1]));
        cs := InterBlockConstraints(net, cs, cell1, cell2);
      }
    }
  }

  /** The second loop nest of `main`. */
  method InterConstraints(net: Network) returns (cs: seq<Separation>)
    requires Shaped(net) && IsInt32(|net.nbChannel|)
    ensures cs == Inter(net, |net.nbChannel|)
  {
    cs := [];
    for cell1 := 0 to |net.nbChannel|
      invariant cs == Inter(net, cell1)
    {
      cs := InterCellConstraints(net, cs, cell1);
    }
  }

  /** A cell's channel count is a Java `int`. */
  lemma ChannelCountFits(net: Network, cell: int)
    requires Shaped(net) && 0 <= cell < |net.nbChannel|
    ensures IsInt32(net.nbChannel[cell])
  {
    PrefixSumStep(net, cell);
    PrefixSumMonotone(net, cell, cell + 1);
    PrefixSumMonotone(net, cell + 1, |net.nbChannel|);
  }

  lemma InterRowFacts(net: Network, c1: int, c2: int, ch1: int)
    requires Shaped(net) && Valid(net, c1, ch1) && 0 <= c2 < |net.nbChannel|
    ensures NoDuplicates(InterRow(net, c1, c2, ch1))
    ensures forall t :: 0 <= t < |InterRow(net, c1, c2, ch1)| ==>
              InterRow(net, c1, c2, ch1)[t].t1 == Index(net, c1, ch1)
              && PrefixSum(net, c2) <= InterRow(net, c1, c2, ch1)[t].t2 < PrefixSum(net, c2 + 1)
    ensures forall s :: s in InterRow(net, c1, c2, ch1) <==>
              exists b :: 0 <= b < net.nbChannel[c2] && s == Separation(Index(net, c1, ch1), Index(net, c2, b), net.dist[c1][c2])
  {
    var row := InterRow(net, c1, c2, ch1);
    forall s, t | 0 <= s < t < |row|
      ensures row[s] != row[t]
    {
      IndexInjective(net, c2, s, c2, t);
    }
    forall s | exists b :: 0 <= b < net.nbChannel[c2] && s == Separation(Index(net, c1, ch1), Index(net, c2, b), net.dist[c1][c2])
      ensures s in row
    {
      var b :| 0 <= b < net.nbChannel[c2] && s == Separation(Index(net, c1, ch1), Index(net, c2, b), net.dist[c1][c2]);
      assert row[b] == s;
    }
  }

  /** The rows of the first `k` channels of `c1` against `c2` are distinct, name those
      channels first and a channel of `c2` second. */
  lemma {:induction false} InterBlockSpans(net: Network, c1: int, c2: int, k: nat)
    requires Shaped(net) && 0 <= c1 < c2 < |net.nbChannel| && net.dist[c1][c2] > 0 && k <= net.nbChannel[c1]
    ensures NoDuplicates(InterBlock(net, c1, c2, k))
    ensures Spans(InterBlock(net, c1, c2, k), PrefixSum(net, c1), PrefixSum(net, c1) + k, PrefixSum(net, c2 + 1))
    ensures SecondFrom(InterBlock(net, c1, c2, k), PrefixSum(net, c2))
  {
    if k > 0 {
      InterBlockSpans(net, c1, c2, k - 1);
      InterBlockSpansStep(net, c1, c2, k);
    }
  }

  /** One step of `InterBlockSpans`: the row of channel `k - 1`. */
  lemma InterBlockSpansStep(net: Network, c1: int, c2: int, k: nat)
    requires Shaped(net) && 0 <= c1 < c2 < |net.nbChannel| && net.dist[c1][c2] > 0 && 0 < k <= net.nbChannel[c1]
    requires NoDuplicates(InterBlock(net, c1, c2, k - 1))
    requires Spans(InterBlock(net, c1, c2, k - 1), PrefixSum(net, c1), PrefixSum(net, c1) + (k - 1), PrefixSum(net, c2 + 1))
    requires SecondFrom(InterBlock(net, c1, c2, k - 1), PrefixSum(net, c2))
    ensures NoDuplicates(InterBlock(net, c1, c2, k))
    ensures Spans(InterBlock(net, c1, c2, k), PrefixSum(net, c1), PrefixSum(net, c1) + k, PrefixSum(net, c2 + 1))
    ensures SecondFrom(InterBlock(net, c1, c2, k), PrefixSum(net, c2))
  {
    var b := InterRow(net, c1, c2, k - 1);
    InterRowFacts(net, c1, c2, k - 1);
    assert Spans(b, PrefixSum(net, c1) + (k - 1), PrefixSum(net, c1) + k, PrefixSum(net, c2 + 1));
    AppendRows(InterBlock(net, c1, c2, k - 1), b, PrefixSum(net, c1), PrefixSum(net, c1) + (k - 1),
      PrefixSum(net, c1) + k, PrefixSum(net, c2), PrefixSum(net, c2 + 1));
  }

  /** The rows of the first `k` channels of `c1` against `c2` are exactly their pairs. */
  lemma {:induction false} InterBlockPairs(net: Network, c1: int, c2: int, k: nat)
    requires Shaped(net) && 0 <= c1 < c2 < |net.nbChannel| && net.dist[c1][c2] > 0 && k <= net.nbChannel[c1]
    ensures forall s :: s in InterBlock(net, c1, c2, k) <==> InterPairIn(net, c1, c2, k, s)
  {
    if k > 0 {
      InterBlockPairs(net, c1, c2, k - 1);
      InterRowFacts(net, c1, c2, k - 1);
      forall s
        ensures s in InterBlock(net, c1, c2, k) <==> InterPairIn(net, c1, c2, k, s)
      {
        InterBlockPairStep(net, c1, c2, k, s);
      }
    }
  }

  /** One step of `InterBlockPairs` for one constraint `s`: the row of channel `k - 1`. */
  lemma InterBlockPairStep(net: Network, c1: int, c2: int, k: nat, s: Separation)
    requires Shaped(net) && 0 <= c1 < c2 < |net.nbChannel| && net.dist[c1][c2] > 0 && 0 < k <= net.nbChannel[c1]
    requires s in InterBlock(net, c1, c2, k - 1) <==> InterPairIn(net, c1, c2, k - 1, s)
    requires s in InterRow(net, c1, c2, k - 1) <==>
               exists b :: 0 <= b < net.nbChannel[c2] && s == Separation(Index(net, c1, k - 1), Index(net, c2, b), net.dist[c1][c2])
    ensures s in InterBlock(net, c1, c2, k) <==> InterPairIn(net, c1, c2, k, s)
  {
    if s in InterRow(net, c1, c2, k - 1) {
      var b :| 0 <= b < net.nbChannel[c2] && s == Separation(Index(net, c1, k - 1), Index(net, c2, b), net.dist[c1][c2]);
      assert k - 1 < k && InterPair(net, c1, c2, k - 1, b, s);
    }
    if InterPairIn(net, c1, c2, k, s) {
      var a, b :| a < k && InterPair(net, c1, c2, a, b, s);
      if a == k - 1 {
        assert 0 <= b < net.nbChannel[c2] && s == Separation(Index(net, c1, k - 1), Index(net, c2, b), net.dist[c1][c2]);
      } else {
        assert a < k - 1 && InterPair(net, c1, c2, a, b, s);
      }
    }
    if InterPairIn(net, c1, c2, k - 1, s) {
      var a, b :| a < k - 1 && InterPair(net, c1, c2, a, b, s);
      assert a < k && InterPair(net, c1, c2, a, b, s);
    }
  }

  /** Some channel below `k` of `c1` is paired with some channel of `c2` by `s`. */
  ghost predicate InterPairIn(net: Network, c1: int, c2: int, k: int, s: Separation)
    requires Shaped(net)
  {
    exists a, b :: a < k && InterPair(net, c1, c2, a, b, s)
  }

  /** `InterBlockSpans` for the whole block of `c1` against cell `k - 1`. */
  lemma InterBlockBounds(net: Network, c1: int, k: int)
    requires Shaped(net) && 0 <= c1 < k - 1 && k <= |net.nbChannel| && net.dist[c1][k - 1] > 0
    ensures NoDuplicates(InterBlock(net, c1, k - 1, net.nbChannel[c1]))
    ensures Spans(InterBlock(net, c1, k - 1, net.nbChannel[c1]), PrefixSum(net, c1), PrefixSum(net, c1 + 1), PrefixSum(net, k))
    ensures SecondFrom(InterBlock(net, c1, k - 1, net.nbChannel[c1]), PrefixSum(net, k - 1))
  {
    InterBlockSpans(net, c1, k - 1, net.nbChannel[c1]);
    PrefixSumStep(net, c1);
    PrefixSumStep(net, k - 1);
    PrefixSumLast(net, k);
  }

  /** `InterBlockPairs` for a whole block. */
  lemma InterBlockMembers(net: Network, c1: int, c2: int)
    requires Shaped(net) && 0 <= c1 < c2 < |net.nbChannel| && net.dist[c1][c2] > 0
    ensures forall s :: s in InterBlock(net, c1, c2, net.nbChannel[c1]) <==> InterPairIn(net, c1, c2, net.nbChannel[c1], s)
  {
    InterBlockPairs(net, c1, c2, net.nbChannel[c1]);
  }

  /** The constraints of `c1` with the cells below `k` are distinct, name a channel of `c1`
      first and a transmitter of a cell below `k` second. */
  lemma {:induction false} InterCellBounds(net: Network, c1: int, k: int)
    requires Shaped(net) && 0 <= c1 < |net.nbChannel| && c1 < k <= |net.nbChannel|
    ensures NoDuplicates(InterCell(net, c1, k))
    ensures Spans(InterCell(net, c1, k), PrefixSum(net, c1), PrefixSum(net, c1 + 1), PrefixSum(net, k))
    decreases k
  {
    if k > c1 + 1 {
      InterCellBounds(net, c1, k - 1);
      InterCellBoundsStep(net, c1, k);
    }
  }

  /** One step of `InterCellBounds`: the block of cell `k - 1`, empty at distance zero. */
  lemma InterCellBoundsStep(net: Network, c1: int, k: int)
    requires Shaped(net) && 0 <= c1 < k - 1 && k <= |net.nbChannel|
    requires NoDuplicates(InterCell(net, c1, k - 1))
    requires Spans(InterCell(net, c1, k - 1), PrefixSum(net, c1), PrefixSum(net, c1 + 1), PrefixSum(net, k - 1))
    ensures NoDuplicates(InterCell(net, c1, k))
    ensures Spans(InterCell(net, c1, k), PrefixSum(net, c1), PrefixSum(net, c1 + 1), PrefixSum(net, k))
  {
    var a := InterCell(net, c1, k - 1);
    PrefixSumLast(net, k);
    if net.dist[c1][k - 1] > 0 {
      InterBlockBounds(net, c1, k);
      AppendBySecond(a, InterBlock(net, c1, k - 1, net.nbChannel[c1]),
        PrefixSum(net, c1), PrefixSum(net, c1 + 1), PrefixSum(net, k - 1), PrefixSum(net, k));
    } else {
      assert a + [] == a;
      SpansWiden(a, PrefixSum(net, c1), PrefixSum(net, c1 + 1), PrefixSum(net, k - 1), PrefixSum(net, k));
    }
  }

  /** `s` pairs a channel of `c1` with a channel of some cell below `k`. */
  ghost predicate InterPairFrom(net: Network, c1: int, k: int, s: Separation)
    requires Shaped(net)
  {
    exists c2, a, b :: c2 < k && InterPair(net, c1, c2, a, b, s)
  }

  /** `s` pairs a channel of some cell below `k` with a channel of a later cell. */
  ghost predicate InterPairBelow(net: Network, k: int, s: Separation)
    requires Shaped(net)
  {
    exists c1, c2, a, b :: c1 < k && InterPair(net, c1, c2, a, b, s)
  }

  /** Cell `k - 1` either adds its pairs with `c1` or, at distance zero, none. */
  lemma InterPairFromStep(net: Network, c1: int, k: int, s: Separation)
    requires Shaped(net) && 0 <= c1 < k - 1 && k <= |net.nbChannel|
    ensures InterPairFrom(net, c1, k, s) <==>
              InterPairFrom(net, c1, k - 1, s) || (net.dist[c1][k - 1] > 0 && InterPairIn(net, c1, k - 1, net.nbChannel[c1], s))
  {
    if InterPairFrom(net, c1, k, s) {
      var c2, a, b :| c2 < k && InterPair(net, c1, c2, a, b, s);
      if c2 == k - 1 {
        assert a < net.nbChannel[c1] && InterPair(net, c1, k - 1, a, b, s);
      } else {
        assert c2 < k - 1 && InterPair(net, c1, c2, a, b, s);
      }
    }
    if InterPairFrom(net, c1, k - 1, s) {
      var c2, a, b :| c2 < k - 1 && InterPair(net, c1, c2, a, b, s);
      assert c2 < k && InterPair(net, c1, c2, a, b, s);
    }
    if net.dist[c1][k - 1] > 0 && InterPairIn(net, c1, k - 1, net.nbChannel[c1], s) {
      var a, b :| a < net.nbChannel[c1] && InterPair(net, c1, k - 1, a, b, s);
      assert k - 1 < k && InterPair(net, c1, k - 1, a, b, s);
    }
  }

  /** The pairs of the cells below `k` are those below `k - 1` and those of `k - 1`. */
  lemma InterPairBelowStep(net: Network, k: int, s: Separation)
    requires Shaped(net) && 0 < k <= |net.nbChannel|
    ensures InterPairBelow(net, k, s) <==> InterPairBelow(net, k - 1, s) || InterPairFrom(net, k - 1, |net.nbChannel|, s)
  {
    if InterPairBelow(net, k, s) {
      var c1, c2, a, b :| c1 < k && InterPair(net, c1, c2, a, b, s);
      if c1 == k - 1 {
        assert c2 < |net.nbChannel| && InterPair(net, k - 1, c2, a, b, s);
      } else {
        assert c1 < k - 1 && InterPair(net, c1, c2, a, b, s);
      }
    }
    if InterPairBelow(net, k - 1, s) {
      var c1, c2, a, b :| c1 < k - 1 && InterPair(net, c1, c2, a, b, s);
      assert c1 < k && InterPair(net, c1, c2, a, b, s);
    }
    if InterPairFrom(net, k - 1, |net.nbChannel|, s) {
      var c2, a, b :| c2 < |net.nbChannel| && InterPair(net, k - 1, c2, a, b, s);
      assert k - 1 < k && InterPair(net, k - 1, c2, a, b, s);
    }
  }

  /** The constraints of `c1` with the cells below `k` are exactly its pairs with those cells. */
  lemma {:induction false} InterCellMembers(net: Network, c1: int, k: int)
    requires Shaped(net) && 0 <= c1 < |net.nbChannel| && c1 < k <= |net.nbChannel|
    ensures forall s :: s in InterCell(net, c1, k) <==> InterPairFrom(net, c1, k, s)
    decreases k
  {
    if k > c1 + 1 {
      InterCellMembers(net, c1, k - 1);
      if net.dist[c1][k - 1] > 0 {
        InterBlockMembers(net, c1, k - 1);
      }
      forall s
        ensures s in InterCell(net, c1, k) <==> InterPairFrom(net, c1, k, s)
      {
        InterCellMemberStep(net, c1, k, s);
      }
    }
  }

  /** One step of `InterCellMembers` for one constraint `s`: the block of cell `k - 1`,
      empty at distance zero. */
  lemma InterCellMemberStep(net: Network, c1: int, k: int, s: Separation)
    requires Shaped(net) && 0 <= c1 < k - 1 && k <= |net.nbChannel|
    requires s in InterCell(net, c1, k - 1) <==> InterPairFrom(net, c1, k - 1, s)
    requires net.dist[c1][k - 1] > 0 ==>
               (s in InterBlock(net, c1, k - 1, net.nbChannel[c1]) <==> InterPairIn(net, c1, k - 1, net.nbChannel[c1], s))
    ensures s in InterCell(net, c1, k) <==> InterPairFrom(net, c1, k, s)
  {
    InterPairFromStep(net, c1, k, s);
    if net.dist[c1][k - 1] <= 0 {
      assert InterCell(net, c1, k - 1) + [] == InterCell(net, c1, k - 1);
    }
  }

  /** The between-cell constraints of the first `k` cells are distinct and name a
      transmitter of those cells first. */
  lemma {:induction false} InterBounds(net: Network, k: nat)
    requires Shaped(net) && k <= |net.nbChannel|
    ensures NoDuplicates(Inter(net, k)) && FirstBelow(Inter(net, k), PrefixSum(net, k))
  {
    if k > 0 {
      InterBounds(net, k - 1);
      InterBoundsStep(net, k);
    }
  }

  /** One step of `InterBounds`: the constraints of first cell `k - 1`. */
  lemma InterBoundsStep(net: Network, k: nat)
    requires Shaped(net) && 0 < k <= |net.nbChannel|
    requires NoDuplicates(Inter(net, k - 1)) && FirstBelow(Inter(net, k - 1), PrefixSum(net, k - 1))
    ensures NoDuplicates(Inter(net, k)) && FirstBelow(Inter(net, k), PrefixSum(net, k))
  {
    InterCellBounds(net, k - 1, |net.nbChannel|);
    PrefixSumStep(net, k - 1);
    PrefixSumLast(net, k);
    AppendByFirst(Inter(net, k - 1), InterCell(net, k - 1, |net.nbChannel|),
      PrefixSum(net, k - 1), PrefixSum(net, k), PrefixSum(net, |net.nbChannel|));
  }

  /** The between-cell constraints of the first `k` cells are exactly their pairs. */
  lemma {:induction false} InterMembers(net: Network, k: nat)
    requires Shaped(net) && k <= |net.nbChannel|
    ensures forall s :: s in Inter(net, k) <==> InterPairBelow(net, k, s)
  {
    if k > 0 {
      InterMembers(net, k - 1);
      forall s
        ensures s in Inter(net, k) <==> InterPairBelow(net, k, s)
      {
        InterMemberStep(net, k, s);
      }
    }
  }

  /** One step of `InterMembers` for one constraint `s`: the constraints of first cell `k - 1`. */
  lemma InterMemberStep(net: Network, k: nat, s: Separation)
    requires Shaped(net) && 0 < k <= |net.nbChannel|
    requires s in Inter(net, k - 1) <==> InterPairBelow(net, k - 1, s)
    ensures s in Inter(net, k) <==> InterPairBelow(net, k, s)
  {
    InterCellMembers(net, k - 1, |net.nbChannel|);
    InterPairBelowStep(net, k, s);
  }

  /** Between cells, each channel pair of two cells `c1 < c2` at positive distance is
      constrained exactly once, at that distance, and nothing else is. */
  lemma InterExactlyOnce(net: Network)
    requires Shaped(net)
    ensures NoDuplicates(Inter(net, |net.nbChannel|))
    ensures forall s :: s in Inter(net, |net.nbChannel|) <==> exists c1, c2, a, b :: InterPair(net, c1, c2, a, b, s)
  {
    InterBounds(net, |net.nbChannel|);
    InterMembers(net, |net.nbChannel|);
  }

  /** Every constraint names two transmitters, so each `freq[...]` lookup is in bounds. */
  lemma ConstraintsInBounds(net: Network)
    requires Shaped(net)
    ensures forall s :: s in Intra(net, |net.nbChannel|) + Inter(net, |net.nbChannel|) ==>
              0 <= s.t1 < NbTransmitters(net) && 0 <= s.t2 < NbTransmitters(net)
  {
    IntraExactlyOnce(net);
    InterExactlyOnce(net);
    forall s | s in Intra(net, |net.nbChannel|) + Inter(net, |net.nbChannel|)
      ensures 0 <= s.t1 < NbTransmitters(net) && 0 <= s.t2 < NbTransmitters(net)
    {
      if s in Intra(net, |net.nbChannel|) {
        var cell, a, b :| IntraPair(net, cell, a, b, s);
        IndexInBounds(net, cell, a);
        IndexInBounds(net, cell, b);
      } else {
        var c1, c2, a, b :| InterPair(net, c1, c2, a, b, s);
        IndexInBounds(net, c1, a);
        IndexInBounds(net, c2, b);
      }
    }
  }

  /** The separations the model requires, stated cell by cell without the enumeration. */
  ghost predicate Separated(net: Network, freq: seq<int>)
    requires Shaped(net)
  {
    (forall cell, a, b, s :: IntraPair(net, cell, a, b, s) ==> Holds(s, freq))
    && (forall c1, c2, a, b, s :: InterPair(net, c1, c2, a, b, s) ==> Holds(s, freq))
  }

  /** A frequency plan solves the posted model exactly when it is in the domain and keeps
      every pair of channels of one cell `IntraGap` apart and every pair of channels of two
      cells at positive distance that distance apart. */
  lemma SolutionMeans(net: Network, freq: seq<int>)
    requires Shaped(net)
    ensures Solution(net, freq, Intra(net, |net.nbChannel|) + Inter(net, |net.nbChannel|)) <==>
              |freq| == NbTransmitters(net)
              && (forall t :: 0 <= t < |freq| ==> 0 <= freq[t] <= NbAvailFreq - 1)
              && Separated(net, freq)
  {
    AllHoldAppend(Intra(net, |net.nbChannel|), Inter(net, |net.nbChannel|), freq);
    IntraHold(net, freq);
    InterHold(net, freq);
  }

  /** The intra-cell constraints hold exactly when every pair of channels of one cell is
      far enough apart. */
  lemma IntraHold(net: Network, freq: seq<int>)
    requires Shaped(net)
    ensures AllHold(Intra(net, |net.nbChannel|), freq) <==>
              forall cell, a, b, s :: IntraPair(net, cell, a, b, s) ==> Holds(s, freq)
  {
    var intra := Intra(net, |net.nbChannel|);
    IntraExactlyOnce(net);
    if AllHold(intra, freq) {
      forall cell, a, b, s | IntraPair(net, cell, a, b, s)
        ensures Holds(s, freq)
      {
        assert s in intra;
      }
    }
    if forall cell, a, b, s :: IntraPair(net, cell, a, b, s) ==> Holds(s, freq) {
      forall k | 0 <= k < |intra|
        ensures Holds(intra[k], freq)
      {
        assert intra[k] in intra;
        var cell, a, b :| IntraPair(net, cell, a, b, intra[k]);
      }
    }
  }

  /** The inter-cell constraints hold exactly when every pair of channels of two cells is
      far enough apart. */
  lemma InterHold(net: Network, freq: seq<int>)
    requires Shaped(net)
    ensures AllHold(Inter(net, |net.nbChannel|), freq) <==>
              forall c1, c2, a, b, s :: InterPair(net, c1, c2, a, b, s) ==> Holds(s, freq)
  {
    var inter := Inter(net, |net.nbChannel|);
    InterExactlyOnce(net);
    if AllHold(inter, freq) {
      forall c1, c2, a, b, s | InterPair(net, c1, c2, a, b, s)
        ensures Holds(s, freq)
      {
        assert s in inter;
      }
    }
    if forall c1, c2, a, b, s :: InterPair(net, c1, c2, a, b, s) ==> Holds(s, freq) {
      forall k | 0 <= k < |inter|
        ensures Holds(inter[k], freq)
      {
        assert inter[k] in inter;
        var c1, c2, a, b :| InterPair(net, c1, c2, a, b, inter[k]);
      }
    }
  }
}
