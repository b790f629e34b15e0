/** The job-shop glue around the simulator: reading the instance, numbering operations,
    and the precedence edges each evaluation of the makespan black box adds. */
module JobShopModel {
  import opened Wrappers
  import opened SeqMath
  import opened JobShopGraph
  import opened JobShopSimulator

  /** Samples per evaluation (`NbSamples` under descriptive sampling). */
  const NbSamples: nat := 30
  /** The out-degree bound the black box hands the simulator. */
  const MaxOutDegree: nat := 2

  // ---------------------------------------------------------------------------------
  // The instance file

  datatype ReadError = Truncated | NegativeSize

  /** `mchs[i][j]` is the machine of operation `j` of job `i`; `dmins`/`dmaxs` bound its duration. */
  datatype JobShop = JobShop(nbJobs: nat, nbMachines: nat, mchs: Grid, dmins: Grid, dmaxs: Grid)

  predicate WellShaped(d: JobShop)
  {
    IsGrid(d.mchs, d.nbJobs, d.nbMachines) && IsGrid(d.dmins, d.nbJobs, d.nbMachines)
    && IsGrid(d.dmaxs, d.nbJobs, d.nbMachines)
  }

  /** Tokens read: the two counts, then a (machine, min, max) triple per operation. */
  function DataTokens(nbJobs: nat, nbMachines: nat): nat
  {
    2 + nbJobs * (3 * nbMachines)
  }

  /** Position of field `f` (0 machine, 1 min, 2 max) of operation `j` of job `i`. */
  function FieldPos(nbMachines: nat, i: nat, j: nat, f: nat): nat
  {
    2 + i * (3 * nbMachines) + (3 * j + f)
  }

  lemma FieldPosBound(nbJobs: nat, nbMachines: nat, i: nat, j: nat, f: nat)
    requires i < nbJobs && j < nbMachines && f < 3
    ensures FieldPos(nbMachines, i, j, f) < DataTokens(nbJobs, nbMachines)
  {
    assert (i + 1) * (3 * nbMachines) <= nbJobs * (3 * nbMachines);
  }

  /** Field `f` of every operation, job by job. */
  function Table(t: seq<int>, nbJobs: nat, nbMachines: nat, f: nat): (r: Grid)
    requires f < 3 && |t| >= DataTokens(nbJobs, nbMachines)
    ensures IsGrid(r, nbJobs, nbMachines)
  {
    seq(nbJobs, i requires 0 <= i < nbJobs =>
      seq(nbMachines, j requires 0 <= j < nbMachines =>
        assert FieldPos(nbMachines, i, j, f) < |t| by { FieldPosBound(nbJobs, nbMachines, i, j, f); }
        t[FieldPos(nbMachines, i, j, f)]))
  }

  /** The instance a token stream describes; a stream too short for its own counts, or
      with a negative count, is refused. */
  function DecodeJobShop(t: seq<int>): (r: Result<JobShop, ReadError>)
    ensures r.Ok? <==> |t| >= 2 && t[0] >= 0 && t[1] >= 0 && |t| >= DataTokens(t[0], t[1])
    ensures r.Ok? ==> WellShaped(r.value) && r.value.nbJobs == t[0] && r.value.nbMachines == t[1]
  {
    if |t| < 2 then Err(Truncated)
    else if t[0] < 0 || t[1] < 0 then Err(NegativeSize)
    else if |t| < DataTokens(t[0], t[1]) then Err(Truncated)
    else Ok(JobShop(t[0], t[1], Table(t, t[0], t[1], 0), Table(t, t[0], t[1], 1), Table(t, t[0], t[1], 2)))
  }

  /** The reading loops of `main`: the two counts, then each job's triples in order. */
  method ReadJobShop(t: seq<int>) returns (r: Result<JobShop, ReadError>)
    ensures r == DecodeJobShop(t)
  {
    if |t| < 2 {
      return Err(Truncated);
    }
    var nbJobs, nbMachines := t[0], t[1];
    if nbJobs < 0 || nbMachines < 0 {
      return Err(NegativeSize);
    }
    if |t| < DataTokens(nbJobs, nbMachines) {
      return Err(Truncated);
    }
    ghost var t0, t1, t2 := Table(t, nbJobs, nbMachines, 0), Table(t, nbJobs, nbMachines, 1), Table(t, nbJobs, nbMachines, 2);
    var mchs, dmins, dmaxs: Grid := [], [], [];
    var pos := 2;
    for i := 0 to nbJobs
      invariant pos == FieldPos(nbMachines, i, 0, 0)
      invariant mchs == t0[..i] && dmins == t1[..i] && dmaxs == t2[..i]
    {
      var mrow, lrow, hrow: seq<int> := [], [], [];
      for j := 0 to nbMachines
        invariant pos == FieldPos(nbMachines, i, j, 0)
        invariant mrow == t0[i][..j] && lrow == t1[i][..j] && hrow == t2[i][..j]
      {
        FieldPosBound(nbJobs, nbMachines, i, j, 2);
        assert t0[i][j] == t[pos] && t1[i][j] == t[pos + 1] && t2[i][j] == t[pos + 2];
        assert t0[i][..j + 1] == t0[i][..j] + [t0[i][j]];
        assert t1[i][..j + 1] == t1[i][..j] + [t1[i][j]];
        assert t2[i][..j + 1] == t2[i][..j] + [t2[i][j]];
        mrow := mrow + [t[pos]];
        lrow := lrow + [t[pos + 1]];
        hrow := hrow + [t[pos + 2]];
        pos := pos + 3;
      }
      assert FieldPos(nbMachines, i, nbMachines, 0) == FieldPos(nbMachines, i + 1, 0, 0);
      assert t0[i][..nbMachines] == t0[i] && t1[i][..nbMachines] == t1[i] && t2[i][..nbMachines] == t2[i];
      assert t0[..i + 1] == t0[..i] + [t0[i]] && t1[..i + 1] == t1[..i] + [t1[i]] && t2[..i + 1] == t2[..i] + [t2[i]];
      mchs, dmins, dmaxs := mchs + [mrow], dmins + [lrow], dmaxs + [hrow];
    }
    assert t0[..nbJobs] == t0 && t1[..nbJobs] == t1 && t2[..nbJobs] == t2;
    return Ok(JobShop(nbJobs, nbMachines, mchs, dmins, dmaxs));
  }

  /** The (machine, min, max) triple of each operation of job `i`. */
  function JobCells(d: JobShop, i: int): (r: seq<seq<int>>)
    requires WellShaped(d) && 0 <= i < d.nbJobs
    ensures |r| == d.nbMachines && forall j :: 0 <= j < d.nbMachines ==> |r[j]| == 3
  {
    seq(d.nbMachines, j requires 0 <= j < d.nbMachines => [d.mchs[i][j], d.dmins[i][j], d.dmaxs[i][j]])
  }

  /** The tokens of each job, job by job. */
  function JobRows(d: JobShop): (r: seq<seq<int>>)
    requires WellShaped(d)
    ensures |r| == d.nbJobs && forall i :: 0 <= i < d.nbJobs ==> r[i] == Flatten(JobCells(d, i))
  {
    seq(d.nbJobs, i requires 0 <= i < d.nbJobs => Flatten(JobCells(d, i)))
  }

  /** The file layout of an instance. */
  function EncodeJobShop(d: JobShop): seq<int>
    requires WellShaped(d)
  {
    [d.nbJobs, d.nbMachines] + Flatten(JobRows(d))
  }

  lemma EncodeLength(d: JobShop)
    requires WellShaped(d)
    ensures |EncodeJobShop(d)| == DataTokens(d.nbJobs, d.nbMachines)
    ensures forall i :: 0 <= i < d.nbJobs ==> |JobRows(d)[i]| == 3 * d.nbMachines
  {
    forall i | 0 <= i < d.nbJobs
      ensures |JobRows(d)[i]| == 3 * d.nbMachines
    {
      FlattenLength(JobCells(d, i), 3);
    }
    FlattenLength(JobRows(d), 3 * d.nbMachines);
  }

  /** Field `f` of operation `j` of job `i` sits at `FieldPos` in the encoding. */
  lemma EncodeAt(d: JobShop, i: int, j: int, f: int)
    requires WellShaped(d) && 0 <= i < d.nbJobs && 0 <= j < d.nbMachines && 0 <= f < 3
    ensures FieldPos(d.nbMachines, i, j, f) < |EncodeJobShop(d)|
    ensures EncodeJobShop(d)[FieldPos(d.nbMachines, i, j, f)] == JobCells(d, i)[j][f]
  {
    var m := d.nbMachines;
    EncodeLength(d);
    FlattenIndex(JobCells(d, i), 3, j, f);
    FlattenIndex(JobRows(d), 3 * m, i, 3 * j + f);
    var k := i * (3 * m) + (3 * j + f);
    assert FieldPos(m, i, j, f) == 2 + k;
  }

  /** Reading an encoded instance gives back the instance, whatever follows it. */
  lemma DecodeEncode(d: JobShop, rest: seq<int>)
    requires WellShaped(d)
    ensures DecodeJobShop(EncodeJobShop(d) + rest) == Ok(d)
  {
    var m := d.nbMachines;
    var t := EncodeJobShop(d) + rest;
    EncodeLength(d);
    forall i, j | 0 <= i < d.nbJobs && 0 <= j < m
      ensures Table(t, d.nbJobs, m, 0)[i][j] == d.mchs[i][j]
      ensures Table(t, d.nbJobs, m, 1)[i][j] == d.dmins[i][j]
      ensures Table(t, d.nbJobs, m, 2)[i][j] == d.dmaxs[i][j]
    {
      EncodeAt(d, i, j, 0);
      EncodeAt(d, i, j, 1);
      EncodeAt(d, i, j, 2);
    }
    GridEq(Table(t, d.nbJobs, m, 0), d.mchs, d.nbJobs, m);
    GridEq(Table(t, d.nbJobs, m, 1), d.dmins, d.nbJobs, m);
    GridEq(Table(t, d.nbJobs, m, 2), d.dmaxs, d.nbJobs, m);
  }

  // ---------------------------------------------------------------------------------
  // Operation numbering

  /** Operation `j` of job `i` is node `i*nbMachines + j` of the simulator. */
  function OpId(nbMachines: nat, i: int, j: int): int
  {
    i * nbMachines + j
  }

  /** Numbering sends every operation to a node below `nbJobs*nbMachines`, and job and rank
      can be read back from the node, so distinct operations get distinct nodes. */
  lemma OpIdBijection(nbJobs: nat, nbMachines: nat, i: int, j: int)
    requires 0 <= i < nbJobs && 0 <= j < nbMachines
    ensures 0 <= OpId(nbMachines, i, j) < nbJobs * nbMachines
    ensures OpId(nbMachines, i, j) / nbMachines == i && OpId(nbMachines, i, j) % nbMachines == j
  {
    RowsApartMul(i, nbJobs, nbMachines);
    DivModOf(i, j, nbMachines);
  }

  /** Every node is the number of the operation given by its quotient and remainder. */
  lemma OpIdOnto(nbJobs: nat, nbMachines: nat, x: int)
    requires 0 <= x < nbJobs * nbMachines
    ensures 0 <= x / nbMachines < nbJobs && 0 <= x % nbMachines < nbMachines
    ensures OpId(nbMachines, x / nbMachines, x % nbMachines) == x
  {
    var q := x / nbMachines;
    assert x == q * nbMachines + x % nbMachines;
    assert (nbJobs - q) * nbMachines == nbJobs * nbMachines - q * nbMachines;
    PositiveFactor(nbJobs - q, nbMachines);
  }

  lemma PositiveFactor(a: int, c: nat)
    requires a * c > 0
    ensures a > 0
  {
  }

  lemma RowsApartMul(i: int, j: int, c: nat)
    requires i < j
    ensures (i + 1) * c <= j * c
  {
    assert j * c - (i + 1) * c == (j - i - 1) * c;
  }

  lemma DivModOf(q: int, r: int, c: nat)
    requires 0 <= r < c
    ensures (q * c + r) / c == q && (q * c + r) % c == r
  {
    var x := q * c + r;
    var q', r' := x / c, x % c;
    assert x == q' * c + r' && 0 <= r' < c;
    assert (q - q') * c == r' - r;
    ProductBetween(q - q', c, r' - r);
  }

  /** A multiple of `c` strictly between `-c` and `c` is 0. */
  lemma ProductBetween(a: int, c: nat, p: int)
    requires a * c == p && 0 < p + c && p < c
    ensures a == 0
  {
    if a > 0 {
      RowsApartMul(0, a, c);
    } else if a < 0 {
      RowsApartMul(a, 0, c);
    }
  }

  // ---------------------------------------------------------------------------------
  // Precedence edges

  datatype Edge = Edge(from: int, to: int)

  function Sources(p: seq<Edge>): (r: seq<int>)
    ensures |r| == |p| && forall t :: 0 <= t < |p| ==> r[t] == p[t].from
  {
    seq(|p|, t requires 0 <= t < |p| => p[t].from)
  }

  lemma SourcesAppend(a: seq<Edge>, b: seq<Edge>)
    ensures Sources(a + b) == Sources(a) + Sources(b)
  {
  }

  /** The chain `j-1 -> j` through the operations of job `i`. */
  function JobChain(nbMachines: nat, i: int): seq<Edge>
  {
    seq(if nbMachines == 0 then 0 else nbMachines - 1,
        t requires 0 <= t < nbMachines - 1 => Edge(OpId(nbMachines, i, t), OpId(nbMachines, i, t + 1)))
  }

  /** The job-chain edges of the first `k` jobs, in the order the black box adds them. */
  function JobPairs(nbMachines: nat, k: nat): seq<Edge>
  {
    if k == 0 then [] else JobPairs(nbMachines, k - 1) + JobChain(nbMachines, k - 1)
  }

  /** Consecutive operations of one machine sequence. */
  function Pairs(s: seq<int>): seq<Edge>
  {
    seq(if |s| == 0 then 0 else |s| - 1, t requires 0 <= t < |s| - 1 => Edge(s[t], s[t + 1]))
  }

  /** The sequencing edges of every machine, machine by machine. */
  function MachinePairs(seqs: seq<seq<int>>): seq<Edge>
  {
    if |seqs| == 0 then [] else MachinePairs(seqs[..|seqs| - 1]) + Pairs(seqs[|seqs| - 1])
  }

  predicate EdgesIn(p: seq<Edge>, n: int)
  {
    forall t :: 0 <= t < |p| ==> 0 <= p[t].from < n && 0 <= p[t].to < n
  }

  lemma EdgesInPrefix(p: seq<Edge>, q: seq<Edge>, n: int)
    requires EdgesIn(q, n) && p <= q
    ensures EdgesIn(p, n)
  {
    assert forall t :: 0 <= t < |p| ==> p[t] == q[t];
  }

  /** The graph after `addPrecedence` of every edge of `p`, one after the other. */
  function AddAll(g: Graph, p: seq<Edge>): (r: Graph)
    requires EdgesIn(p, |g|)
    ensures |r| == |g|
  {
    if |p| == 0 then g
    else
      var g' := AddAll(g, p[..|p| - 1]);
      var e := p[|p| - 1];
      g'[e.from := g'[e.from] + [e.to]]
  }

  lemma AddAllSnoc(g: Graph, p: seq<Edge>, e: Edge)
    requires EdgesIn(p, |g|) && 0 <= e.from < |g| && 0 <= e.to < |g|
    ensures EdgesIn(p + [e], |g|)
    ensures AddAll(g, p + [e]) == AddAll(g, p)[e.from := AddAll(g, p)[e.from] + [e.to]]
  {
    assert (p + [e])[..|p|] == p;
  }

  /** The targets of the edges of `p` that leave `h`, in order. */
  function Targets(p: seq<Edge>, h: int): seq<int>
  {
    if |p| == 0 then []
    else Targets(p[..|p| - 1], h) + (if p[|p| - 1].from == h then [p[|p| - 1].to] else [])
  }

  /** Adding a list of edges appends to each row the targets of its edges. */
  lemma {:induction false} AddAllRows(g: Graph, p: seq<Edge>, h: int)
    requires EdgesIn(p, |g|) && 0 <= h < |g|
    ensures AddAll(g, p)[h] == g[h] + Targets(p, h)
  {
    if |p| > 0 {
      EdgesInPrefix(p[..|p| - 1], p, |g|);
      AddAllRows(g, p[..|p| - 1], h);
    }
  }

  lemma {:induction false} TargetsIn(p: seq<Edge>, h: int, n: int)
    requires EdgesIn(p, n)
    ensures forall x :: x in Targets(p, h) ==> 0 <= x < n
  {
    if |p| > 0 {
      EdgesInPrefix(p[..|p| - 1], p, n);
      TargetsIn(p[..|p| - 1], h, n);
    }
  }

  /** With distinct sources, a node is the source of at most one edge. */
  lemma {:induction false} TargetsAtMostOne(p: seq<Edge>, h: int)
    requires Distinct(Sources(p))
    ensures |Targets(p, h)| <= 1
    ensures |Targets(p, h)| == 1 ==> h in Sources(p)
  {
    if |p| > 0 {
      var init := p[..|p| - 1];
      assert Sources(p) == Sources(init) + [p[|p| - 1].from];
      DistinctAppend(Sources(init), [p[|p| - 1].from]);
      TargetsAtMostOne(init, h);
    }
  }

  /** With distinct sources, no earlier edge leaves the source of edge `k`. */
  lemma TargetsBefore(p: seq<Edge>, k: int)
    requires Distinct(Sources(p)) && 0 <= k < |p|
    ensures Targets(p[..k], p[k].from) == []
  {
    assert p == p[..k] + p[k..];
    SourcesAppend(p[..k], p[k..]);
    DistinctAppend(Sources(p[..k]), Sources(p[k..]));
    assert Sources(p[k..])[0] == p[k].from;
    TargetsAtMostOne(p[..k], p[k].from);
  }

  /** Job `i`'s chain has pairwise distinct sources, and every edge goes forward within the
      job's block of nodes. */
  lemma JobChainFacts(nbMachines: nat, i: nat)
    ensures Distinct(Sources(JobChain(nbMachines, i)))
    ensures forall t :: 0 <= t < |JobChain(nbMachines, i)| ==>
              i * nbMachines <= JobChain(nbMachines, i)[t].from < JobChain(nbMachines, i)[t].to
              && JobChain(nbMachines, i)[t].to < (i + 1) * nbMachines
  {
    var b := JobChain(nbMachines, i);
    forall s, t | 0 <= s < t < |b|
      ensures Sources(b)[s] != Sources(b)[t]
    {
      assert Sources(b)[s] == i * nbMachines + s && Sources(b)[t] == i * nbMachines + t;
    }
    NextBlock(i, nbMachines);
    forall t | 0 <= t < |b|
      ensures i * nbMachines <= b[t].from < b[t].to && b[t].to < (i + 1) * nbMachines
    {
      assert b[t] == Edge(OpId(nbMachines, i, t), OpId(nbMachines, i, t + 1));
    }
  }

  lemma NextBlock(i: nat, c: nat)
    ensures 0 <= i * c && (i + 1) * c == i * c + c
  {
  }

  /** Edges leaving nodes below `bound` and edges leaving nodes from `bound` on share no source. */
  lemma SourcesApart(a: seq<Edge>, b: seq<Edge>, bound: int)
    requires forall t :: 0 <= t < |a| ==> a[t].from < bound
    requires forall t :: 0 <= t < |b| ==> bound <= b[t].from
    ensures forall x :: x in Sources(a) ==> x !in Sources(b)
  {
  }

  /** Appending edges between nodes of `[lo, hi)` to edges between nodes below `lo`. */
  lemma AppendBlock(a: seq<Edge>, b: seq<Edge>, lo: int, hi: int)
    requires 0 <= lo <= hi
    requires EdgesIn(a, lo) && Distinct(Sources(a)) && Distinct(Sources(b))
    requires forall t :: 0 <= t < |b| ==> lo <= b[t].from < hi && lo <= b[t].to < hi
    ensures EdgesIn(a + b, hi) && Distinct(Sources(a + b))
  {
    SourcesAppend(a, b);
    SourcesApart(a, b, lo);
    DistinctAppend(Sources(a), Sources(b));
    forall t | 0 <= t < |a + b|
      ensures 0 <= (a + b)[t].from < hi && 0 <= (a + b)[t].to < hi
    {
      if t >= |a| {
        assert (a + b)[t] == b[t - |a|];
      }
    }
  }

  lemma {:induction false} JobPairsFacts(nbMachines: nat, k: nat)
    ensures EdgesIn(JobPairs(nbMachines, k), k * nbMachines)
    ensures Distinct(Sources(JobPairs(nbMachines, k)))
  {
    if k > 0 {
      var i := k - 1;
      var a, b := JobPairs(nbMachines, i), JobChain(nbMachines, i);
      JobPairsFacts(nbMachines, i);
      JobChainFacts(nbMachines, i);
      NextBlock(i, nbMachines);
      AppendBlock(a, b, i * nbMachines, k * nbMachines);
    }
  }

  /** Edge `e` links operations `j-1` and `j` of job `i`. */
  predicate JobEdge(nbMachines: nat, i: int, j: int, e: Edge)
  {
    1 <= j < nbMachines && e == Edge(OpId(nbMachines, i, j - 1), OpId(nbMachines, i, j))
  }

  lemma JobChainMembers(nbMachines: nat, i: int, e: Edge)
    ensures e in JobChain(nbMachines, i) <==> exists j :: JobEdge(nbMachines, i, j, e)
  {
    var b := JobChain(nbMachines, i);
    if e in b {
      var t :| 0 <= t < |b| && b[t] == e;
      assert JobEdge(nbMachines, i, t + 1, e);
    }
    if exists j :: JobEdge(nbMachines, i, j, e) {
      var j :| JobEdge(nbMachines, i, j, e);
      assert b[j - 1] == e;
    }
  }

  /** The job-chain edges are exactly the links between consecutive operations of a job. */
  lemma {:induction false} JobPairsMembers(nbMachines: nat, k: nat, e: Edge)
    ensures e in JobPairs(nbMachines, k) <==> exists i, j :: 0 <= i < k && JobEdge(nbMachines, i, j, e)
  {
    if k > 0 {
      var i := k - 1;
      JobPairsMembers(nbMachines, i, e);
      JobChainMembers(nbMachines, i, e);
      if exists i', j :: 0 <= i' < k && JobEdge(nbMachines, i', j, e) {
        var i', j :| 0 <= i' < k && JobEdge(nbMachines, i', j, e);
        if i' < i {
          assert e in JobPairs(nbMachines, i);
        } else {
          assert e in JobChain(nbMachines, i);
        }
      }
    }
  }

  /** Edge `e` links operations `t-1` and `t` of machine sequence `j`. */
  predicate MachineEdge(seqs: seq<seq<int>>, j: int, t: int, e: Edge)
  {
    0 <= j < |seqs| && 1 <= t < |seqs[j]| && e == Edge(seqs[j][t - 1], seqs[j][t])
  }

  lemma PairsMembers(s: seq<int>, e: Edge)
    ensures e in Pairs(s) <==> exists t :: 1 <= t < |s| && e == Edge(s[t - 1], s[t])
  {
    if e in Pairs(s) {
      var t :| 0 <= t < |Pairs(s)| && Pairs(s)[t] == e;
      var t' := t + 1;
      assert e == Edge(s[t' - 1], s[t']);
    }
    if exists t :: 1 <= t < |s| && e == Edge(s[t - 1], s[t]) {
      var t :| 1 <= t < |s| && e == Edge(s[t - 1], s[t]);
      assert Pairs(s)[t - 1] == e;
    }
  }

  /** The machine edges are exactly the links between consecutive operations of a machine
      sequence. */
  lemma {:induction false} MachinePairsMembers(seqs: seq<seq<int>>, e: Edge)
    ensures e in MachinePairs(seqs) <==> exists j, t :: MachineEdge(seqs, j, t, e)
  {
    if |seqs| > 0 {
      var last := |seqs| - 1;
      var init := seqs[..last];
      MachinePairsMembers(init, e);
      PairsMembers(seqs[last], e);
      if exists j, t :: MachineEdge(init, j, t, e) {
        var j, t :| MachineEdge(init, j, t, e);
        assert MachineEdge(seqs, j, t, e);
      }
      if exists t :: 1 <= t < |seqs[last]| && e == Edge(seqs[last][t - 1], seqs[last][t]) {
        var t :| 1 <= t < |seqs[last]| && e == Edge(seqs[last][t - 1], seqs[last][t]);
        assert MachineEdge(seqs, last, t, e);
      }
      if exists j, t :: MachineEdge(seqs, j, t, e) {
        var j, t :| MachineEdge(seqs, j, t, e);
        if j < last {
          assert MachineEdge(init, j, t, e);
        } else {
          assert 1 <= t < |seqs[last]| && e == Edge(seqs[last][t - 1], seqs[last][t]);
        }
      }
    }
  }

  /** What the black box relies on in the machine sequences: they name nodes, and no
      operation appears twice across all of them. */
  predicate SeqsOK(seqs: seq<seq<int>>, n: int)
  {
    (forall j, t :: 0 <= j < |seqs| && 0 <= t < |seqs[j]| ==> 0 <= seqs[j][t] < n)
    && Distinct(Flatten(seqs))
  }

  lemma SeqsOKPrefix(seqs: seq<seq<int>>, n: int)
    requires SeqsOK(seqs, n) && |seqs| > 0
    ensures SeqsOK(seqs[..|seqs| - 1], n)
  {
    var init := seqs[..|seqs| - 1];
    assert Flatten(seqs) == Flatten(init) + seqs[|seqs| - 1];
    DistinctAppend(Flatten(init), seqs[|seqs| - 1]);
    forall j, t | 0 <= j < |init| && 0 <= t < |init[j]|
      ensures 0 <= init[j][t] < n
    {
      assert init[j] == seqs[j];
    }
  }

  /** A sequence's pairs have its elements but the last as sources, and name its elements. */
  lemma PairsFacts(s: seq<int>, n: int)
    requires forall t :: 0 <= t < |s| ==> 0 <= s[t] < n
    ensures EdgesIn(Pairs(s), n)
    ensures forall t :: 0 <= t < |Pairs(s)| ==> Sources(Pairs(s))[t] == s[t]
  {
    forall t | 0 <= t < |Pairs(s)|
      ensures 0 <= Pairs(s)[t].from < n && 0 <= Pairs(s)[t].to < n
    {
      var t' := t + 1;
      assert Pairs(s)[t].to == s[t'];
    }
  }

  lemma {:induction false} MachinePairsFacts(seqs: seq<seq<int>>, n: int)
    requires SeqsOK(seqs, n)
    ensures EdgesIn(MachinePairs(seqs), n)
    ensures Distinct(Sources(MachinePairs(seqs)))
    ensures forall x :: x in Sources(MachinePairs(seqs)) ==> x in Flatten(seqs)
  {
    if |seqs| > 0 {
      var init, last := seqs[..|seqs| - 1], seqs[|seqs| - 1];
      assert Flatten(seqs) == Flatten(init) + last;
      DistinctAppend(Flatten(init), last);
      SeqsOKPrefix(seqs, n);
      MachinePairsFacts(init, n);
      var a, b := MachinePairs(init), Pairs(last);
      SourcesAppend(a, b);
      PairsFacts(last, n);
      forall s, t | 0 <= s < t < |b|
        ensures Sources(b)[s] != Sources(b)[t]
      {
      }
      forall x | x in Sources(a)
        ensures x !in Sources(b)
      {
      }
      DistinctAppend(Sources(a), Sources(b));
    }
  }

  function EmptyGraph(n: nat): (g: Graph)
    ensures |g| == n && forall h :: 0 <= h < n ==> g[h] == []
  {
    seq(n, _ => [])
  }

  /** The graph one evaluation builds: every job chain, then every machine sequence. */
  function PrecedenceGraph(nbJobs: nat, nbMachines: nat, seqs: seq<seq<int>>): (g: Graph)
    requires SeqsOK(seqs, nbJobs * nbMachines)
    ensures |g| == nbJobs * nbMachines
  {
    assert EdgesIn(JobPairs(nbMachines, nbJobs), nbJobs * nbMachines) by { JobPairsFacts(nbMachines, nbJobs); }
    assert EdgesIn(MachinePairs(seqs), nbJobs * nbMachines) by { MachinePairsFacts(seqs, nbJobs * nbMachines); }
    AddAll(AddAll(EmptyGraph(nbJobs * nbMachines), JobPairs(nbMachines, nbJobs)), MachinePairs(seqs))
  }

  /** Row `h` of the graph: its job successor, if any, then its machine successor, if any. */
  lemma PrecedenceRow(nbJobs: nat, nbMachines: nat, seqs: seq<seq<int>>, h: int)
    requires SeqsOK(seqs, nbJobs * nbMachines) && 0 <= h < nbJobs * nbMachines
    ensures PrecedenceGraph(nbJobs, nbMachines, seqs)[h]
            == Targets(JobPairs(nbMachines, nbJobs), h) + Targets(MachinePairs(seqs), h)
    ensures |PrecedenceGraph(nbJobs, nbMachines, seqs)[h]| <= MaxOutDegree
    ensures forall k :: 0 <= k < |PrecedenceGraph(nbJobs, nbMachines, seqs)[h]| ==>
              0 <= PrecedenceGraph(nbJobs, nbMachines, seqs)[h][k] < nbJobs * nbMachines
  {
    var n := nbJobs * nbMachines;
    var jp, mp := JobPairs(nbMachines, nbJobs), MachinePairs(seqs);
    JobPairsFacts(nbMachines, nbJobs);
    MachinePairsFacts(seqs, n);
    var g0 := EmptyGraph(n);
    var g1 := AddAll(g0, jp);
    AddAllRows(g0, jp, h);
    assert g1[h] == Targets(jp, h) by { assert g0[h] == []; }
    AddAllRows(g1, mp, h);
    assert PrecedenceGraph(nbJobs, nbMachines, seqs) == AddAll(g1, mp);
    var row := PrecedenceGraph(nbJobs, nbMachines, seqs)[h];
    assert row == Targets(jp, h) + Targets(mp, h);
    TargetsAtMostOne(jp, h);
    TargetsAtMostOne(mp, h);
    TargetsIn(jp, h, n);
    TargetsIn(mp, h, n);
    forall k | 0 <= k < |row|
      ensures 0 <= row[k] < n
    {
      assert row[k] in Targets(jp, h) || row[k] in Targets(mp, h);
    }
  }

  /** Each node has at most one job successor and one machine successor, so the out-degree
      bound `MaxOutDegree` the black box gives the simulator is never exceeded. */
  lemma OutDegreeBound(nbJobs: nat, nbMachines: nat, seqs: seq<seq<int>>)
    requires SeqsOK(seqs, nbJobs * nbMachines)
    ensures WellFormed(PrecedenceGraph(nbJobs, nbMachines, seqs))
    ensures forall h :: 0 <= h < nbJobs * nbMachines ==>
              |PrecedenceGraph(nbJobs, nbMachines, seqs)[h]| <= MaxOutDegree
  {
    forall h | 0 <= h < nbJobs * nbMachines
      ensures |PrecedenceGraph(nbJobs, nbMachines, seqs)[h]| <= MaxOutDegree
      ensures forall k :: 0 <= k < |PrecedenceGraph(nbJobs, nbMachines, seqs)[h]| ==>
                0 <= PrecedenceGraph(nbJobs, nbMachines, seqs)[h][k] < nbJobs * nbMachines
    {
      PrecedenceRow(nbJobs, nbMachines, seqs, h);
    }
  }

  lemma {:induction false} JobPairsPrefix(nbMachines: nat, k: nat, k': nat)
    requires k <= k'
    ensures JobPairs(nbMachines, k) <= JobPairs(nbMachines, k')
    decreases k' - k
  {
    if k < k' {
      JobPairsPrefix(nbMachines, k, k' - 1);
    }
  }

  lemma {:induction false} MachinePairsPrefix(seqs: seq<seq<int>>, j: nat)
    requires j <= |seqs|
    ensures MachinePairs(seqs[..j]) <= MachinePairs(seqs)
    decreases |seqs| - j
  {
    if j < |seqs| {
      MachinePairsPrefix(seqs, j + 1);
      assert seqs[..j + 1][..j] == seqs[..j];
    } else {
      assert seqs[..j] == seqs;
    }
  }

  /** One `addPrecedence` of the edge list keeps the simulator valid and its graph the
      graph of the edges added so far: no earlier edge of the list shares the source of `e`,
      so row `e.from` still has room. */
  method AddEdge(simu: PrecedenceGraphSimulator, ghost base: Graph, ghost p: seq<Edge>, ghost all: seq<Edge>, e: Edge)
    requires simu.Valid() && simu.w == MaxOutDegree && |base| == simu.n
    requires p + [e] <= all && EdgesIn(all, simu.n) && Distinct(Sources(all))
    requires EdgesIn(p, simu.n)
    requires forall h :: 0 <= h < |base| ==> |base[h]| <= 1
    requires simu.succ == AddAll(base, p)
    modifies simu, simu.nbIncoming0, simu.outgoing
    ensures EdgesIn(p + [e], simu.n) && simu.Valid() && simu.succ == AddAll(base, p + [e])
  {
    assert all[|p|] == e;
    assert p == all[..|p|];
    TargetsBefore(all, |p|);
    AddAllRows(base, p, e.from);
    AddAllSnoc(base, p, e);
    simu.AddPrecedence(e.from, e.to);
  }

  /** The edges added before link `j-1 -> j` of job `i`, and that link: a prefix of the
      job-chain edges of all jobs. */
  function ChainPrefix(nbMachines: nat, i: nat, j: nat): seq<Edge>
    requires 1 <= j && (j <= nbMachines || j == 1)
  {
    JobPairs(nbMachines, i) + JobChain(nbMachines, i)[..j - 1]
  }

  lemma ChainPrefixStep(nbJobs: nat, nbMachines: nat, i: nat, j: nat)
    requires i < nbJobs && 1 <= j < nbMachines
    ensures ChainPrefix(nbMachines, i, j) + [Edge(OpId(nbMachines, i, j - 1), OpId(nbMachines, i, j))]
            == ChainPrefix(nbMachines, i, j + 1)
    ensures ChainPrefix(nbMachines, i, j + 1) <= JobPairs(nbMachines, nbJobs)
  {
    var chain := JobChain(nbMachines, i);
    assert chain[..j] == chain[..j - 1] + [chain[j - 1]];
    JobPairsPrefix(nbMachines, i + 1, nbJobs);
    assert JobPairs(nbMachines, i + 1) == JobPairs(nbMachines, i) + chain;
  }

  lemma ChainPrefixEnds(nbJobs: nat, nbMachines: nat, i: nat, j: nat)
    requires i < nbJobs && 1 <= j && (j <= nbMachines || j == 1) && !(j < nbMachines)
    ensures ChainPrefix(nbMachines, i, 1) == JobPairs(nbMachines, i)
    ensures ChainPrefix(nbMachines, i, j) == JobPairs(nbMachines, i + 1)
    ensures EdgesIn(JobPairs(nbMachines, i + 1), nbJobs * nbMachines)
  {
    var chain := JobChain(nbMachines, i);
    assert chain[..j - 1] == chain;
    JobPairsFacts(nbMachines, nbJobs);
    JobPairsPrefix(nbMachines, i + 1, nbJobs);
    EdgesInPrefix(JobPairs(nbMachines, i + 1), JobPairs(nbMachines, nbJobs), nbJobs * nbMachines);
  }

  /** Adds the chain `j-1 -> j` of job `i` to a graph holding the chains of the jobs before it. */
  method AddJobChain(simu: PrecedenceGraphSimulator, ghost empty: Graph, nbJobs: nat, nbMachines: nat, i: nat)
    requires simu.Valid() && simu.w == MaxOutDegree && simu.n == nbJobs * nbMachines && i < nbJobs
    requires empty == EmptyGraph(simu.n)
    requires EdgesIn(JobPairs(nbMachines, i), simu.n) && simu.succ == AddAll(empty, JobPairs(nbMachines, i))
    modifies simu, simu.nbIncoming0, simu.outgoing
    ensures simu.Valid() && EdgesIn(JobPairs(nbMachines, i + 1), simu.n)
    ensures simu.succ == AddAll(empty, JobPairs(nbMachines, i + 1))
  {
    ghost var jp := JobPairs(nbMachines, nbJobs);
    JobPairsFacts(nbMachines, nbJobs);
    assert ChainPrefix(nbMachines, i, 1) == JobPairs(nbMachines, i);
    var j := 1;
    while j < nbMachines
      invariant 1 <= j && (j <= nbMachines || j == 1)
      invariant EdgesIn(ChainPrefix(nbMachines, i, j), simu.n)
      invariant simu.Valid() && simu.succ == AddAll(empty, ChainPrefix(nbMachines, i, j))
    {
      var e := Edge(OpId(nbMachines, i, j - 1), OpId(nbMachines, i, j));
      ChainPrefixStep(nbJobs, nbMachines, i, j);
      AddEdge(simu, empty, ChainPrefix(nbMachines, i, j), jp, e);
      j := j + 1;
    }
    ChainPrefixEnds(nbJobs, nbMachines, i, j);
  }

  /** The edges added before operation `t` of machine sequence `j` is reached: a prefix of
      the machine edges of all sequences. */
  function SequencePrefix(seqs: seq<seq<int>>, j: nat, t: nat): seq<Edge>
    requires j < |seqs| && t <= |seqs[j]|
  {
    MachinePairs(seqs[..j]) + Pairs(seqs[j])[..if t == 0 then 0 else t - 1]
  }

  lemma SequencePrefixStart(seqs: seq<seq<int>>, j: nat)
    requires j < |seqs|
    ensures SequencePrefix(seqs, j, 0) == MachinePairs(seqs[..j])
  {
  }

  lemma SequencePrefixStep(seqs: seq<seq<int>>, j: nat, t: nat)
    requires j < |seqs| && 1 <= t < |seqs[j]|
    ensures SequencePrefix(seqs, j, t) + [Edge(seqs[j][t - 1], seqs[j][t])] == SequencePrefix(seqs, j, t + 1)
    ensures SequencePrefix(seqs, j, t + 1) <= MachinePairs(seqs)
  {
    var pairs := Pairs(seqs[j]);
    assert pairs[..t] == pairs[..t - 1] + [pairs[t - 1]];
    MachinePairsPrefix(seqs, j + 1);
    assert seqs[..j + 1][..j] == seqs[..j];
    assert MachinePairs(seqs[..j + 1]) == MachinePairs(seqs[..j]) + pairs;
  }

  lemma SequencePrefixEnds(seqs: seq<seq<int>>, j: nat, n: int)
    requires j < |seqs| && SeqsOK(seqs, n)
    ensures SequencePrefix(seqs, j, |seqs[j]|) == MachinePairs(seqs[..j + 1])
    ensures EdgesIn(MachinePairs(seqs[..j + 1]), n)
  {
    var pairs := Pairs(seqs[j]);
    assert pairs[..if |seqs[j]| == 0 then 0 else |seqs[j]| - 1] == pairs;
    assert seqs[..j + 1][..j] == seqs[..j];
    MachinePairsFacts(seqs, n);
    MachinePairsPrefix(seqs, j + 1);
    EdgesInPrefix(MachinePairs(seqs[..j + 1]), MachinePairs(seqs), n);
  }

  /** Adds the consecutive pairs of machine sequence `j` to a graph holding the job chains
      and the sequences before `j`. */
  method AddMachineSequence(simu: PrecedenceGraphSimulator, ghost g0: Graph, seqs: seq<seq<int>>, j: nat)
    requires simu.Valid() && simu.w == MaxOutDegree && |g0| == simu.n
    requires SeqsOK(seqs, simu.n) && j < |seqs|
    requires forall h :: 0 <= h < |g0| ==> |g0[h]| <= 1
    requires EdgesIn(MachinePairs(seqs[..j]), simu.n) && simu.succ == AddAll(g0, MachinePairs(seqs[..j]))
    modifies simu, simu.nbIncoming0, simu.outgoing
    ensures simu.Valid() && EdgesIn(MachinePairs(seqs[..j + 1]), simu.n)
    ensures simu.succ == AddAll(g0, MachinePairs(seqs[..j + 1]))
  {
    ghost var mp := MachinePairs(seqs);
    MachinePairsFacts(seqs, simu.n);
    SequencePrefixStart(seqs, j);
    var s := seqs[j];
    for t := 0 to |s|
      invariant EdgesIn(SequencePrefix(seqs, j, t), simu.n)
      invariant simu.Valid() && simu.succ == AddAll(g0, SequencePrefix(seqs, j, t))
    {
      if t > 0 {
        var e := Edge(s[t - 1], s[t]);
        SequencePrefixStep(seqs, j, t);
        AddEdge(simu, g0, SequencePrefix(seqs, j, t), mp, e);
      } else {
        assert SequencePrefix(seqs, j, 1) == SequencePrefix(seqs, j, 0);
      }
    }
    SequencePrefixEnds(seqs, j, simu.n);
  }

  /** `reinit`, then every job-chain edge, then every machine-sequence edge, in the order
      the black box adds them. */
  method AddJobShopPrecedences(simu: PrecedenceGraphSimulator, nbJobs: nat, nbMachines: nat, seqs: seq<seq<int>>)
    requires simu.Allocated() && simu.n == nbJobs * nbMachines && simu.w == MaxOutDegree
    requires SeqsOK(seqs, nbJobs * nbMachines)
    modifies simu, simu.nbIncoming0, simu.outgoing
    ensures simu.Valid() && simu.succ == PrecedenceGraph(nbJobs, nbMachines, seqs)
  {
    simu.Reinit();
    ghost var empty := simu.succ;
    assert empty == EmptyGraph(simu.n);
    for i := 0 to nbJobs
      invariant simu.Valid() && EdgesIn(JobPairs(nbMachines, i), simu.n)
      invariant simu.succ == AddAll(empty, JobPairs(nbMachines, i))
    {
      AddJobChain(simu, empty, nbJobs, nbMachines, i);
    }
    ghost var g0 := simu.succ;
    JobPairsFacts(nbMachines, nbJobs);
    forall h | 0 <= h < simu.n
      ensures |g0[h]| <= 1
    {
      AddAllRows(empty, JobPairs(nbMachines, nbJobs), h);
      TargetsAtMostOne(JobPairs(nbMachines, nbJobs), h);
    }
    for j := 0 to |seqs|
      invariant simu.Valid() && EdgesIn(MachinePairs(seqs[..j]), simu.n)
      invariant simu.succ == AddAll(g0, MachinePairs(seqs[..j]))
    {
      AddMachineSequence(simu, g0, seqs, j);
    }
    assert seqs[..|seqs|] == seqs;
  }

  /** Stores the sampled durations of operation `x`, sample by sample. */
  method SetOperationDurations(simu: PrecedenceGraphSimulator, x: int, samples: Grid)
    requires simu.Allocated() && 0 <= x < simu.n && IsGrid(samples, simu.n, simu.m)
    modifies simu.durations
    ensures forall y, c :: 0 <= y < simu.n && 0 <= c < simu.m ==>
              simu.durations[y, c] == if y == x then samples[x][c] else old(simu.durations[y, c])
  {
    for s := 0 to simu.m
      invariant forall y, c :: 0 <= y < simu.n && 0 <= c < simu.m ==>
                  simu.durations[y, c] == if y == x && c < s then samples[x][c] else old(simu.durations[y, c])
    {
      simu.SetDuration(x, s, samples[x][s]);
    }
  }

  /** Stores the sampled durations: `samples[x][s]` is the duration of operation `x` in
      sample `s`, set operation by operation in job order. */
  method SetDurations(simu: PrecedenceGraphSimulator, nbJobs: nat, nbMachines: nat, samples: Grid)
    requires simu.Allocated() && simu.n == nbJobs * nbMachines && IsGrid(samples, simu.n, simu.m)
    modifies simu.durations
    ensures GridOf(simu.durations) == samples
  {
    ghost var k := 0;
    for i := 0 to nbJobs
      invariant k == OpId(nbMachines, i, 0) && k <= simu.n
      invariant forall y, c :: 0 <= y < k && 0 <= c < simu.m ==> simu.durations[y, c] == samples[y][c]
    {
      for j := 0 to nbMachines
        invariant k == OpId(nbMachines, i, j) && k <= simu.n
        invariant forall y, c :: 0 <= y < k && 0 <= c < simu.m ==> simu.durations[y, c] == samples[y][c]
      {
        OpIdBijection(nbJobs, nbMachines, i, j);
        SetOperationDurations(simu, OpId(nbMachines, i, j), samples);
        k := k + 1;
      }
      assert OpId(nbMachines, i, nbMachines) == OpId(nbMachines, i + 1, 0);
    }
    GridEq(GridOf(simu.durations), samples, simu.n, simu.m);
  }

  /** One evaluation of the makespan black box: the simulator is created at the first
      call, the precedence graph of the machine sequences is rebuilt, the sampled durations
      are stored, and the sum of the per-sample makespans is returned. `samples[x][s]` is the
      duration drawn for operation `x` in sample `s`. The ends obey the longest-path
      equations of the graph, and the graph is acyclic exactly when the pass reached every
      operation. */
  method EvaluateMakespan(simu: PrecedenceGraphSimulator?, seqs: seq<seq<int>>, samples: Grid)
    returns (sim: PrecedenceGraphSimulator, total: int)
    requires |seqs| > 0 && SeqsOK(seqs, |seqs[0]| * |seqs|)
    requires IsGrid(samples, |seqs[0]| * |seqs|, NbSamples)
    requires simu != null ==>
      simu.Allocated() && simu.n == |seqs[0]| * |seqs| && simu.m == NbSamples && simu.w == MaxOutDegree
    modifies if simu == null then {} else
      {simu, simu.nbIncoming0, simu.outgoing, simu.durations, simu.makespan, simu.nbIncoming, simu.ends, simu.head}
    ensures simu != null ==> sim == simu
    ensures simu == null ==> fresh(sim)
    ensures sim.Valid() && sim.succ == PrecedenceGraph(|seqs[0]|, |seqs|, seqs)
    ensures GridOf(sim.durations) == samples
    ensures forall x, j :: 0 <= x < sim.n && 0 <= j < sim.m && sim.nbIncoming[x] == 0 ==>
              Equation(sim.succ, samples, GridOf(sim.ends), sim.m, x, j)
    ensures forall j :: 0 <= j < sim.m ==> MakespanOK(GridOf(sim.ends), sim.makespan[..], j)
    ensures Acyclic(sim.succ) <==> forall x :: 0 <= x < sim.n ==> sim.nbIncoming[x] == 0
    ensures total == Sum(sim.makespan[..])
  {
    var nbJobs, nbMachines := |seqs[0]|, |seqs|;
    if simu == null {
      sim := new PrecedenceGraphSimulator(nbJobs * nbMachines, NbSamples, MaxOutDegree);
    } else {
      sim := simu;
    }
    AddJobShopPrecedences(sim, nbJobs, nbMachines, seqs);
    SetDurations(sim, nbJobs, nbMachines, samples);
    sim.Simulate();
    total := sim.MakespanSum();
  }
}
