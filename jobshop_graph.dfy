/** The precedence graph of the job-shop simulator and the longest-path equations its
    topological pass solves, stated on values. The graph is a sequence of successor rows:
    `g[h]` lists, with repetitions, the nodes that may only start once node `h` has ended.
    A `Grid` holds one row of per-sample values per node (durations or end times). */
module JobShopGraph {
  import opened SeqMath

  type Graph = seq<seq<int>>
  type Grid = seq<seq<int>>

  /** Every successor names a node of the graph. */
  predicate WellFormed(g: Graph)
  {
    forall h, k :: 0 <= h < |g| && 0 <= k < |g[h]| ==> 0 <= g[h][k] < |g|
  }

  predicate IsGrid(r: Grid, n: int, m: int)
  {
    |r| == n && forall x :: 0 <= x < |r| ==> |r[x]| == m
  }

  /** Number of edges into `x` from the nodes below `u` that are not in `done`. */
  function PendingUpTo(g: Graph, done: set<int>, x: int, u: nat): nat
    requires u <= |g|
  {
    if u == 0 then 0
    else PendingUpTo(g, done, x, u - 1) + (if u - 1 in done then 0 else Count(g[u - 1], x))
  }

  /** Number of edges into `x` whose source has not been processed yet. */
  function Pending(g: Graph, done: set<int>, x: int): nat
  {
    PendingUpTo(g, done, x, |g|)
  }

  /** Number of edges into `x`: what `addPrecedence` accumulates in `_nbIncoming0`. */
  function InDegree(g: Graph, x: int): nat
  {
    Pending(g, {}, x)
  }

  /** Edge `k` of row `h` has been relaxed: its source is finished, or it is an edge of
      the node `cur` being expanded that the scan has already passed. */
  predicate Processed(done: set<int>, cur: int, kc: int, h: int, k: int)
  {
    h in done || (h == cur && k < kc)
  }

  /** The end of node `x` in sample `j` is `max(0, E[h][j] + D[x][j])` over the relaxed
      edges `h -> x`: never negative, at least every relaxed bound, and either 0 or equal
      to one of them. */
  predicate Relaxed(g: Graph, d: Grid, e: Grid, m: nat, done: set<int>, cur: int, kc: int, x: int, j: int)
    requires WellFormed(g) && IsGrid(d, |g|, m) && IsGrid(e, |g|, m)
    requires 0 <= x < |g| && 0 <= j < m
  {
    e[x][j] >= 0
    && (forall h, k :: 0 <= h < |g| && 0 <= k < |g[h]| && g[h][k] == x && Processed(done, cur, kc, h, k)
          ==> e[x][j] >= e[h][j] + d[x][j])
    && (e[x][j] == 0
        || exists h, k :: 0 <= h < |g| && 0 <= k < |g[h]| && g[h][k] == x && Processed(done, cur, kc, h, k)
             && e[x][j] == e[h][j] + d[x][j])
  }

  /** The progress invariant for one node and sample: a source ends at its duration, any
      other node is relaxed over the edges processed so far. */
  predicate NodeOK(g: Graph, d: Grid, e: Grid, m: nat, done: set<int>, cur: int, kc: int, x: int, j: int)
    requires WellFormed(g) && IsGrid(d, |g|, m) && IsGrid(e, |g|, m)
    requires 0 <= x < |g| && 0 <= j < m
  {
    if InDegree(g, x) == 0 then e[x][j] == d[x][j] else Relaxed(g, d, e, m, done, cur, kc, x, j)
  }

  /** The longest-path equation of node `x` in sample `j`: a source ends at its duration,
      any other node at `max(0, max over edges h -> x of E[h][j] + D[x][j])`. */
  predicate Equation(g: Graph, d: Grid, e: Grid, m: nat, x: int, j: int)
    requires WellFormed(g) && IsGrid(d, |g|, m) && IsGrid(e, |g|, m)
    requires 0 <= x < |g| && 0 <= j < m
  {
    if InDegree(g, x) == 0 then e[x][j] == d[x][j]
    else
      e[x][j] >= 0
      && (forall h, k :: 0 <= h < |g| && 0 <= k < |g[h]| && g[h][k] == x ==> e[x][j] >= e[h][j] + d[x][j])
      && (e[x][j] == 0
          || exists h, k :: 0 <= h < |g| && 0 <= k < |g[h]| && g[h][k] == x && e[x][j] == e[h][j] + d[x][j])
  }

  /** `ms[j]` is the largest end in sample `j`, and at least 0. */
  predicate MakespanOK(e: Grid, ms: seq<int>, j: int)
    requires IsGrid(e, |e|, |ms|) && 0 <= j < |ms|
  {
    ms[j] >= 0
    && (forall x :: 0 <= x < |e| ==> ms[j] >= e[x][j])
    && (ms[j] == 0 || exists x :: 0 <= x < |e| && ms[j] == e[x][j])
  }

  /** A rank that grows along every edge: a witness that the graph has no cycle. */
  predicate Ranked(g: Graph, rank: seq<nat>)
  {
    |rank| == |g|
    && forall h, k :: 0 <= h < |g| && 0 <= k < |g[h]| && 0 <= g[h][k] < |g| ==> rank[h] < rank[g[h][k]]
  }

  ghost predicate Acyclic(g: Graph)
  {
    exists rank :: Ranked(g, rank)
  }

  // ---------------------------------------------------------------------------------
  // Edge counting

  lemma {:induction false} PendingUpToAdd(g: Graph, done: set<int>, h: int, x: int, u: nat)
    requires u <= |g| && h !in done
    ensures PendingUpTo(g, done + {h}, x, u)
            == PendingUpTo(g, done, x, u) - (if 0 <= h < u then Count(g[h], x) else 0)
  {
    if u > 0 {
      PendingUpToAdd(g, done, h, x, u - 1);
    }
  }

  /** Finishing node `h` removes exactly its edges from the pending counts. */
  lemma PendingAdd(g: Graph, done: set<int>, h: int, x: int)
    requires 0 <= h < |g| && h !in done
    ensures Pending(g, done + {h}, x) == Pending(g, done, x) - Count(g[h], x)
  {
    PendingUpToAdd(g, done, h, x, |g|);
  }

  lemma {:induction false} PendingUpToGe(g: Graph, done: set<int>, h: int, x: int, u: nat)
    requires 0 <= h < u <= |g| && h !in done
    ensures PendingUpTo(g, done, x, u) >= Count(g[h], x)
  {
    if h < u - 1 {
      PendingUpToGe(g, done, h, x, u - 1);
    }
  }

  lemma {:induction false} PendingUpToLe(g: Graph, done: set<int>, x: int, u: nat)
    requires u <= |g|
    ensures PendingUpTo(g, done, x, u) <= PendingUpTo(g, {}, x, u)
  {
    if u > 0 {
      PendingUpToLe(g, done, x, u - 1);
    }
  }

  /** An edge `h -> g[h][k]` from an unfinished node is still pending, and it comes after
      the earlier edges of the same row into the same node. */
  lemma EdgePending(g: Graph, done: set<int>, h: int, k: int)
    requires 0 <= h < |g| && 0 <= k < |g[h]| && h !in done
    ensures Pending(g, done, g[h][k]) >= Count(g[h][..k], g[h][k]) + 1
    ensures InDegree(g, g[h][k]) >= Pending(g, done, g[h][k])
  {
    var x := g[h][k];
    PendingUpToGe(g, done, h, x, |g|);
    CountStep(g[h], k, x);
    CountPrefix(g[h], k + 1, x);
    PendingUpToLe(g, done, x, |g|);
  }

  lemma {:induction false} PendingUpToWitness(g: Graph, done: set<int>, x: int, u: nat) returns (h: int, k: int)
    requires u <= |g| && PendingUpTo(g, done, x, u) > 0
    ensures 0 <= h < u && h !in done && 0 <= k < |g[h]| && g[h][k] == x
  {
    if PendingUpTo(g, done, x, u - 1) > 0 {
      h, k := PendingUpToWitness(g, done, x, u - 1);
    } else {
      h := u - 1;
      CountZero(g[h], x);
      k :| 0 <= k < |g[h]| && g[h][k] == x;
    }
  }

  /** With nothing pending into `x`, every edge into `x` comes from a finished node. */
  lemma NoPendingEdges(g: Graph, done: set<int>, x: int)
    requires Pending(g, done, x) == 0
    ensures forall h, k :: 0 <= h < |g| && 0 <= k < |g[h]| && g[h][k] == x ==> h in done
  {
    forall h, k | 0 <= h < |g| && 0 <= k < |g[h]| && g[h][k] == x
      ensures h in done
    {
      if h !in done {
        EdgePending(g, done, h, k);
      }
    }
  }

  // ---------------------------------------------------------------------------------
  // The state of the topological pass

  /** What `simulate` has left in `_nbIncoming[x]` after finishing the nodes of `done`
      and the first `kc` edges of node `cur`. */
  function Remaining(g: Graph, done: set<int>, cur: int, kc: int, x: int): int
  {
    Pending(g, done, x) - (if 0 <= cur < |g| && 0 <= kc <= |g[cur]| then Count(g[cur][..kc], x) else 0)
  }

  predicate Dims(g: Graph, d: Grid, e: Grid, ms: seq<int>, cnt: seq<int>)
  {
    WellFormed(g) && IsGrid(d, |g|, |ms|) && IsGrid(e, |g|, |ms|) && |cnt| == |g|
  }

  /** Finished nodes have been pushed; the node being expanded has been pushed and not
      finished; `cur == -1` between expansions. */
  predicate Progress(g: Graph, done: set<int>, pushed: set<int>, cur: int, kc: int)
  {
    done <= pushed
    && (forall x :: x in pushed ==> 0 <= x < |g|)
    && ((cur == -1 && kc == 0) || (0 <= cur < |g| && cur in pushed && cur !in done && 0 <= kc <= |g[cur]|))
  }

  predicate CountsOK(g: Graph, cnt: seq<int>, done: set<int>, pushed: set<int>, cur: int, kc: int)
    requires |cnt| == |g|
  {
    (forall x :: 0 <= x < |g| ==> cnt[x] == Remaining(g, done, cur, kc, x))
    && (forall x :: 0 <= x < |g| ==> (cnt[x] == 0 <==> x in pushed))
  }

  predicate EndsOK(g: Graph, d: Grid, e: Grid, m: nat, done: set<int>, cur: int, kc: int)
    requires WellFormed(g) && IsGrid(d, |g|, m) && IsGrid(e, |g|, m)
  {
    forall x, j :: 0 <= x < |g| && 0 <= j < m ==> NodeOK(g, d, e, m, done, cur, kc, x, j)
  }

  predicate SpanOK(e: Grid, ms: seq<int>)
    requires IsGrid(e, |e|, |ms|)
  {
    forall j :: 0 <= j < |ms| ==> MakespanOK(e, ms, j)
  }

  /** The invariant of the worklist loop of `simulate`. */
  predicate SimInv(g: Graph, d: Grid, e: Grid, ms: seq<int>, cnt: seq<int>,
                   done: set<int>, pushed: set<int>, cur: int, kc: int)
  {
    Dims(g, d, e, ms, cnt)
    && Progress(g, done, pushed, cur, kc)
    && CountsOK(g, cnt, done, pushed, cur, kc)
    && EndsOK(g, d, e, |ms|, done, cur, kc)
    && SpanOK(e, ms)
  }

  /** Row `i` after relaxing the edge from a node whose ends are `eh`. */
  function RelaxRow(eh: seq<int>, di: seq<int>, ei: seq<int>): (r: seq<int>)
    requires |eh| == |di| == |ei|
    ensures |r| == |ei|
    ensures forall c :: 0 <= c < |r| ==> r[c] >= ei[c] && r[c] >= eh[c] + di[c]
    ensures forall c :: 0 <= c < |r| ==> r[c] == ei[c] || r[c] == eh[c] + di[c]
  {
    seq(|ei|, c requires 0 <= c < |ei| => Max(ei[c], eh[c] + di[c]))
  }

  /** The makespans after taking the maximum with one node's new ends. */
  function MaxRow(ms: seq<int>, r: seq<int>): (res: seq<int>)
    requires |ms| == |r|
    ensures |res| == |ms|
    ensures forall c :: 0 <= c < |res| ==> res[c] >= ms[c] && res[c] >= r[c]
    ensures forall c :: 0 <= c < |res| ==> res[c] == ms[c] || res[c] == r[c]
  {
    seq(|ms|, c requires 0 <= c < |ms| => Max(ms[c], r[c]))
  }

  /** Taking the maximum with a row that only grew (or replaced a zero) keeps every
      makespan the largest end. */
  lemma SpanStep(e: Grid, ms: seq<int>, i: int, r: seq<int>)
    requires IsGrid(e, |e|, |ms|) && SpanOK(e, ms) && 0 <= i < |e| && |r| == |ms|
    requires forall c :: 0 <= c < |r| ==> r[c] >= e[i][c] || e[i][c] == 0
    ensures IsGrid(e[i := r], |e|, |ms|) && SpanOK(e[i := r], MaxRow(ms, r))
  {
    var e', ms' := e[i := r], MaxRow(ms, r);
    forall j | 0 <= j < |ms|
      ensures MakespanOK(e', ms', j)
    {
      assert MakespanOK(e, ms, j);
      if ms'[j] != 0 && ms'[j] != r[j] {
        assert ms'[j] == ms[j];
        var x :| 0 <= x < |e| && ms[j] == e[x][j];
        if x == i {
          assert false;
        } else {
          assert ms'[j] == e'[x][j];
        }
      } else if ms'[j] == r[j] {
        assert ms'[j] == e'[i][j];
      }
    }
  }

  // ---------------------------------------------------------------------------------
  // Steps of the pass

  /** Relaxing edge `k` of the node being expanded: the target has a positive count and
      has not been pushed; after its ends are relaxed, its count decremented and, at 0,
      pushed, the invariant holds with the edge counted as processed. */
  lemma RelaxStep(g: Graph, d: Grid, e: Grid, ms: seq<int>, cnt: seq<int>,
                  done: set<int>, pushed: set<int>, h: int, k: int)
    requires SimInv(g, d, e, ms, cnt, done, pushed, h, k)
    requires 0 <= h < |g| && k < |g[h]|
    ensures var i := g[h][k];
      0 <= i < |g| && cnt[i] > 0 && i !in pushed
      && SimInv(g, d, e[i := RelaxRow(e[h], d[i], e[i])], MaxRow(ms, RelaxRow(e[h], d[i], e[i])),
                cnt[i := cnt[i] - 1], done, if cnt[i] == 1 then pushed + {i} else pushed, h, k + 1)
  {
    var i := g[h][k];
    var m := |ms|;
    EdgePending(g, done, h, k);
    CountStep(g[h], k, i);
    assert cnt[i] == Remaining(g, done, h, k, i);
    var r := RelaxRow(e[h], d[i], e[i]);
    var e' := e[i := r];
    var cnt' := cnt[i := cnt[i] - 1];
    var pushed' := if cnt[i] == 1 then pushed + {i} else pushed;
    assert i !in pushed && h != i;
    forall x | 0 <= x < |g|
      ensures cnt'[x] == Remaining(g, done, h, k + 1, x)
    {
      CountStep(g[h], k, x);
    }
    EndsRelax(g, d, e, m, done, pushed, h, k);
    SpanStep(e, ms, i, r);
  }

  lemma EndsRelax(g: Graph, d: Grid, e: Grid, m: nat, done: set<int>, pushed: set<int>, h: int, k: int)
    requires WellFormed(g) && IsGrid(d, |g|, m) && IsGrid(e, |g|, m)
    requires Progress(g, done, pushed, h, k) && EndsOK(g, d, e, m, done, h, k)
    requires 0 <= h < |g| && k < |g[h]|
    requires g[h][k] !in pushed && InDegree(g, g[h][k]) > 0
    ensures IsGrid(e[g[h][k] := RelaxRow(e[h], d[g[h][k]], e[g[h][k]])], |g|, m)
    ensures EndsOK(g, d, e[g[h][k] := RelaxRow(e[h], d[g[h][k]], e[g[h][k]])], m, done, h, k + 1)
  {
    var i := g[h][k];
    var r := RelaxRow(e[h], d[i], e[i]);
    var e' := e[i := r];
    var kc := k + 1;
    forall x, j | 0 <= x < |g| && 0 <= j < m
      ensures NodeOK(g, d, e', m, done, h, kc, x, j)
    {
      assert NodeOK(g, d, e, m, done, h, k, x, j);
      if x == i {
        RelaxTarget(g, d, e, m, done, pushed, h, k, j);
      } else if InDegree(g, x) != 0 {
        RelaxOther(g, d, e, m, done, pushed, h, k, x, j);
      }
    }
  }

  lemma RelaxTarget(g: Graph, d: Grid, e: Grid, m: nat, done: set<int>, pushed: set<int>, h: int, k: int, j: int)
    requires WellFormed(g) && IsGrid(d, |g|, m) && IsGrid(e, |g|, m)
    requires Progress(g, done, pushed, h, k) && 0 <= h < |g| && k < |g[h]| && 0 <= j < m
    requires g[h][k] !in pushed
    requires Relaxed(g, d, e, m, done, h, k, g[h][k], j)
    ensures IsGrid(e[g[h][k] := RelaxRow(e[h], d[g[h][k]], e[g[h][k]])], |g|, m)
    ensures Relaxed(g, d, e[g[h][k] := RelaxRow(e[h], d[g[h][k]], e[g[h][k]])], m, done, h, k + 1, g[h][k], j)
  {
    var i := g[h][k];
    var r := RelaxRow(e[h], d[i], e[i]);
    var e' := e[i := r];
    forall h', k' | 0 <= h' < |g| && 0 <= k' < |g[h']| && g[h'][k'] == i && Processed(done, h, k + 1, h', k')
      ensures e'[i][j] >= e'[h'][j] + d[i][j]
    {
      assert h' != i;
      if h' == h && k' == k {
      } else {
        assert Processed(done, h, k, h', k');
      }
    }
    if e'[i][j] != 0 {
      if e'[i][j] == e[i][j] {
        var h', k' :| 0 <= h' < |g| && 0 <= k' < |g[h']| && g[h'][k'] == i && Processed(done, h, k, h', k')
                      && e[i][j] == e[h'][j] + d[i][j];
        assert h' != i;
        assert Processed(done, h, k + 1, h', k') && e'[i][j] == e'[h'][j] + d[i][j];
      } else {
        assert Processed(done, h, k + 1, h, k) && e'[i][j] == e'[h][j] + d[i][j];
      }
    }
  }

  lemma RelaxOther(g: Graph, d: Grid, e: Grid, m: nat, done: set<int>, pushed: set<int>, h: int, k: int, x: int, j: int)
    requires WellFormed(g) && IsGrid(d, |g|, m) && IsGrid(e, |g|, m)
    requires Progress(g, done, pushed, h, k) && 0 <= h < |g| && k < |g[h]| && 0 <= j < m
    requires g[h][k] !in pushed && 0 <= x < |g| && x != g[h][k]
    requires Relaxed(g, d, e, m, done, h, k, x, j)
    ensures IsGrid(e[g[h][k] := RelaxRow(e[h], d[g[h][k]], e[g[h][k]])], |g|, m)
    ensures Relaxed(g, d, e[g[h][k] := RelaxRow(e[h], d[g[h][k]], e[g[h][k]])], m, done, h, k + 1, x, j)
  {
    var i := g[h][k];
    var r := RelaxRow(e[h], d[i], e[i]);
    var e' := e[i := r];
    forall h', k' | 0 <= h' < |g| && 0 <= k' < |g[h']| && g[h'][k'] == x && Processed(done, h, k + 1, h', k')
      ensures Processed(done, h, k, h', k') && e'[h'][j] == e[h'][j]
    {
      assert h' != i;
    }
    if e'[x][j] != 0 {
      var h', k' :| 0 <= h' < |g| && 0 <= k' < |g[h']| && g[h'][k'] == x && Processed(done, h, k, h', k')
                    && e[x][j] == e[h'][j] + d[x][j];
      assert h' != i;
      assert Processed(done, h, k + 1, h', k') && e'[x][j] == e'[h'][j] + d[x][j];
    }
  }

  /** Popping node `h` off the stack starts its expansion with no edge processed. */
  lemma PopStep(g: Graph, d: Grid, e: Grid, ms: seq<int>, cnt: seq<int>,
                done: set<int>, pushed: set<int>, h: int)
    requires SimInv(g, d, e, ms, cnt, done, pushed, -1, 0)
    requires h in pushed && h !in done
    ensures SimInv(g, d, e, ms, cnt, done, pushed, h, 0)
    ensures forall h', k' :: 0 <= h' < |g| && 0 <= k' < |g[h']| && g[h'][k'] == h ==> h' in done
  {
    assert 0 <= h < |g|;
    forall x | 0 <= x < |g|
      ensures Remaining(g, done, h, 0, x) == Remaining(g, done, -1, 0, x)
    {
      assert g[h][..0] == [];
    }
    assert EndsOK(g, d, e, |ms|, done, h, 0) by {
      forall x, j | 0 <= x < |g| && 0 <= j < |ms|
        ensures NodeOK(g, d, e, |ms|, done, h, 0, x, j)
      {
        assert NodeOK(g, d, e, |ms|, done, -1, 0, x, j);
      }
    }
    NoPendingEdges(g, done, h);
  }

  /** Once every edge of `h` is relaxed, `h` is finished. */
  lemma FinishStep(g: Graph, d: Grid, e: Grid, ms: seq<int>, cnt: seq<int>,
                   done: set<int>, pushed: set<int>, h: int)
    requires 0 <= h < |g| && SimInv(g, d, e, ms, cnt, done, pushed, h, |g[h]|)
    ensures SimInv(g, d, e, ms, cnt, done + {h}, pushed, -1, 0)
  {
    assert g[h][..|g[h]|] == g[h];
    forall x | 0 <= x < |g|
      ensures cnt[x] == Remaining(g, done + {h}, -1, 0, x)
    {
      PendingAdd(g, done, h, x);
    }
    assert EndsOK(g, d, e, |ms|, done + {h}, -1, 0) by {
      forall x, j | 0 <= x < |g| && 0 <= j < |ms|
        ensures NodeOK(g, d, e, |ms|, done + {h}, -1, 0, x, j)
      {
        assert NodeOK(g, d, e, |ms|, done, h, |g[h]|, x, j);
      }
    }
  }

  // ---------------------------------------------------------------------------------
  // What the pass establishes

  /** A finished node whose edges all come from finished nodes satisfies its equation. */
  lemma FinishedEquation(g: Graph, d: Grid, e: Grid, ms: seq<int>, cnt: seq<int>, done: set<int>, x: int, j: int)
    requires SimInv(g, d, e, ms, cnt, done, done, -1, 0)
    requires x in done && 0 <= j < |ms|
    ensures 0 <= x < |g| && Equation(g, d, e, |ms|, x, j)
  {
    var m := |ms|;
    assert NodeOK(g, d, e, m, done, -1, 0, x, j);
    assert cnt[x] == 0;
    NoPendingEdges(g, done, x);
  }

  /** Kahn's argument: when the worklist runs dry on an acyclic graph, every node is
      finished, since an unfinished node always has an unfinished predecessor of smaller
      rank. */
  lemma AcyclicAllDone(g: Graph, d: Grid, e: Grid, ms: seq<int>, cnt: seq<int>, done: set<int>)
    requires SimInv(g, d, e, ms, cnt, done, done, -1, 0) && Acyclic(g)
    ensures forall x :: 0 <= x < |g| ==> x in done
  {
    var rank :| Ranked(g, rank);
    forall x | 0 <= x < |g|
      ensures x in done
    {
      if x !in done {
        Descend(g, done, rank, x);
      }
    }
  }

  lemma {:induction false} Descend(g: Graph, done: set<int>, rank: seq<nat>, x: int)
    requires WellFormed(g) && Ranked(g, rank)
    requires forall y :: 0 <= y < |g| && y !in done ==> Pending(g, done, y) > 0
    requires 0 <= x < |g| && x !in done
    ensures false
    decreases rank[x]
  {
    var h, k := PendingUpToWitness(g, done, x, |g|);
    Descend(g, done, rank, h);
  }

  /** The order in which nodes are finished: every edge into a finished node comes from a
      node finished earlier. */
  predicate OrderOK(g: Graph, done: set<int>, pos: map<int, nat>)
  {
    pos.Keys == done
    && (forall x :: x in pos ==> pos[x] < |done|)
    && (forall h, k :: 0 <= h < |g| && 0 <= k < |g[h]| && g[h][k] in done
          ==> h in done && pos[h] < pos[g[h][k]])
  }

  /** Finishing a node all of whose predecessors are finished extends the order. */
  lemma OrderStep(g: Graph, done: set<int>, pos: map<int, nat>, h: int)
    requires OrderOK(g, done, pos) && h !in done
    requires forall h', k' :: 0 <= h' < |g| && 0 <= k' < |g[h']| && g[h'][k'] == h ==> h' in done
    ensures OrderOK(g, done + {h}, pos[h := |done|])
  {
    var done', pos' := done + {h}, pos[h := |done|];
    forall h', k' | 0 <= h' < |g| && 0 <= k' < |g[h']| && g[h'][k'] in done'
      ensures h' in done' && pos'[h'] < pos'[g[h'][k']]
    {
      if g[h'][k'] != h {
        assert h' in done;
        assert h' != h;
      }
    }
  }

  /** If every node is finished, the finishing order ranks the graph: it is acyclic. */
  lemma OrderRanks(g: Graph, done: set<int>, pos: map<int, nat>)
    requires WellFormed(g) && OrderOK(g, done, pos)
    requires forall x :: 0 <= x < |g| ==> x in done
    ensures Acyclic(g)
  {
    var rank := seq(|g|, x requires 0 <= x < |g| => pos[x]);
    assert Ranked(g, rank);
  }

  /** On an acyclic graph the equations have one solution per duration table: the ends
      `simulate` computes are the longest-path ends, whatever the state before. */
  lemma EquationsUnique(g: Graph, d: Grid, e1: Grid, e2: Grid, m: nat)
    requires WellFormed(g) && IsGrid(d, |g|, m) && IsGrid(e1, |g|, m) && IsGrid(e2, |g|, m)
    requires Acyclic(g)
    requires forall x, j :: 0 <= x < |g| && 0 <= j < m ==> Equation(g, d, e1, m, x, j)
    requires forall x, j :: 0 <= x < |g| && 0 <= j < m ==> Equation(g, d, e2, m, x, j)
    ensures e1 == e2
  {
    var rank :| Ranked(g, rank);
    forall x | 0 <= x < |g|
      ensures e1[x] == e2[x]
    {
      forall j | 0 <= j < m
        ensures e1[x][j] == e2[x][j]
      {
        UniqueAt(g, d, e1, e2, m, rank, x, j);
      }
    }
  }

  lemma {:induction false} UniqueAt(g: Graph, d: Grid, e1: Grid, e2: Grid, m: nat, rank: seq<nat>, x: int, j: int)
    requires WellFormed(g) && IsGrid(d, |g|, m) && IsGrid(e1, |g|, m) && IsGrid(e2, |g|, m)
    requires Ranked(g, rank)
    requires forall x, j :: 0 <= x < |g| && 0 <= j < m ==> Equation(g, d, e1, m, x, j)
    requires forall x, j :: 0 <= x < |g| && 0 <= j < m ==> Equation(g, d, e2, m, x, j)
    requires 0 <= x < |g| && 0 <= j < m
    ensures e1[x][j] == e2[x][j]
    decreases rank[x]
  {
    forall h, k | 0 <= h < |g| && 0 <= k < |g[h]| && g[h][k] == x
      ensures e1[h][j] == e2[h][j]
    {
      UniqueAt(g, d, e1, e2, m, rank, h, j);
    }
    assert Equation(g, d, e1, m, x, j) && Equation(g, d, e2, m, x, j);
    if InDegree(g, x) != 0 {
      UpperBound(g, d, e1, e2, m, x, j);
      UpperBound(g, d, e2, e1, m, x, j);
    }
  }

  lemma UpperBound(g: Graph, d: Grid, e1: Grid, e2: Grid, m: nat, x: int, j: int)
    requires WellFormed(g) && IsGrid(d, |g|, m) && IsGrid(e1, |g|, m) && IsGrid(e2, |g|, m)
    requires 0 <= x < |g| && 0 <= j < m && InDegree(g, x) != 0
    requires Equation(g, d, e1, m, x, j) && Equation(g, d, e2, m, x, j)
    requires forall h, k :: 0 <= h < |g| && 0 <= k < |g[h]| && g[h][k] == x ==> e1[h][j] == e2[h][j]
    ensures e2[x][j] <= e1[x][j]
  {
    if e2[x][j] != 0 {
      var h, k :| 0 <= h < |g| && 0 <= k < |g[h]| && g[h][k] == x && e2[x][j] == e2[h][j] + d[x][j];
      assert e1[x][j] >= e1[h][j] + d[x][j];
    }
  }

  /** With non-negative durations the lower bound 0 is never the binding one: a node with
      predecessors ends exactly at the latest predecessor end plus its own duration. */
  lemma EquationNonNegative(g: Graph, d: Grid, e: Grid, m: nat, x: int, j: int)
    requires WellFormed(g) && IsGrid(d, |g|, m) && IsGrid(e, |g|, m)
    requires forall y :: 0 <= y < |g| ==> forall c :: 0 <= c < m ==> d[y][c] >= 0
    requires 0 <= x < |g| && 0 <= j < m
    requires forall y :: 0 <= y < |g| ==> e[y][j] >= 0
    requires InDegree(g, x) != 0 && Equation(g, d, e, m, x, j)
    ensures exists h, k :: 0 <= h < |g| && 0 <= k < |g[h]| && g[h][k] == x && e[x][j] == e[h][j] + d[x][j]
  {
    var h, k := PendingUpToWitness(g, {}, x, |g|);
    assert e[x][j] >= e[h][j] + d[x][j] >= 0;
  }

  // ---------------------------------------------------------------------------------
  // Building the graph

  lemma {:induction false} NoEdgesUpTo(g: Graph, x: int, u: nat)
    requires u <= |g| && forall h :: 0 <= h < |g| ==> g[h] == []
    ensures PendingUpTo(g, {}, x, u) == 0
  {
    if u > 0 {
      NoEdgesUpTo(g, x, u - 1);
    }
  }

  /** A graph of empty rows has no edge into any node. */
  lemma NoEdges(g: Graph)
    requires forall h :: 0 <= h < |g| ==> g[h] == []
    ensures forall x :: InDegree(g, x) == 0
  {
    forall x {
      NoEdgesUpTo(g, x, |g|);
    }
  }

  lemma {:induction false} EdgeAddedUpTo(g: Graph, i: int, j: int, x: int, u: nat)
    requires 0 <= i < |g| && u <= |g|
    ensures PendingUpTo(g[i := g[i] + [j]], {}, x, u)
            == PendingUpTo(g, {}, x, u) + (if i < u && x == j then 1 else 0)
  {
    if u > 0 {
      EdgeAddedUpTo(g, i, j, x, u - 1);
      if u - 1 == i {
        CountAppend(g[i], j, x);
      }
    }
  }

  /** Appending `j` to row `i` adds one edge into `j` and none into any other node. */
  lemma EdgeAdded(g: Graph, i: int, j: int)
    requires 0 <= i < |g|
    ensures forall x :: InDegree(g[i := g[i] + [j]], x) == InDegree(g, x) + (if x == j then 1 else 0)
  {
    forall x {
      EdgeAddedUpTo(g, i, j, x, |g|);
    }
  }

  // ---------------------------------------------------------------------------------
  // The first loop of the pass: pushing the sources

  /** After visiting the nodes below `i`: counts are the in-degrees, the pushed nodes are
      the visited sources, visited sources end at their duration and all other ends are 0. */
  ghost predicate InitInv(g: Graph, d: Grid, e: Grid, ms: seq<int>, cnt: seq<int>, pushed: set<int>, i: int)
  {
    Dims(g, d, e, ms, cnt) && 0 <= i <= |g|
    && (forall x :: 0 <= x < |g| ==> cnt[x] == InDegree(g, x))
    && (forall x :: x in pushed <==> 0 <= x < i && cnt[x] == 0)
    && (forall x, j :: 0 <= x < |g| && 0 <= j < |ms| ==>
          e[x][j] == if x < i && InDegree(g, x) == 0 then d[x][j] else 0)
    && SpanOK(e, ms)
  }

  /** Before the first node is visited: every end and makespan is 0 and every count is
      the node's in-degree. */
  lemma InitStart(g: Graph, d: Grid, e: Grid, ms: seq<int>, cnt: seq<int>)
    requires Dims(g, d, e, ms, cnt)
    requires forall x :: 0 <= x < |g| ==> cnt[x] == InDegree(g, x)
    requires forall x, j :: 0 <= x < |g| && 0 <= j < |ms| ==> e[x][j] == 0
    requires forall j :: 0 <= j < |ms| ==> ms[j] == 0
    ensures InitInv(g, d, e, ms, cnt, {}, 0)
  {
    forall j | 0 <= j < |ms|
      ensures MakespanOK(e, ms, j)
    {
    }
  }

  /** Visiting node `i`: a source gets its durations as ends and is pushed. */
  lemma InitStep(g: Graph, d: Grid, e: Grid, ms: seq<int>, cnt: seq<int>, pushed: set<int>, i: int)
    requires InitInv(g, d, e, ms, cnt, pushed, i) && i < |g|
    ensures cnt[i] == 0 ==> InitInv(g, d, e[i := d[i]], MaxRow(ms, d[i]), cnt, pushed + {i}, i + 1)
    ensures cnt[i] != 0 ==> InitInv(g, d, e, ms, cnt, pushed, i + 1)
  {
    if cnt[i] == 0 {
      SpanStep(e, ms, i, d[i]);
    }
  }

  /** When every node has been visited, the worklist invariant holds with nothing finished. */
  lemma InitDone(g: Graph, d: Grid, e: Grid, ms: seq<int>, cnt: seq<int>, pushed: set<int>)
    requires InitInv(g, d, e, ms, cnt, pushed, |g|)
    ensures SimInv(g, d, e, ms, cnt, {}, pushed, -1, 0)
  {
    assert EndsOK(g, d, e, |ms|, {}, -1, 0) by {
      forall x, j | 0 <= x < |g| && 0 <= j < |ms|
        ensures NodeOK(g, d, e, |ms|, {}, -1, 0, x, j)
      {
      }
    }
  }

  // ---------------------------------------------------------------------------------
  // The explicit stack `_head[0..s)`

  /** The stack holds distinct pushed, unfinished nodes other than the one being expanded;
      every pushed node is finished, on the stack or being expanded. */
  predicate StackOK(stk: seq<int>, done: set<int>, pushed: set<int>, cur: int)
  {
    (forall t :: 0 <= t < |stk| ==> 0 <= stk[t] && stk[t] in pushed && stk[t] !in done && stk[t] != cur)
    && Distinct(stk)
    && |pushed| == |done| + |stk| + (if cur == -1 then 0 else 1)
  }

  lemma StackPop(stk: seq<int>, done: set<int>, pushed: set<int>)
    requires StackOK(stk, done, pushed, -1) && |stk| > 0
    ensures var h := stk[|stk| - 1];
      h in pushed && h !in done && h != -1 && StackOK(stk[..|stk| - 1], done, pushed, h)
  {
  }

  lemma StackPush(stk: seq<int>, done: set<int>, pushed: set<int>, cur: int, i: int)
    requires StackOK(stk, done, pushed, cur) && done <= pushed && (cur == -1 || cur in pushed) && 0 <= i && i !in pushed
    ensures StackOK(stk + [i], done, pushed + {i}, cur)
  {
    var stk' := stk + [i];
    assert i !in done && i != cur;
    assert forall t :: 0 <= t < |stk| ==> stk'[t] == stk[t];
    assert |pushed + {i}| == |pushed| + 1;
  }

  lemma StackFinish(stk: seq<int>, done: set<int>, pushed: set<int>, h: int)
    requires StackOK(stk, done, pushed, h) && h != -1 && h !in done
    ensures StackOK(stk, done + {h}, pushed, -1)
  {
    assert |done + {h}| == |done| + 1;
    assert forall t :: 0 <= t < |stk| ==> 0 <= stk[t] && stk[t] in pushed && stk[t] !in done + {h} && stk[t] != -1;
  }
}
