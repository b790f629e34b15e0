/** `PrecedenceGraphSimulator` of the job-shop example: per-sample durations, end times
    and makespans of a set of operations linked by precedence edges, computed by a
    topological pass with an explicit stack. Each region of the source's single block is
    a separate array here; `JobShopLayout` proves the block offsets. */
module JobShopSimulator {
  import opened SeqMath
  import opened JobShopGraph

  /** The contents of a two-dimensional array, row by row. */
  ghost function GridOf(a: array2<int>): (r: Grid)
    reads a
    ensures IsGrid(r, a.Length0, a.Length1)
    ensures forall i, j :: 0 <= i < a.Length0 && 0 <= j < a.Length1 ==> r[i][j] == a[i, j]
  {
    seq(a.Length0, i requires 0 <= i < a.Length0 reads a =>
      seq(a.Length1, j requires 0 <= j < a.Length1 reads a => a[i, j]))
  }

  lemma GridEq(r: Grid, s: Grid, n: nat, m: nat)
    requires IsGrid(r, n, m) && IsGrid(s, n, m)
    requires forall i, j :: 0 <= i < n && 0 <= j < m ==> r[i][j] == s[i][j]
    ensures r == s
  {
    forall i | 0 <= i < n
      ensures r[i] == s[i]
    {
      assert forall j :: 0 <= j < m ==> r[i][j] == s[i][j];
    }
  }

  class PrecedenceGraphSimulator {
    const n: nat  // number of operations (nodes)
    const m: nat  // number of samples
    const w: nat  // largest out-degree a node may reach
    const durations: array2<int>
    const ends: array2<int>
    const makespan: array<int>
    const nbIncoming: array<int>
    const nbIncoming0: array<int>
    const head: array<int>
    /** Row `i` lists the successors of `i`, then -1 in every remaining slot. */
    const outgoing: array2<int>
    /** The successor rows that `outgoing` encodes. */
    ghost var succ: Graph

    /** The regions have their sizes and do not overlap. */
    ghost predicate Allocated()
    {
      durations.Length0 == n && durations.Length1 == m
      && ends.Length0 == n && ends.Length1 == m
      && outgoing.Length0 == n && outgoing.Length1 == w + 1
      && durations != ends && durations != outgoing && ends != outgoing
      && makespan.Length == m && nbIncoming.Length == n && nbIncoming0.Length == n && head.Length == n
      && makespan != nbIncoming && makespan != nbIncoming0 && makespan != head
      && nbIncoming != nbIncoming0 && nbIncoming != head && nbIncoming0 != head
    }

    /** The successor rows are terminated by -1 and `nbIncoming0` counts the edges into each node. */
    ghost predicate Valid()
      reads this, outgoing, nbIncoming0
    {
      Allocated()
      && |succ| == n && WellFormed(succ)
      && (forall i :: 0 <= i < n ==> |succ[i]| <= w)
      && (forall i, k :: 0 <= i < n && 0 <= k <= w ==>
            outgoing[i, k] == if k < |succ[i]| then succ[i][k] else -1)
      && (forall x :: 0 <= x < n ==> nbIncoming0[x] == InDegree(succ, x))
    }

    constructor (n: nat, m: nat, w: nat)
      ensures this.n == n && this.m == m && this.w == w && Allocated()
      ensures fresh(durations) && fresh(ends) && fresh(makespan) && fresh(nbIncoming)
      ensures fresh(nbIncoming0) && fresh(head) && fresh(outgoing)
    {
      this.n, this.m, this.w := n, m, w;
      durations := new int[n, m];
      ends := new int[n, m];
      makespan := new int[m];
      nbIncoming := new int[n];
      nbIncoming0 := new int[n];
      head := new int[n];
      outgoing := new int[n, w + 1];
    }

    /** Empties the graph: no node has an incoming edge and every row holds only -1. This
        is the corrected fill `JobShopLayout.Reinit` of all `n*(w+1)` successor cells; the
        code's hard-coded `n*3` agrees with it only at `w == 2`
        (`JobShopLayout.ReinitAsWrittenAtWidthTwo`). */
    method Reinit()
      requires Allocated()
      modifies this, nbIncoming0, outgoing
      ensures Valid()
      ensures |succ| == n && forall i :: 0 <= i < n ==> succ[i] == []
    {
      forall x | 0 <= x < n {
        nbIncoming0[x] := 0;
      }
      forall i, k | 0 <= i < n && 0 <= k <= w {
        outgoing[i, k] := -1;
      }
      succ := seq(n, _ => []);
      NoEdges(succ);
    }

    /** Adds the edge `i -> j`: `j` gains one incoming edge and is appended to row `i`,
        whose earlier successors stay in place. */
    method AddPrecedence(i: int, j: int)
      requires Valid() && 0 <= i < n && 0 <= j < n && |succ[i]| < w
      modifies this, nbIncoming0, outgoing
      ensures Valid()
      ensures succ == old(succ)[i := old(succ)[i] + [j]]
      ensures nbIncoming0[j] == old(nbIncoming0[j]) + 1
      ensures forall x :: 0 <= x < n && x != j ==> nbIncoming0[x] == old(nbIncoming0[x])
    {
      nbIncoming0[j] := nbIncoming0[j] + 1;
      var k := 0;
      while 0 <= outgoing[i, k]
        invariant 0 <= k <= |succ[i]|
        decreases |succ[i]| - k
      {
        k := k + 1;
      }
      outgoing[i, k] := j;
      EdgeAdded(succ, i, j);
      succ := succ[i := succ[i] + [j]];
    }

    method SetDuration(i: int, s: int, d: int)
      requires Allocated() && 0 <= i < n && 0 <= s < m
      modifies durations
      ensures forall x, c :: 0 <= x < n && 0 <= c < m ==>
                durations[x, c] == if x == i && c == s then d else old(durations[x, c])
    {
      durations[i, s] := d;
    }

    /** Sets node `i`'s ends to its durations and folds them into the makespans. */
    method StartNode(i: int)
      requires Allocated() && 0 <= i < n
      modifies ends, makespan
      ensures GridOf(ends) == old(GridOf(ends))[i := GridOf(durations)[i]]
      ensures makespan[..] == MaxRow(old(makespan[..]), GridOf(durations)[i])
    {
      for j := 0 to m
        invariant forall x, c :: 0 <= x < n && 0 <= c < m ==>
                    ends[x, c] == if x == i && c < j then durations[i, c] else old(ends[x, c])
        invariant forall c :: 0 <= c < m ==>
                    makespan[c] == if c < j then Max(old(makespan[c]), durations[i, c]) else old(makespan[c])
      {
        ends[i, j] := durations[i, j];
        makespan[j] := Max(makespan[j], ends[i, j]);
      }
      GridEq(GridOf(ends), old(GridOf(ends))[i := GridOf(durations)[i]], n, m);
    }

    /** Relaxes the edge `h -> i` in every sample and folds the new ends of `i` into the
        makespans. */
    method Relax(h: int, i: int)
      requires Allocated() && 0 <= h < n && 0 <= i < n
      modifies ends, makespan
      ensures GridOf(ends) == old(GridOf(ends))[i := RelaxRow(old(GridOf(ends))[h], GridOf(durations)[i], old(GridOf(ends))[i])]
      ensures makespan[..] == MaxRow(old(makespan[..]), RelaxRow(old(GridOf(ends))[h], GridOf(durations)[i], old(GridOf(ends))[i]))
    {
      for j := 0 to m
        invariant forall x, c :: 0 <= x < n && 0 <= c < m ==>
                    ends[x, c] == if x == i && c < j then Max(old(ends[i, c]), old(ends[h, c]) + durations[i, c])
                                  else old(ends[x, c])
        invariant forall c :: 0 <= c < m ==>
                    makespan[c] == if c < j then Max(old(makespan[c]), Max(old(ends[i, c]), old(ends[h, c]) + durations[i, c]))
                                   else old(makespan[c])
      {
        ends[i, j] := Max(ends[i, j], ends[h, j] + durations[i, j]);
        makespan[j] := Max(makespan[j], ends[i, j]);
      }
      GridEq(GridOf(ends), old(GridOf(ends))[i := RelaxRow(old(GridOf(ends))[h], GridOf(durations)[i], old(GridOf(ends))[i])], n, m);
    }

    /** `memset(_ends, 0, ...)`: every end becomes 0. */
    method ZeroEnds()
      requires Allocated()
      modifies ends
      ensures forall x, j :: 0 <= x < n && 0 <= j < m ==> GridOf(ends)[x][j] == 0
    {
      forall x, j | 0 <= x < n && 0 <= j < m {
        ends[x, j] := 0;
      }
    }

    /** The three `memset`/`memcpy` calls that open `simulate`: makespans and ends become
        0 and each node's count its in-degree. */
    method Clear()
      requires Valid()
      modifies makespan, nbIncoming, ends
      ensures InitInv(succ, GridOf(durations), GridOf(ends), makespan[..], nbIncoming[..], {}, 0)
    {
      forall j | 0 <= j < m {
        makespan[j] := 0;
      }
      forall x | 0 <= x < n {
        nbIncoming[x] := nbIncoming0[x];
      }
      assert forall x :: 0 <= x < n ==> nbIncoming[..][x] == InDegree(succ, x);
      ZeroEnds();
      InitStart(succ, GridOf(durations), GridOf(ends), makespan[..], nbIncoming[..]);
    }

    /** One round of the first loop of `simulate`: a node without incoming edges gets
        its durations as ends and is pushed. */
    method Visit(i: int, s0: int, ghost pushed0: set<int>) returns (s: int, ghost pushed: set<int>)
      requires Valid() && 0 <= i < n && 0 <= s0 <= n
      requires InitInv(succ, GridOf(durations), GridOf(ends), makespan[..], nbIncoming[..], pushed0, i)
      requires StackOK(head[..s0], {}, pushed0, -1)
      modifies makespan, ends, head
      ensures 0 <= s <= n && StackOK(head[..s], {}, pushed, -1)
      ensures InitInv(succ, GridOf(durations), GridOf(ends), makespan[..], nbIncoming[..], pushed, i + 1)
    {
      s, pushed := s0, pushed0;
      InitStep(succ, GridOf(durations), GridOf(ends), makespan[..], nbIncoming[..], pushed, i);
      if nbIncoming[i] == 0 {
        StartNode(i);
        SubsetOfRangeCard(pushed, i);
        StackPush(head[..s], {}, pushed, -1, i);
        head[s] := i;
        assert head[..s + 1] == head[..s] + [i];
        s := s + 1;
        pushed := pushed + {i};
      }
    }

    /** The first phase of `simulate`: after `Clear`, pushes every source, whose ends
        become its durations. */
    method PushSources() returns (s: int, ghost pushed: set<int>)
      requires Valid()
      modifies makespan, nbIncoming, ends, head
      ensures 0 <= s <= n && StackOK(head[..s], {}, pushed, -1)
      ensures SimInv(succ, GridOf(durations), GridOf(ends), makespan[..], nbIncoming[..], {}, pushed, -1, 0)
    {
      Clear();
      ghost var d := GridOf(durations);
      s := 0;
      pushed := {};
      for i := 0 to n
        invariant InitInv(succ, d, GridOf(ends), makespan[..], nbIncoming[..], pushed, i)
        invariant 0 <= s <= n && StackOK(head[..s], {}, pushed, -1)
      {
        s, pushed := Visit(i, s, pushed);
      }
      InitDone(succ, d, GridOf(ends), makespan[..], nbIncoming[..], pushed);
    }

    /** The body of the worklist loop for a popped node `h`: relaxes every edge out of
        `h`, decrementing the target's count and pushing it when the count reaches 0. */
    method Expand(h: int, s0: int, ghost done: set<int>, ghost pushed0: set<int>) returns (s: int, ghost pushed: set<int>)
      requires Valid() && 0 <= h < n && 0 <= s0 <= n
      requires SimInv(succ, GridOf(durations), GridOf(ends), makespan[..], nbIncoming[..], done, pushed0, h, 0)
      requires StackOK(head[..s0], done, pushed0, h)
      modifies makespan, nbIncoming, ends, head
      ensures 0 <= s <= n && StackOK(head[..s], done, pushed, h)
      ensures SimInv(succ, GridOf(durations), GridOf(ends), makespan[..], nbIncoming[..], done, pushed, h, |succ[h]|)
    {
      ghost var d := GridOf(durations);
      s, pushed := s0, pushed0;
      var k := 0;
      while 0 <= outgoing[h, k]
        invariant 0 <= k <= |succ[h]|
        invariant 0 <= s <= n
        invariant SimInv(succ, d, GridOf(ends), makespan[..], nbIncoming[..], done, pushed, h, k)
        invariant StackOK(head[..s], done, pushed, h)
        decreases |succ[h]| - k
      {
        var i := outgoing[h, k];
        ghost var e0, ms0, cnt0 := GridOf(ends), makespan[..], nbIncoming[..];
        RelaxStep(succ, d, e0, ms0, cnt0, done, pushed, h, k);
        Relax(h, i);
        nbIncoming[i] := nbIncoming[i] - 1;
        assert nbIncoming[..] == cnt0[i := cnt0[i] - 1];
        if nbIncoming[i] == 0 {
          SubsetOfRangeCard(pushed + {i}, n);
          StackPush(head[..s], done, pushed, h, i);
          head[s] := i;
          assert head[..s + 1] == head[..s] + [i];
          s := s + 1;
          pushed := pushed + {i};
        }
        k := k + 1;
      }
    }

    /** One round of the worklist loop: pops `h`, expands it and finishes it, after
        every node with an edge into `h`. */
    method ProcessNext(s0: int, ghost done: set<int>, ghost pushed0: set<int>, ghost pos: map<int, nat>)
      returns (s: int, h: int, ghost pushed: set<int>)
      requires Valid() && 0 < s0 <= n
      requires SimInv(succ, GridOf(durations), GridOf(ends), makespan[..], nbIncoming[..], done, pushed0, -1, 0)
      requires StackOK(head[..s0], done, pushed0, -1) && OrderOK(succ, done, pos)
      modifies makespan, nbIncoming, ends, head
      ensures 0 <= h < n && h !in done && 0 <= s <= n
      ensures SimInv(succ, GridOf(durations), GridOf(ends), makespan[..], nbIncoming[..], done + {h}, pushed, -1, 0)
      ensures StackOK(head[..s], done + {h}, pushed, -1)
      ensures OrderOK(succ, done + {h}, pos[h := |done|])
    {
      ghost var d := GridOf(durations);
      StackPop(head[..s0], done, pushed0);
      assert head[..s0][..s0 - 1] == head[..s0 - 1];
      h := head[s0 - 1];
      PopStep(succ, d, GridOf(ends), makespan[..], nbIncoming[..], done, pushed0, h);
      OrderStep(succ, done, pos, h);
      s, pushed := Expand(h, s0 - 1, done, pushed0);
      FinishStep(succ, d, GridOf(ends), makespan[..], nbIncoming[..], done, pushed, h);
      StackFinish(head[..s], done, pushed, h);
    }

    /** Computes every node's end in every sample and the makespans. Nodes whose incoming
        count ends at 0 (all of them exactly when the graph is acyclic) satisfy the
        longest-path equations, and each makespan is the largest end in its sample. */
    method Simulate()
      requires Valid()
      modifies makespan, nbIncoming, ends, head
      ensures forall x, j :: 0 <= x < n && 0 <= j < m && nbIncoming[x] == 0 ==>
                Equation(succ, GridOf(durations), GridOf(ends), m, x, j)
      ensures forall j :: 0 <= j < m ==> MakespanOK(GridOf(ends), makespan[..], j)
      ensures Acyclic(succ) <==> forall x :: 0 <= x < n ==> nbIncoming[x] == 0
    {
      var s;
      ghost var pushed;
      s, pushed := PushSources();
      ghost var d := GridOf(durations);
      ghost var done: set<int> := {};
      ghost var pos: map<int, nat> := map[];
      while s > 0
        invariant 0 <= s <= n && |done| <= n
        invariant SimInv(succ, d, GridOf(ends), makespan[..], nbIncoming[..], done, pushed, -1, 0)
        invariant StackOK(head[..s], done, pushed, -1)
        invariant OrderOK(succ, done, pos)
        decreases n - |done|
      {
        var h;
        s, h, pushed := ProcessNext(s, done, pushed, pos);
        pos := pos[h := |done|];
        done := done + {h};
        SubsetOfRangeCard(done, n);
      }
      SubsetSameCard(done, pushed);
      forall x, j | 0 <= x < n && 0 <= j < m && nbIncoming[x] == 0
        ensures Equation(succ, d, GridOf(ends), m, x, j)
      {
        FinishedEquation(succ, d, GridOf(ends), makespan[..], nbIncoming[..], done, x, j);
      }
      if Acyclic(succ) {
        AcyclicAllDone(succ, d, GridOf(ends), makespan[..], nbIncoming[..], done);
      }
      if forall x :: 0 <= x < n ==> nbIncoming[x] == 0 {
        OrderRanks(succ, done, pos);
      }
    }

    /** The integer sum of the makespans, the numerator of `getAverageMakespan`. */
    method MakespanSum() returns (sum: int)
      requires Allocated()
      ensures sum == Sum(makespan[..])
    {
      sum := 0;
      for j := 0 to m
        invariant sum == Sum(makespan[..j])
      {
        assert makespan[..j + 1][..j] == makespan[..j];
        sum := sum + makespan[j];
      }
      assert makespan[..m] == makespan[..];
    }
  }
}
