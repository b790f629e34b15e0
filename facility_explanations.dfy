/** The facility-location model of `FacilityExplanations`: its data file layout, the
    constraints and objective it posts over `supplier` and `open`, and the report it prints
    for the final solution. The solver's search and explanations are not modelled; the
    solution values are parameters. */
module FacilityExplanations {
  import opened Wrappers
  import opened SeqMath
  import opened JavaInt
  import opened TokenReader
  import opened CpExpr

  /** Java's `new int[n]` with `n < 0`. */
  datatype DecodeError = NegativeArraySize

  datatype Facility = Facility(nbLocations: nat, nbStores: nat, capacity: seq<int>,
                               fixedCost: seq<int>, cost: seq<seq<int>>)

  predicate WellShaped(d: Facility)
  {
    |d.capacity| == d.nbLocations && |d.fixedCost| == d.nbLocations && |d.cost| == d.nbStores
    && forall p :: 0 <= p < d.nbStores ==> |d.cost[p]| == d.nbLocations
  }

  /** Number of tokens read on success. */
  function Consumed(nbLocations: nat, nbStores: nat): nat
  {
    2 + 2 * nbLocations + nbStores * nbLocations
  }

  /** The data layout read by `main`: the two counts, the capacities, the fixed costs, then
      one row of assignment costs per store. */
  function DecodeFacility(tokens: seq<Token>): (r: Result<Facility, DecodeError>)
    ensures r.Ok? <==> Read(tokens, 0) >= 0 && Read(tokens, 1) >= 0
    ensures r.Ok? ==> WellShaped(r.value)
                      && r.value.nbLocations == Read(tokens, 0) && r.value.nbStores == Read(tokens, 1)
  {
    var nbLocations, nbStores := Read(tokens, 0), Read(tokens, 1);
    if nbLocations < 0 || nbStores < 0 then Err(NegativeArraySize)
    else Ok(Facility(nbLocations, nbStores, ReadsFrom(tokens, 2, nbLocations),
                     ReadsFrom(tokens, 2 + nbLocations, nbLocations),
                     Rows(tokens, 2 + 2 * nbLocations, nbStores, nbLocations)))
  }

  /** The reading part of `main`, from a fresh reader. */
  method ReadFacility(data: DataReader) returns (r: Result<Facility, DecodeError>)
    requires data.Valid() && data.calls == 0
    modifies data
    ensures r == DecodeFacility(data.tokens)
    ensures data.calls == if r.Ok? then Consumed(r.value.nbLocations, r.value.nbStores) else 2
  {
    var nbLocations := data.Next();
    var nbStores := data.Next();
    if nbLocations < 0 || nbStores < 0 {
      return Err(NegativeArraySize);
    }
    var capacity := new int[nbLocations];
    var fixedCost := new int[nbLocations];
    ReadInto(data, capacity);
    ReadInto(data, fixedCost);
    var cost := ReadRows(data, nbStores, nbLocations);
    r := Ok(Facility(nbLocations, nbStores, capacity[..], fixedCost[..], cost));
  }

  /** Every number of an instance fits in an `int`, so a data file can hold it. */
  predicate Representable(d: Facility)
  {
    IsInt32(d.nbLocations) && IsInt32(d.nbStores) && AllInt32(d.capacity)
    && AllInt32(d.fixedCost) && AllRowsInt32(d.cost)
  }

  /** A data file holding `d`, as number tokens in the order `main` reads them. */
  function EncodeFacility(d: Facility): seq<Token>
  {
    Numbers([d.nbLocations, d.nbStores]) + Numbers(d.capacity) + Numbers(d.fixedCost)
    + EncodeRows(d.cost)
  }

  /** Reading back a written instance, whatever follows it, gives the instance. */
  lemma DecodeEncode(d: Facility, rest: seq<Token>)
    requires WellShaped(d) && Representable(d)
    ensures DecodeFacility(EncodeFacility(d) + rest) == Ok(d)
  {
    EncodedCounts(d, rest);
    EncodedCapacities(d, rest);
    EncodedFixedCosts(d, rest);
    EncodedCosts(d, rest);
    DecodeParts(EncodeFacility(d) + rest, d);
  }

  /** The two counts open a written instance. */
  lemma EncodedCounts(d: Facility, rest: seq<Token>)
    requires WellShaped(d) && Representable(d)
    ensures ReadsFrom(EncodeFacility(d) + rest, 0, 2) == [d.nbLocations, d.nbStores]
  {
    var head, cap, fc := Numbers([d.nbLocations, d.nbStores]), Numbers(d.capacity), Numbers(d.fixedCost);
    var cells := EncodeRows(d.cost);
    var t := EncodeFacility(d) + rest;
    assert t == (((head + cap) + fc) + cells) + rest;
    AppendAssoc(head + cap, fc, cells);
    AppendAssoc(head + cap, fc + cells, rest);
    AppendAssoc(head, cap, (fc + cells) + rest);
    AppendAssoc([], head, cap + ((fc + cells) + rest));
    ReadsWithin(t, [], [d.nbLocations, d.nbStores], cap + ((fc + cells) + rest), 0, 2);
  }

  /** The capacities follow the counts. */
  lemma EncodedCapacities(d: Facility, rest: seq<Token>)
    requires WellShaped(d) && Representable(d)
    ensures ReadsFrom(EncodeFacility(d) + rest, 2, d.nbLocations) == d.capacity
  {
    var head, cap, fc := Numbers([d.nbLocations, d.nbStores]), Numbers(d.capacity), Numbers(d.fixedCost);
    var cells := EncodeRows(d.cost);
    var t := EncodeFacility(d) + rest;
    assert t == (((head + cap) + fc) + cells) + rest;
    AppendAssoc(head + cap, fc, cells);
    AppendAssoc(head + cap, fc + cells, rest);
    ReadsWithin(t, head, d.capacity, (fc + cells) + rest, 2, d.nbLocations);
  }

  /** The fixed costs follow the capacities. */
  lemma EncodedFixedCosts(d: Facility, rest: seq<Token>)
    requires WellShaped(d) && Representable(d)
    ensures ReadsFrom(EncodeFacility(d) + rest, 2 + d.nbLocations, d.nbLocations) == d.fixedCost
  {
    var head, cap, fc := Numbers([d.nbLocations, d.nbStores]), Numbers(d.capacity), Numbers(d.fixedCost);
    var cells := EncodeRows(d.cost);
    var t := EncodeFacility(d) + rest;
    assert t == (((head + cap) + fc) + cells) + rest;
    AppendAssoc(head + cap + fc, cells, rest);
    ReadsWithin(t, head + cap, d.fixedCost, cells + rest, 2 + d.nbLocations, d.nbLocations);
  }

  /** The cost table is read back from a written instance. */
  lemma EncodedCosts(d: Facility, rest: seq<Token>)
    requires WellShaped(d) && Representable(d)
    ensures Rows(EncodeFacility(d) + rest, 2 + 2 * d.nbLocations, d.nbStores, d.nbLocations) == d.cost
  {
    var pre := Numbers([d.nbLocations, d.nbStores]) + Numbers(d.capacity) + Numbers(d.fixedCost);
    assert |pre| == 2 + 2 * d.nbLocations;
    assert EncodeFacility(d) + rest == pre + EncodeRows(d.cost) + rest;
    RowsAt(pre, d.cost, d.nbLocations, rest);
  }

  /** An instance is decoded from any tokens whose reads give its parts. */
  lemma DecodeParts(t: seq<Token>, d: Facility)
    requires var n, m := d.nbLocations, d.nbStores;
             ReadsFrom(t, 0, 2) == [n, m] && ReadsFrom(t, 2, n) == d.capacity
             && ReadsFrom(t, 2 + n, n) == d.fixedCost && Rows(t, 2 + 2 * n, m, n) == d.cost
    ensures DecodeFacility(t) == Ok(d)
  {
    assert ReadsFrom(t, 0, 2) == [Read(t, 0), Read(t, 1)];
  }

  // ---------------------------------------------------------------------------------
  // The posted model

  /** The variable domains: every store's supplier is a location, every `open` is 0 or 1. */
  predicate InDomain(d: Facility, supplier: seq<int>, open: seq<int>)
  {
    SuppliersInRange(d, supplier) && |open| == d.nbLocations
    && (forall q :: 0 <= q < |open| ==> 0 <= open[q] <= 1)
  }

  /** `supplier` has the domain `0 .. nbLocations-1` for every store. */
  predicate SuppliersInRange(d: Facility, supplier: seq<int>)
  {
    |supplier| == d.nbStores && forall p :: 0 <= p < |supplier| ==> 0 <= supplier[p] < d.nbLocations
  }

  /** The posted constraints: every store is served by an open facility, and no facility
      serves more stores than its capacity. */
  predicate Feasible(d: Facility, supplier: seq<int>, open: seq<int>)
    requires WellShaped(d)
  {
    InDomain(d, supplier, open)
    && (forall p :: 0 <= p < d.nbStores ==> open[supplier[p]] == 1)
    && (forall q :: 0 <= q < d.nbLocations ==> Count(supplier, q) <= d.capacity[q])
  }

  /** The assignment costs of the first `k` stores. */
  function AssignCost(d: Facility, supplier: seq<int>, k: nat): int
    requires WellShaped(d) && SuppliersInRange(d, supplier) && k <= d.nbStores
  {
    if k == 0 then 0 else AssignCost(d, supplier, k - 1) + d.cost[k - 1][supplier[k - 1]]
  }

  /** The objective: the fixed costs of the open facilities plus every store's cost at
      its supplier. */
  function Objective(d: Facility, supplier: seq<int>, open: seq<int>): int
    requires WellShaped(d) && InDomain(d, supplier, open)
  {
    ScalProd(open, d.fixedCost) + AssignCost(d, supplier, d.nbStores)
  }

  /** The objective expression after the first `k` stores' costs have been added. */
  function ObjectiveExpr(d: Facility, k: nat): Expr
    requires WellShaped(d) && k <= d.nbStores
  {
    if k == 0 then ScalProdOpen(d.fixedCost)
    else Plus(ObjectiveExpr(d, k - 1), Element(d.cost[k - 1], k - 1))
  }

  lemma {:induction false} ObjectiveExprValue(d: Facility, k: nat, supplier: seq<int>, open: seq<int>)
    requires WellShaped(d) && k <= d.nbStores && InDomain(d, supplier, open)
    ensures Defined(ObjectiveExpr(d, k), supplier, open)
    ensures Eval(ObjectiveExpr(d, k), supplier, open) == ScalProd(open, d.fixedCost) + AssignCost(d, supplier, k)
  {
    if k > 0 {
      ObjectiveExprValue(d, k - 1, supplier, open);
    }
  }

  /** The objective loop of `main`: the expression it builds has, for every assignment in
      the variable domains, the value `Objective`. */
  method PostObjective(d: Facility) returns (obj: Expr)
    requires WellShaped(d)
    ensures forall supplier, open :: InDomain(d, supplier, open) ==>
              Defined(obj, supplier, open) && Eval(obj, supplier, open) == Objective(d, supplier, open)
  {
    obj := ScalProdOpen(d.fixedCost);
    for p := 0 to d.nbStores
      invariant obj == ObjectiveExpr(d, p)
    {
      obj := Plus(obj, Element(d.cost[p], p));
    }
    forall supplier, open | InDomain(d, supplier, open)
      ensures Defined(obj, supplier, open) && Eval(obj, supplier, open) == Objective(d, supplier, open)
    {
      ObjectiveExprValue(d, d.nbStores, supplier, open);
    }
  }

  /** A posted constraint: `open[supplier[p]] == 1`, or `count(supplier, q) <= capacity`. */
  datatype Constraint = ServedByOpen(store: nat) | WithinCapacity(location: int, capacity: int)

  predicate Holds(c: Constraint, supplier: seq<int>, open: seq<int>)
  {
    match c
    case ServedByOpen(p) => p < |supplier| && 0 <= supplier[p] < |open| && open[supplier[p]] == 1
    case WithinCapacity(q, cap) => Count(supplier, q) <= cap
  }

  predicate AllHold(cs: seq<Constraint>, supplier: seq<int>, open: seq<int>)
  {
    forall k :: 0 <= k < |cs| ==> Holds(cs[k], supplier, open)
  }

  /** The two constraint loops of `main`. */
  method PostConstraints(d: Facility) returns (cs: seq<Constraint>)
    requires WellShaped(d)
    ensures forall supplier, open :: InDomain(d, supplier, open) ==>
              (AllHold(cs, supplier, open) <==> Feasible(d, supplier, open))
  {
    cs := [];
    for p := 0 to d.nbStores
      invariant |cs| == p && forall k :: 0 <= k < p ==> cs[k] == ServedByOpen(k)
    {
      cs := cs + [ServedByOpen(p)];
    }
    for q := 0 to d.nbLocations
      invariant |cs| == d.nbStores + q
      invariant forall k :: 0 <= k < d.nbStores ==> cs[k] == ServedByOpen(k)
      invariant forall k :: 0 <= k < q ==> cs[d.nbStores + k] == WithinCapacity(k, d.capacity[k])
    {
      cs := cs + [WithinCapacity(q, d.capacity[q])];
    }
    forall supplier, open | InDomain(d, supplier, open)
      ensures AllHold(cs, supplier, open) <==> Feasible(d, supplier, open)
    {
      if AllHold(cs, supplier, open) {
        forall p | 0 <= p < d.nbStores
          ensures open[supplier[p]] == 1
        {
          assert Holds(cs[p], supplier, open);
        }
        forall q | 0 <= q < d.nbLocations
          ensures Count(supplier, q) <= d.capacity[q]
        {
          assert Holds(cs[d.nbStores + q], supplier, open);
        }
      }
      if Feasible(d, supplier, open) {
        forall k | 0 <= k < |cs|
          ensures Holds(cs[k], supplier, open)
        {
          if k >= d.nbStores {
            var q := k - d.nbStores;
            assert cs[d.nbStores + q] == WithinCapacity(q, d.capacity[q]);
          }
        }
      }
    }
  }

  /** Stores `0 .. k-1` are counted once each across the locations below `n`. */
  function CountBelow(s: seq<int>, n: nat): int
  {
    if n == 0 then 0 else CountBelow(s, n - 1) + Count(s, n - 1)
  }

  lemma {:induction false} CountBelowAppend(s: seq<int>, x: int, n: nat)
    ensures CountBelow(s + [x], n) == CountBelow(s, n) + (if 0 <= x < n then 1 else 0)
  {
    if n > 0 {
      CountBelowAppend(s, x, n - 1);
      CountAppend(s, x, n - 1);
    }
  }

  /** When every entry lies below `n`, each is counted exactly once. */
  lemma {:induction false} CountBelowAll(s: seq<int>, n: nat)
    requires forall p :: 0 <= p < |s| ==> 0 <= s[p] < n
    ensures CountBelow(s, n) == |s|
  {
    if |s| > 0 {
      var init := s[..|s| - 1];
      CountBelowAll(init, n);
      assert s == init + [s[|s| - 1]];
      CountBelowAppend(init, s[|s| - 1], n);
    } else {
      CountBelowEmpty(s, n);
    }
  }

  lemma {:induction false} CountBelowEmpty(s: seq<int>, n: nat)
    requires |s| == 0
    ensures CountBelow(s, n) == 0
  {
    if n > 0 {
      CountBelowEmpty(s, n - 1);
    }
  }

  /** The capacity of the open facilities below `n`. */
  function OpenCapacity(d: Facility, open: seq<int>, n: nat): int
    requires WellShaped(d) && |open| == d.nbLocations && n <= d.nbLocations
  {
    if n == 0 then 0 else OpenCapacity(d, open, n - 1) + (if open[n - 1] == 1 then d.capacity[n - 1] else 0)
  }

  lemma {:induction false} CountsWithinOpenCapacity(d: Facility, supplier: seq<int>, open: seq<int>, n: nat)
    requires WellShaped(d) && Feasible(d, supplier, open) && n <= d.nbLocations
    ensures CountBelow(supplier, n) <= OpenCapacity(d, open, n)
  {
    if n > 0 {
      CountsWithinOpenCapacity(d, supplier, open, n - 1);
      var q := n - 1;
      if open[q] != 1 {
        forall p | 0 <= p < |supplier|
          ensures supplier[p] != q
        {
          assert open[supplier[p]] == 1;
        }
        CountZero(supplier, q);
      }
    }
  }

  /** A feasible plan opens enough capacity for every store. */
  lemma CapacityCovers(d: Facility, supplier: seq<int>, open: seq<int>)
    requires WellShaped(d) && Feasible(d, supplier, open)
    ensures d.nbStores <= OpenCapacity(d, open, d.nbLocations)
  {
    CountBelowAll(supplier, d.nbLocations);
    CountsWithinOpenCapacity(d, supplier, open, d.nbLocations);
  }

  // ---------------------------------------------------------------------------------
  // The report

  /** One printed line: an open facility and the stores it serves. */
  datatype ReportLine = Serves(facility: int, stores: seq<int>)

  /** The stores below `k` supplied by `q`, in increasing order. */
  function Served(supplier: seq<int>, q: int, k: nat): seq<int>
    requires k <= |supplier|
  {
    if k == 0 then []
    else Served(supplier, q, k - 1) + (if supplier[k - 1] == q then [k - 1] else [])
  }

  /** The lines for the facilities below `k`: each open one with the stores it serves. */
  function ReportLines(supplier: seq<int>, open: seq<int>, k: nat): seq<ReportLine>
    requires k <= |open|
  {
    if k == 0 then []
    else ReportLines(supplier, open, k - 1)
         + (if open[k - 1] == 1 then [Serves(k - 1, Served(supplier, k - 1, |supplier|))] else [])
  }

  /** The report loop of `main`, over the solution values `supplier` and `open`. */
  method PrintReport(supplier: seq<int>, open: seq<int>) returns (lines: seq<ReportLine>)
    ensures lines == ReportLines(supplier, open, |open|)
  {
    lines := [];
    for q := 0 to |open|
      invariant lines == ReportLines(supplier, open, q)
    {
      if open[q] == 1 {
        var stores := [];
        for p := 0 to |supplier|
          invariant stores == Served(supplier, q, p)
        {
          if supplier[p] == q {
            stores := stores + [p];
          }
        }
        lines := lines + [Serves(q, stores)];
      }
    }
  }

  predicate Increasing(s: seq<int>)
  {
    forall i, j :: 0 <= i < j < |s| ==> s[i] < s[j]
  }

  /** The stores listed for `q` are exactly those it supplies, in increasing order. */
  lemma {:induction false} ServedFacts(supplier: seq<int>, q: int, k: nat)
    requires k <= |supplier|
    ensures Increasing(Served(supplier, q, k))
    ensures forall p :: p in Served(supplier, q, k) <==> 0 <= p < k && supplier[p] == q
  {
    if k > 0 {
      ServedFacts(supplier, q, k - 1);
      var prev := Served(supplier, q, k - 1);
      forall i | 0 <= i < |prev|
        ensures prev[i] < k - 1
      {
        assert prev[i] in prev;
      }
    }
  }

  function Facilities(lines: seq<ReportLine>): (r: seq<int>)
    ensures |r| == |lines|
  {
    if |lines| == 0 then [] else Facilities(lines[..|lines| - 1]) + [lines[|lines| - 1].facility]
  }

  lemma {:induction false} FacilitiesAt(lines: seq<ReportLine>, i: nat)
    requires i < |lines|
    ensures Facilities(lines)[i] == lines[i].facility
  {
    if i < |lines| - 1 {
      FacilitiesAt(lines[..|lines| - 1], i);
    }
  }

  /** The report names exactly the open facilities below `k`, in increasing order. */
  lemma {:induction false} ReportFacts(supplier: seq<int>, open: seq<int>, k: nat)
    requires k <= |open|
    ensures Increasing(Facilities(ReportLines(supplier, open, k)))
    ensures forall q :: q in Facilities(ReportLines(supplier, open, k)) <==> 0 <= q < k && open[q] == 1
  {
    if k > 0 {
      ReportFacts(supplier, open, k - 1);
      var prev := ReportLines(supplier, open, k - 1);
      if open[k - 1] == 1 {
        var lines := ReportLines(supplier, open, k);
        assert Facilities(lines) == Facilities(prev) + [k - 1] by {
          assert lines[..|lines| - 1] == prev;
        }
        forall i | 0 <= i < |prev|
          ensures Facilities(prev)[i] < k - 1
        {
          assert Facilities(prev)[i] in Facilities(prev);
        }
      } else {
        assert ReportLines(supplier, open, k) == prev;
      }
    }
  }

  /** Each line of the report lists exactly the stores its facility supplies. */
  lemma {:induction false} ReportStores(supplier: seq<int>, open: seq<int>, k: nat)
    requires k <= |open|
    ensures forall line :: line in ReportLines(supplier, open, k) ==>
              line.stores == Served(supplier, line.facility, |supplier|)
  {
    if k > 0 {
      ReportStores(supplier, open, k - 1);
    }
  }

  /** With a feasible plan, every store is listed exactly once, under its own supplier. */
  lemma ReportListsEveryStore(d: Facility, supplier: seq<int>, open: seq<int>, p: int)
    requires WellShaped(d) && Feasible(d, supplier, open) && 0 <= p < d.nbStores
    ensures forall line :: line in ReportLines(supplier, open, |open|) ==>
              (p in line.stores <==> line.facility == supplier[p])
    ensures supplier[p] in Facilities(ReportLines(supplier, open, |open|))
  {
    ReportFacts(supplier, open, |open|);
    ReportStores(supplier, open, |open|);
    forall line | line in ReportLines(supplier, open, |open|)
      ensures p in line.stores <==> line.facility == supplier[p]
    {
      ServedFacts(supplier, line.facility, |supplier|);
    }
  }
}
