/** The capacitated plant-location model of `PlantLocation`: its data file layout, the
    running `totalDemand` in 32-bit arithmetic, the variables' domains, the link between
    a warehouse being open and carrying load, the `pack` of customer demands into
    warehouse loads, the objective, and the starting point it hands to the solver. The
    search itself and the two ratio indicators are not modelled. */
module PlantLocation {
  import opened Wrappers
  import opened SeqMath
  import opened JavaInt
  import opened TokenReader
  import opened CpExpr

  /** Java's `new int[n]` with `n < 0`. */
  datatype DecodeError = NegativeArraySize

  datatype Plant = Plant(nbCustomer: nat, nbLocation: nat, cost: seq<seq<int>>,
                         demand: seq<int>, fixedCost: seq<int>, capacity: seq<int>)

  predicate WellShaped(d: Plant)
  {
    |d.cost| == d.nbCustomer && (forall c :: 0 <= c < d.nbCustomer ==> |d.cost[c]| == d.nbLocation)
    && |d.demand| == d.nbCustomer && |d.fixedCost| == d.nbLocation && |d.capacity| == d.nbLocation
  }

  /** Number of tokens read on success. */
  function Consumed(nbCustomer: nat, nbLocation: nat): nat
  {
    2 + nbCustomer * nbLocation + nbCustomer + 2 * nbLocation
  }

  /** The data layout read by `main`: the two counts, one row of costs per customer, the
      demands, the fixed costs, then the capacities. */
  function DecodePlant(tokens: seq<Token>): (r: Result<Plant, DecodeError>)
    ensures r.Ok? <==> Read(tokens, 0) >= 0 && Read(tokens, 1) >= 0
    ensures r.Ok? ==> WellShaped(r.value)
                      && r.value.nbCustomer == Read(tokens, 0) && r.value.nbLocation == Read(tokens, 1)
  {
    var nc, nl := Read(tokens, 0), Read(tokens, 1);
    if nc < 0 || nl < 0 then Err(NegativeArraySize)
    else
      var base := 2 + nc * nl;
      Ok(Plant(nc, nl, Rows(tokens, 2, nc, nl), ReadsFrom(tokens, base, nc),
               ReadsFrom(tokens, base + nc, nl), ReadsFrom(tokens, base + nc + nl, nl)))
  }

  /** What `totalDemand` holds after the demand loop: the sum of the demands, wrapped to
      an `int`. */
  function TotalDemand(d: Plant): (r: int)
    ensures IsInt32(r) && (IsInt32(Sum(d.demand)) ==> r == Sum(d.demand))
  {
    Wrap32(Sum(d.demand))
  }

  /** The reading part of `main`, from a fresh reader, with `totalDemand` accumulated
      alongside the demands. */
  method ReadPlant(data: DataReader) returns (r: Result<Plant, DecodeError>, totalDemand: int)
    requires data.Valid() && data.calls == 0
    modifies data
    ensures r == DecodePlant(data.tokens)
    ensures r.Ok? ==> totalDemand == TotalDemand(r.value)
                      && data.calls == Consumed(r.value.nbCustomer, r.value.nbLocation)
  {
    totalDemand := 0;
    var nbCustomer := data.Next();
    var nbLocation := data.Next();
    if nbCustomer < 0 || nbLocation < 0 {
      return Err(NegativeArraySize), totalDemand;
    }
    var cost := ReadRows(data, nbCustomer, nbLocation);
    assert data.calls == 2 + nbCustomer * nbLocation;
    var demand, fixedCost, capacity;
    demand, fixedCost, capacity, totalDemand := ReadTail(data, nbCustomer, nbLocation);
    r := Ok(Plant(nbCustomer, nbLocation, cost, demand, fixedCost, capacity));
  }

  /** The reads after the cost table: the demands (summed into `totalDemand`), the fixed
      costs and the capacities. */
  method ReadTail(data: DataReader, nbCustomer: nat, nbLocation: nat)
      returns (demand: seq<int>, fixedCost: seq<int>, capacity: seq<int>, totalDemand: int)
    requires data.Valid()
    modifies data
    ensures data.Valid() && data.calls == old(data.calls) + nbCustomer + 2 * nbLocation
    ensures demand == ReadsFrom(data.tokens, old(data.calls), nbCustomer)
    ensures fixedCost == ReadsFrom(data.tokens, old(data.calls) + nbCustomer, nbLocation)
    ensures capacity == ReadsFrom(data.tokens, old(data.calls) + nbCustomer + nbLocation, nbLocation)
    ensures totalDemand == Wrap32(Sum(demand))
  {
    var d := new int[nbCustomer];
    totalDemand := ReadDemand(data, d);
    var f := new int[nbLocation];
    ReadInto(data, f);
    var c := new int[nbLocation];
    ReadInto(data, c);
    demand, fixedCost, capacity := d[..], f[..], c[..];
  }

  /** The demand loop: each demand is read and added to `totalDemand` with Java's `+=`. */
  method ReadDemand(data: DataReader, demand: array<int>) returns (totalDemand: int)
    requires data.Valid()
    modifies data, demand
    ensures data.Valid() && data.calls == old(data.calls) + demand.Length
    ensures demand[..] == ReadsFrom(data.tokens, old(data.calls), demand.Length)
    ensures totalDemand == Wrap32(Sum(demand[..]))
  {
    ghost var start := data.calls;
    totalDemand := 0;
    for c := 0 to demand.Length
      invariant data.Valid() && data.calls == start + c
      invariant demand[..c] == ReadsFrom(data.tokens, start, c)
      invariant totalDemand == Wrap32(Sum(demand[..c]))
    {
      ghost var before := demand[..c];
      var x := data.Next();
      demand[c] := x;
      assert demand[..c + 1] == before + [x];
      DemandStep(data.tokens, start, c, before, x, totalDemand);
      totalDemand := Wrap32(totalDemand + x);
    }
    assert demand[..demand.Length] == demand[..];
  }

  /** One round of the demand loop, on values: the read extends the demands read so far and
      the wrapped total follows their sum. */
  lemma DemandStep(t: seq<Token>, start: nat, c: nat, before: seq<int>, x: int, total: int)
    requires before == ReadsFrom(t, start, c) && x == Read(t, start + c)
    requires total == Wrap32(Sum(before))
    ensures before + [x] == ReadsFrom(t, start, c + 1)
    ensures Wrap32(total + x) == Wrap32(Sum(before + [x]))
  {
    SumAppend(before, x);
    Wrap32Add(Sum(before), x);
  }

  /** Every number of an instance fits in an `int`, so a data file can hold it. */
  predicate Representable(d: Plant)
  {
    IsInt32(d.nbCustomer) && IsInt32(d.nbLocation) && AllRowsInt32(d.cost)
    && AllInt32(d.demand) && AllInt32(d.fixedCost) && AllInt32(d.capacity)
  }

  /** A data file holding `d`, as number tokens in the order `main` reads them. */
  function EncodePlant(d: Plant): seq<Token>
  {
    Numbers([d.nbCustomer, d.nbLocation]) + EncodeRows(d.cost)
    + Numbers(d.demand) + Numbers(d.fixedCost) + Numbers(d.capacity)
  }

  /** Reading back a written instance, whatever follows it, gives the instance. */
  lemma DecodeEncode(d: Plant, rest: seq<Token>)
    requires WellShaped(d) && Representable(d)
    ensures DecodePlant(EncodePlant(d) + rest) == Ok(d)
  {
    EncodedHead(d, rest);
    EncodedDemands(d, rest);
    EncodedFixedCosts(d, rest);
    EncodedCapacities(d, rest);
    DecodeParts(EncodePlant(d) + rest, d);
  }

  /** The counts and the cost table are read back from a written instance. */
  lemma EncodedHead(d: Plant, rest: seq<Token>)
    requires WellShaped(d) && Representable(d)
    ensures var t := EncodePlant(d) + rest;
            ReadsFrom(t, 0, 2) == [d.nbCustomer, d.nbLocation]
            && Rows(t, 2, d.nbCustomer, d.nbLocation) == d.cost
  {
    var nc, nl := d.nbCustomer, d.nbLocation;
    var head, cells := Numbers([nc, nl]), EncodeRows(d.cost);
    var m, f, c := Numbers(d.demand), Numbers(d.fixedCost), Numbers(d.capacity);
    var tail := ((m + f) + c) + rest;
    var t := EncodePlant(d) + rest;
    assert t == ((((head + cells) + m) + f) + c) + rest;
    AppendAssoc(head + cells, m, f);
    AppendAssoc(head + cells, m + f, c);
    AppendAssoc(head + cells, (m + f) + c, rest);
    assert t == (head + cells) + tail;
    AppendAssoc([], head, cells + tail);
    AppendAssoc(head, cells, tail);
    ReadsAt([], [nc, nl], cells + tail);
    RowsAt(head, d.cost, nl, tail);
  }

  /** The tokens before the demands: the counts and the cost table. */
  lemma HeadLength(d: Plant)
    requires WellShaped(d)
    ensures |Numbers([d.nbCustomer, d.nbLocation]) + EncodeRows(d.cost)| == 2 + d.nbCustomer * d.nbLocation
  {
    EncodeRowsLength(d.cost, d.nbLocation);
  }

  /** The demands follow the cost table. */
  lemma EncodedDemands(d: Plant, rest: seq<Token>)
    requires WellShaped(d) && Representable(d)
    ensures ReadsFrom(EncodePlant(d) + rest, 2 + d.nbCustomer * d.nbLocation, d.nbCustomer) == d.demand
  {
    var pre := Numbers([d.nbCustomer, d.nbLocation]) + EncodeRows(d.cost);
    var m, f, c := Numbers(d.demand), Numbers(d.fixedCost), Numbers(d.capacity);
    var t := EncodePlant(d) + rest;
    HeadLength(d);
    assert t == (((pre + m) + f) + c) + rest;
    AppendAssoc(pre + m, f, c);
    AppendAssoc(pre + m, f + c, rest);
    ReadsWithin(t, pre, d.demand, (f + c) + rest, |pre|, d.nbCustomer);
  }

  /** The fixed costs follow the demands. */
  lemma EncodedFixedCosts(d: Plant, rest: seq<Token>)
    requires WellShaped(d) && Representable(d)
    ensures ReadsFrom(EncodePlant(d) + rest, 2 + d.nbCustomer * d.nbLocation + d.nbCustomer, d.nbLocation)
            == d.fixedCost
  {
    var pre := Numbers([d.nbCustomer, d.nbLocation]) + EncodeRows(d.cost);
    var m, f, c := Numbers(d.demand), Numbers(d.fixedCost), Numbers(d.capacity);
    var t := EncodePlant(d) + rest;
    HeadLength(d);
    assert t == (((pre + m) + f) + c) + rest;
    AppendAssoc(pre + m + f, c, rest);
    ReadsWithin(t, pre + m, d.fixedCost, c + rest, |pre| + d.nbCustomer, d.nbLocation);
  }

  /** The capacities come last. */
  lemma EncodedCapacities(d: Plant, rest: seq<Token>)
    requires WellShaped(d) && Representable(d)
    ensures ReadsFrom(EncodePlant(d) + rest, 2 + d.nbCustomer * d.nbLocation + d.nbCustomer + d.nbLocation,
                      d.nbLocation) == d.capacity
  {
    var pre := Numbers([d.nbCustomer, d.nbLocation]) + EncodeRows(d.cost);
    var m, f, c := Numbers(d.demand), Numbers(d.fixedCost), Numbers(d.capacity);
    var t := EncodePlant(d) + rest;
    HeadLength(d);
    assert t == (((pre + m) + f) + c) + rest;
    ReadsWithin(t, pre + m + f, d.capacity, rest, |pre| + d.nbCustomer + d.nbLocation, d.nbLocation);
  }

  /** An instance is decoded from any tokens whose reads give its parts. */
  lemma DecodeParts(t: seq<Token>, d: Plant)
    requires ReadsFrom(t, 0, 2) == [d.nbCustomer, d.nbLocation]
    requires Rows(t, 2, d.nbCustomer, d.nbLocation) == d.cost
    requires var nc, nl := d.nbCustomer, d.nbLocation;
             var base := 2 + nc * nl;
             ReadsFrom(t, base, nc) == d.demand && ReadsFrom(t, base + nc, nl) == d.fixedCost
             && ReadsFrom(t, base + nc + nl, nl) == d.capacity
    ensures DecodePlant(t) == Ok(d)
  {
    assert ReadsFrom(t, 0, 2) == [Read(t, 0), Read(t, 1)];
  }

  // ---------------------------------------------------------------------------------
  // The posted model

  /** Every customer is assigned to a warehouse. */
  predicate CustInRange(d: Plant, cust: seq<int>)
  {
    |cust| == d.nbCustomer && forall c :: 0 <= c < |cust| ==> 0 <= cust[c] < d.nbLocation
  }

  /** The variable domains: `cust[c]` in `0 .. nbLocation-1`, `open[w]` in `0 .. 1`,
      `load[w]` in `0 .. capacity[w]`. */
  predicate InDomain(d: Plant, cust: seq<int>, open: seq<int>, load: seq<int>)
    requires WellShaped(d)
  {
    CustInRange(d, cust) && |open| == d.nbLocation && |load| == d.nbLocation
    && (forall w :: 0 <= w < d.nbLocation ==> 0 <= open[w] <= 1)
    && (forall w :: 0 <= w < d.nbLocation ==> 0 <= load[w] <= d.capacity[w])
  }

  /** The demand of the first `k` customers assigned to `w`. */
  function Load(d: Plant, cust: seq<int>, w: int, k: nat): int
    requires WellShaped(d) && |cust| == d.nbCustomer && k <= d.nbCustomer
  {
    if k == 0 then 0 else Load(d, cust, w, k - 1) + (if cust[k - 1] == w then d.demand[k - 1] else 0)
  }

  /** `open[w] == (load[w] > 0)` for every warehouse. */
  predicate Linked(open: seq<int>, load: seq<int>)
    requires |open| == |load|
  {
    forall w :: 0 <= w < |open| ==> (open[w] == 1 <==> load[w] > 0)
  }

  /** `pack(load, cust, demand)`: each load is the total demand assigned to it. */
  predicate Packed(d: Plant, cust: seq<int>, load: seq<int>)
    requires WellShaped(d) && |cust| == d.nbCustomer && |load| == d.nbLocation
  {
    forall w :: 0 <= w < d.nbLocation ==> load[w] == Load(d, cust, w, d.nbCustomer)
  }

  predicate Feasible(d: Plant, cust: seq<int>, open: seq<int>, load: seq<int>)
    requires WellShaped(d)
  {
    InDomain(d, cust, open, load) && Linked(open, load) && Packed(d, cust, load)
  }

  /** A posted constraint: the open/load link of one warehouse, or the `pack`. */
  datatype Constraint = OpenIffLoaded(warehouse: nat) | Pack

  predicate Holds(d: Plant, c: Constraint, cust: seq<int>, open: seq<int>, load: seq<int>)
    requires WellShaped(d) && |cust| == d.nbCustomer && |open| == d.nbLocation && |load| == d.nbLocation
  {
    match c
    case OpenIffLoaded(w) => w < d.nbLocation && (open[w] == 1 <==> load[w] > 0)
    case Pack => Packed(d, cust, load)
  }

  /** The warehouse loop and the `pack` of `main`: within the variable domains, the posted
      constraints hold exactly for the feasible plans. */
  method PostConstraints(d: Plant) returns (cs: seq<Constraint>)
    requires WellShaped(d)
    ensures forall cust, open, load :: InDomain(d, cust, open, load) ==>
              ((forall k :: 0 <= k < |cs| ==> Holds(d, cs[k], cust, open, load)) <==> Feasible(d, cust, open, load))
  {
    cs := [];
    for w := 0 to d.nbLocation
      invariant |cs| == w && forall k :: 0 <= k < w ==> cs[k] == OpenIffLoaded(k)
    {
      cs := cs + [OpenIffLoaded(w)];
    }
    cs := cs + [Pack];
    forall cust, open, load | InDomain(d, cust, open, load)
      ensures (forall k :: 0 <= k < |cs| ==> Holds(d, cs[k], cust, open, load)) <==> Feasible(d, cust, open, load)
    {
      if forall k :: 0 <= k < |cs| ==> Holds(d, cs[k], cust, open, load) {
        forall w | 0 <= w < d.nbLocation
          ensures open[w] == 1 <==> load[w] > 0
        {
          assert Holds(d, cs[w], cust, open, load);
        }
        assert Holds(d, cs[d.nbLocation], cust, open, load);
      }
    }
  }

  /** The loads a plan assigns. */
  function Loads(d: Plant, cust: seq<int>): (r: seq<int>)
    requires WellShaped(d) && |cust| == d.nbCustomer
    ensures |r| == d.nbLocation
  {
    seq(d.nbLocation, w => Load(d, cust, w, d.nbCustomer))
  }

  /** The `open` values the link forces for given loads. */
  function OpenFor(load: seq<int>): (r: seq<int>)
    ensures |r| == |load|
  {
    seq(|load|, w requires 0 <= w < |load| => if load[w] > 0 then 1 else 0)
  }

  /** The assignment alone decides a feasible plan: its loads are the packed demands and a
      warehouse is open exactly when it carries load; the plan is feasible exactly when
      those loads fit the capacities. */
  lemma FeasibleDetermined(d: Plant, cust: seq<int>, open: seq<int>, load: seq<int>)
    requires WellShaped(d)
    ensures Feasible(d, cust, open, load) <==>
              CustInRange(d, cust) && load == Loads(d, cust) && open == OpenFor(load)
              && forall w :: 0 <= w < d.nbLocation ==> 0 <= load[w] <= d.capacity[w]
  {
  }

  /** The demands of the first `k` customers that go to warehouses below `n`. */
  function LoadBelow(d: Plant, cust: seq<int>, n: nat, k: nat): int
    requires WellShaped(d) && |cust| == d.nbCustomer && k <= d.nbCustomer
  {
    if n == 0 then 0 else LoadBelow(d, cust, n - 1, k) + Load(d, cust, n - 1, k)
  }

  lemma {:induction false} LoadBelowStep(d: Plant, cust: seq<int>, n: nat, k: nat)
    requires WellShaped(d) && |cust| == d.nbCustomer && k < d.nbCustomer
    ensures LoadBelow(d, cust, n, k + 1) == LoadBelow(d, cust, n, k) + (if 0 <= cust[k] < n then d.demand[k] else 0)
  {
    if n > 0 {
      LoadBelowStep(d, cust, n - 1, k);
    }
  }

  lemma {:induction false} LoadBelowNone(d: Plant, cust: seq<int>, n: nat)
    requires WellShaped(d) && |cust| == d.nbCustomer
    ensures LoadBelow(d, cust, n, 0) == 0
  {
    if n > 0 {
      LoadBelowNone(d, cust, n - 1);
    }
  }

  /** Every assigned customer's demand is counted in exactly one warehouse's load. */
  lemma {:induction false} LoadConservation(d: Plant, cust: seq<int>, k: nat)
    requires WellShaped(d) && CustInRange(d, cust) && k <= d.nbCustomer
    ensures LoadBelow(d, cust, d.nbLocation, k) == Sum(d.demand[..k])
  {
    if k == 0 {
      LoadBelowNone(d, cust, d.nbLocation);
      assert d.demand[..0] == [];
    } else {
      LoadConservation(d, cust, k - 1);
      LoadBelowStep(d, cust, d.nbLocation, k - 1);
      SumStep(d.demand, k - 1);
    }
  }

  /** The loads below `n` fit within the open capacity below `n`. */
  lemma {:induction false} LoadWithinOpenCapacity(d: Plant, cust: seq<int>, open: seq<int>, load: seq<int>, n: nat)
    requires WellShaped(d) && Feasible(d, cust, open, load) && n <= d.nbLocation
    ensures LoadBelow(d, cust, n, d.nbCustomer) <= ScalProd(open[..n], d.capacity[..n])
  {
    if n > 0 {
      LoadWithinOpenCapacity(d, cust, open, load, n - 1);
      assert open[..n][..n - 1] == open[..n - 1];
      assert d.capacity[..n][..n - 1] == d.capacity[..n - 1];
      assert load[n - 1] <= open[n - 1] * d.capacity[n - 1];
    }
  }

  /** A feasible plan opens enough capacity for the whole demand. */
  lemma DemandFits(d: Plant, cust: seq<int>, open: seq<int>, load: seq<int>)
    requires WellShaped(d) && Feasible(d, cust, open, load)
    ensures Sum(d.demand) <= ScalProd(open, d.capacity)
  {
    LoadConservation(d, cust, d.nbCustomer);
    LoadWithinOpenCapacity(d, cust, open, load, d.nbLocation);
    assert d.demand[..d.nbCustomer] == d.demand;
    assert open[..d.nbLocation] == open && d.capacity[..d.nbLocation] == d.capacity;
  }

  // ---------------------------------------------------------------------------------
  // The objective

  /** The assignment costs of the first `k` customers. */
  function AssignCost(d: Plant, cust: seq<int>, k: nat): int
    requires WellShaped(d) && CustInRange(d, cust) && k <= d.nbCustomer
  {
    if k == 0 then 0 else AssignCost(d, cust, k - 1) + d.cost[k - 1][cust[k - 1]]
  }

  /** The objective: the fixed costs of the open warehouses plus every customer's cost at
      its warehouse. */
  function Objective(d: Plant, cust: seq<int>, open: seq<int>): int
    requires WellShaped(d) && CustInRange(d, cust) && |open| == d.nbLocation
  {
    ScalProd(open, d.fixedCost) + AssignCost(d, cust, d.nbCustomer)
  }

  /** The objective expression after the first `k` customers' costs have been added. */
  function ObjectiveExpr(d: Plant, k: nat): Expr
    requires WellShaped(d) && k <= d.nbCustomer
  {
    if k == 0 then ScalProdOpen(d.fixedCost)
    else Plus(ObjectiveExpr(d, k - 1), Element(d.cost[k - 1], k - 1))
  }

  lemma {:induction false} ObjectiveExprValue(d: Plant, k: nat, cust: seq<int>, open: seq<int>)
    requires WellShaped(d) && k <= d.nbCustomer && CustInRange(d, cust) && |open| == d.nbLocation
    ensures Defined(ObjectiveExpr(d, k), cust, open)
    ensures Eval(ObjectiveExpr(d, k), cust, open) == ScalProd(open, d.fixedCost) + AssignCost(d, cust, k)
  {
    if k > 0 {
      ObjectiveExprValue(d, k - 1, cust, open);
    }
  }

  /** The objective loop of `main`: the expression it builds has, for every assignment in
      the variable domains, the value `Objective`. */
  method PostObjective(d: Plant) returns (obj: Expr)
    requires WellShaped(d)
    ensures forall cust, open :: CustInRange(d, cust) && |open| == d.nbLocation ==>
              Defined(obj, cust, open) && Eval(obj, cust, open) == Objective(d, cust, open)
  {
    obj := ScalProdOpen(d.fixedCost);
    for c := 0 to d.nbCustomer
      invariant obj == ObjectiveExpr(d, c)
    {
      obj := Plus(obj, Element(d.cost[c], c));
    }
    forall cust, open | CustInRange(d, cust) && |open| == d.nbLocation
      ensures Defined(obj, cust, open) && Eval(obj, cust, open) == Objective(d, cust, open)
    {
      ObjectiveExprValue(d, d.nbCustomer, cust, open);
    }
  }
}
