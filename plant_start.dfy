/** The starting point `PlantLocation` hands to the solver: customer `c` starts at
    warehouse `custValues[c]`, taken from a fixed table of 90 values. */
module PlantStart {
  import opened Wrappers
  import opened PlantLocation

  /** `custValues`, one constant per line of twenty values. */
  const CustValues: seq<int> := Values0 + Values1 + Values2 + Values3 + Values4
  const Values0: seq<int> := [19, 0, 11, 8, 29, 9, 29, 28, 17, 15, 7, 9, 18, 15, 1, 17, 25, 18, 17, 27]
  const Values1: seq<int> := [22, 1, 26, 3, 22, 2, 20, 27, 2, 16, 1, 16, 12, 28, 19, 2, 20, 14, 13, 27]
  const Values2: seq<int> := [3, 9, 18, 0, 13, 19, 27, 14, 12, 1, 15, 14, 17, 0, 7, 12, 11, 0, 25, 16]
  const Values3: seq<int> := [22, 13, 16, 8, 18, 27, 19, 23, 26, 13, 11, 11, 19, 22, 28, 26, 23, 3, 18, 23]
  const Values4: seq<int> := [26, 14, 29, 18, 9, 7, 12, 27, 8, 20]

  predicate Within(s: seq<int>, lo: int, hi: int)
  {
    forall c :: 0 <= c < |s| ==> lo <= s[c] <= hi
  }

  lemma WithinAppend(s: seq<int>, t: seq<int>, lo: int, hi: int)
    requires Within(s, lo, hi) && Within(t, lo, hi)
    ensures Within(s + t, lo, hi)
  {
    forall c | 0 <= c < |s + t|
      ensures lo <= (s + t)[c] <= hi
    {
      if c >= |s| {
        assert (s + t)[c] == t[c - |s|];
      }
    }
  }

  /** There are 90 starting values, each a warehouse number from 0 to 29, and the fifth
      is 29. */
  lemma {:induction false} StartValues()
    ensures |CustValues| == 90 && Within(CustValues, 0, 29) && CustValues[4] == 29
  {
    FirstPartsWithin();
    LastPartsWithin();
    WithinAppend(Values0, Values1, 0, 29);
    WithinAppend(Values0 + Values1, Values2, 0, 29);
    WithinAppend(Values0 + Values1 + Values2, Values3, 0, 29);
    WithinAppend(Values0 + Values1 + Values2 + Values3, Values4, 0, 29);
  }

  lemma FirstPartsWithin()
    ensures Within(Values0, 0, 29) && Within(Values1, 0, 29)
  {
    assert Within(Values0, 0, 29);
  }

  lemma LastPartsWithin()
    ensures Within(Values2, 0, 29) && Within(Values3, 0, 29) && Within(Values4, 0, 29)
  {
    assert Within(Values2, 0, 29);
    assert Within(Values3, 0, 29);
  }

  /** `custValues[c]` past the end of the array. */
  datatype StartError = IndexOutOfBounds(index: int)

  /** The starting-point loop over a table `values`: customer `c` starts at `values[c]`; a
      customer past the end of the table makes the array access throw. */
  method StartFrom(values: seq<int>, nbCustomer: int) returns (r: Result<seq<int>, StartError>)
    ensures r.Ok? <==> nbCustomer <= |values|
    ensures r.Ok? ==> r.value == values[..if nbCustomer < 0 then 0 else nbCustomer]
    ensures r.Err? ==> r.error == IndexOutOfBounds(|values|)
  {
    var sol: seq<int> := [];
    var c := 0;
    while c < nbCustomer
      invariant 0 <= c <= |values| && (c <= nbCustomer || c == 0)
      invariant sol == values[..c]
      decreases nbCustomer - c
    {
      if c >= |values| {
        return Err(IndexOutOfBounds(c));
      }
      sol := sol + [values[c]];
      c := c + 1;
    }
    return Ok(sol);
  }

  /** The starting point of `PlantLocation`, over its table of 90 values. */
  method StartingPoint(nbCustomer: int) returns (r: Result<seq<int>, StartError>)
    ensures r.Ok? <==> nbCustomer <= 90
    ensures r.Ok? ==> r.value == CustValues[..if nbCustomer < 0 then 0 else nbCustomer]
    ensures r.Err? ==> r.error == IndexOutOfBounds(90)
  {
    StartValues();
    r := StartFrom(CustValues, nbCustomer);
  }

  /** The starting values name warehouses `0 .. 29`, so the starting point is inside the
      assignment domain for every instance with at most 90 customers and at least 30
      warehouses, and outside it once a customer starting at warehouse 29 exists but there
      are fewer warehouses. */
  lemma StartInDomain(d: Plant)
    requires WellShaped(d) && d.nbCustomer <= |CustValues|
    ensures d.nbLocation >= 30 ==> CustInRange(d, CustValues[..d.nbCustomer])
    ensures d.nbCustomer > 4 && d.nbLocation < 30 ==> !CustInRange(d, CustValues[..d.nbCustomer])
  {
    StartValues();
    if d.nbLocation >= 30 {
      forall c | 0 <= c < d.nbCustomer
        ensures 0 <= CustValues[..d.nbCustomer][c] < d.nbLocation
      {
        assert CustValues[..d.nbCustomer][c] == CustValues[c];
      }
    }
    if d.nbCustomer > 4 {
      assert CustValues[..d.nbCustomer][4] == 29;
    }
  }
}
