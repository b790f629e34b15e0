/** The engine's list of registered callbacks, shared by the C++ and the Java copy:
    `addCallback` appends, `removeCallback` takes every registration of the callback out. */
module Registry {

  /** `cbs` with every occurrence of `cb` taken out. */
  function Without<T(==)>(cbs: seq<T>, cb: T): (r: seq<T>)
    ensures cb !in r
    ensures forall i :: 0 <= i < |r| ==> r[i] in cbs
    ensures forall i :: 0 <= i < |cbs| && cbs[i] != cb ==> cbs[i] in r
  {
    if |cbs| == 0 then []
    else Without(cbs[..|cbs| - 1], cb) + (if cbs[|cbs| - 1] == cb then [] else [cbs[|cbs| - 1]])
  }

  /** Taking out a callback that was added last to a list without it gives the list back. */
  lemma WithoutAdded<T>(cbs: seq<T>, cb: T)
    requires cb !in cbs
    ensures Without(cbs + [cb], cb) == cbs
  {
    assert (cbs + [cb])[..|cbs|] == cbs;
    WithoutAbsent(cbs, cb);
  }

  lemma {:induction false} WithoutAbsent<T>(cbs: seq<T>, cb: T)
    requires cb !in cbs
    ensures Without(cbs, cb) == cbs
  {
    if |cbs| > 0 {
      WithoutAbsent(cbs[..|cbs| - 1], cb);
    }
  }
}
