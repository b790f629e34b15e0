/** The C++ `BoundsCallback`: it writes to the output stream it was built with, and a
    guard object puts the stream's format flags back however `invoke` is left. A query
    that throws leaves `invoke` by an exception, which the model returns as `raised`. */
module CppCallbacks {
  import opened BoundsTracking
  import opened Registry

  /** The floating-point notation held in a stream's format flags. */
  datatype FloatField = DefaultFloat | Fixed | Scientific | HexFloat

  /** The part of an output stream the callback touches. */
  class OStream {
    var floatField: FloatField
    var precision: int
    var text: seq<Event>

    constructor(floatField: FloatField, precision: int)
      ensures this.floatField == floatField && this.precision == precision && text == []
    {
      this.floatField := floatField;
      this.precision := precision;
      text := [];
    }
  }

  const Header: seq<string> := ["Time\tLB\tUB\tGap", "============================="]

  /** What this copy writes: nothing before each event, the header, and `endl` at the end. */
  const CppTexts := Texts([], Header, [""])

  class BoundsCallback {
    const out: OStream
    var lb: ExtReal
    var ub: ExtReal
    var gap: ExtReal

    function Fields(): Bounds
      reads this
    {
      Bounds(lb, ub, gap)
    }

    constructor(out: OStream)
      ensures this.out == out && Fields() == Unknown
    {
      this.out := out;
      lb, ub, gap := NegInf, PosInf, PosInf;
    }

    method Init()
      modifies this
      ensures Fields() == Unknown
    {
      lb := NegInf;
      ub := PosInf;
      gap := PosInf;
    }

    method Invoke(c: Call) returns (raised: bool)
      modifies this, out
      ensures var r := Respond(old(Fields()), c, CppTexts);
              Fields() == r.bounds && out.text == old(out.text) + r.out && raised == r.raised
      ensures out.floatField == old(out.floatField)
      ensures !raised ==> out.precision == old(out.precision)
      ensures raised ==> out.precision == old(out.precision) || out.precision == 1
    {
      var flags := out.floatField;
      ghost var b := Fields();
      var s := c.solver;
      raised := false;
      if c.reason == StartSolve {
        Init();
        out.text := out.text + [Line(Header[0])] + [Line(Header[1])];
        assert Lines(Header) == [Line(Header[0]), Line(Header[1])] by {
          assert Header[..1] == [Header[0]];
          assert Header[..1][..0] == [];
        }
      } else if c.reason == EndSolve {
        out.text := out.text + [Line("")];
        assert Lines([""]) == [Line("")] by { assert [""][..0] == []; }
      } else {
        assert Lines([]) == [];
        var soln := c.reason == Solution;
        var bnd := c.reason == ObjBound;
        if soln || bnd {
          if AboveNegInf(lb) && BelowPosInf(ub) {
            out.text := out.text + [Line("")];
          }
          if soln {
            if s.objValue.None? {
              out.floatField := flags;
              return true;
            }
            ub := s.objValue.value;
            if AboveNegInf(lb) {
              if s.objGap.None? {
                out.floatField := flags;
                return true;
              }
              gap := s.objGap.value;
            }
          } else if bnd {
            if s.objBound.None? {
              out.floatField := flags;
              return true;
            }
            lb := s.objBound.value;
            if BelowPosInf(ub) {
              if s.objGap.None? {
                out.floatField := flags;
                return true;
              }
              gap := s.objGap.value;
            }
          }
        }
        if AboveNegInf(lb) && BelowPosInf(ub) {
          var p := out.precision;
          out.floatField := Fixed;
          out.precision := 1;
          if s.solveTime.None? {
            out.floatField := flags;
            return true;
          }
          out.precision := 0;
          out.precision := 1;
          out.text := out.text + [Status(s.solveTime.value, lb, ub, gap)];
          out.precision := p;
        }
      }
      out.floatField := flags;
    }
  }

  /** What the callback and its stream hold after the first `k` calls of `calls`. */
  predicate Delivered(cb: BoundsCallback, text0: seq<Event>, calls: seq<Call>, k: nat, raised: bool)
    requires k <= |calls|
    reads cb, cb.out
  {
    var r := Run(Unknown, calls[..k], CppTexts);
    cb.Fields() == r.bounds && cb.out.text == text0 + r.out && raised == r.raised
  }

  /** The engine delivers call `k` to the callback. */
  method Deliver(cb: BoundsCallback, ghost text0: seq<Event>, calls: seq<Call>, k: nat) returns (raised: bool)
    requires k < |calls| && Delivered(cb, text0, calls, k, false)
    modifies cb, cb.out
    ensures Delivered(cb, text0, calls, k + 1, raised)
    ensures raised ==> Run(Unknown, calls, CppTexts) == Run(Unknown, calls[..k + 1], CppTexts)
    ensures cb.out.floatField == old(cb.out.floatField)
  {
    RunStep(Unknown, calls, k, CppTexts);
    raised := cb.Invoke(calls[k]);
    if raised {
      RunRaisedStays(Unknown, calls, k + 1, CppTexts);
    }
  }

  /** The part of the engine `SolveWithCallback` uses: its output stream `cp.out()` and
      its list of registered callbacks. */
  class Engine {
    const out: OStream
    var callbacks: seq<BoundsCallback>

    constructor(out: OStream)
      ensures this.out == out && callbacks == []
    {
      this.out := out;
      callbacks := [];
    }

    method AddCallback(cb: BoundsCallback)
      modifies this
      ensures callbacks == old(callbacks) + [cb]
    {
      callbacks := callbacks + [cb];
    }

    method RemoveCallback(cb: BoundsCallback)
      modifies this
      ensures callbacks == Without(old(callbacks), cb)
    {
      callbacks := Without(callbacks, cb);
    }
  }

  /** `SolveWithCallback`: a fresh callback on the engine's stream is registered, receives
      the events `calls` of one solve (the engine's own search is not modelled, so its
      deliveries are the parameter), and is removed again, leaving the registered callbacks
      as before. An exception ends the loop, as it leaves `solve`, and skips the removal:
      the callback then stays registered after the others. */
  method SolveWithCallback(cp: Engine, calls: seq<Call>) returns (raised: bool)
    modifies cp, cp.out
    ensures var r := Run(Unknown, calls, CppTexts);
            cp.out.text == old(cp.out.text) + r.out && raised == r.raised
    ensures cp.out.floatField == old(cp.out.floatField)
    ensures !raised ==> cp.callbacks == old(cp.callbacks)
    ensures raised ==> |cp.callbacks| == |old(cp.callbacks)| + 1
                       && cp.callbacks[..|old(cp.callbacks)|] == old(cp.callbacks)
  {
    var cb := new BoundsCallback(cp.out);
    cp.AddCallback(cb);
    raised := false;
    var k := 0;
    assert calls[..0] == [];
    while k < |calls| && !raised
      invariant 0 <= k <= |calls|
      invariant cb.out == cp.out
      invariant Delivered(cb, old(cp.out.text), calls, k, raised)
      invariant raised ==> Run(Unknown, calls, CppTexts) == Run(Unknown, calls[..k], CppTexts)
      invariant cp.out.floatField == old(cp.out.floatField)
      invariant cp.callbacks == old(cp.callbacks) + [cb]
    {
      raised := Deliver(cb, old(cp.out.text), calls, k);
      k := k + 1;
    }
    if raised {
      assert cp.callbacks[..|old(cp.callbacks)|] == old(cp.callbacks);
      return;
    }
    assert calls[..k] == calls;
    cp.RemoveCallback(cb);
    WithoutAdded(old(cp.callbacks), cb);
  }
}
