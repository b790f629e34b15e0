/** The Java example's `BoundsCallback`, printing to the console; an exception from a
    solver query is reported on the error stream and ends the program with status -1. */
module JavaExampleCallbacks {
  import opened Wrappers
  import opened BoundsTracking
  import opened Registry

  const Header: seq<string> := ["Time\tLB\tUB\tGap", "============================="]

  /** What this copy prints: nothing before each event, the header, and an empty line at
      the end. */
  const ExampleTexts := Texts([], Header, [""])

  /** The error message, without the exception's own text. */
  const Fatal: string := "FATAL: Exception encountered during callback "

  class BoundsCallback {
    var lb: ExtReal
    var ub: ExtReal
    var gap: ExtReal

    function Fields(): Bounds
      reads this
    {
      Bounds(lb, ub, gap)
    }

    constructor()
      ensures Fields() == Unknown
    {
      lb, ub, gap := NegInf, PosInf, PosInf;
    }

    method Init()
      modifies this
      ensures Fields() == Unknown
    {
      lb := NegInf;
      ub := PosInf;
      gap := PosInf;
    }

    method Invoke(console: Console, c: Call)
      requires console.exitCode.None?
      modifies this, console
      ensures var r := Respond(old(Fields()), c, ExampleTexts);
              Fields() == r.bounds && console.out == old(console.out) + r.out
              && console.err == old(console.err) + (if r.raised then [Fatal] else [])
              && console.exitCode == (if r.raised then Some(-1) else None)
    {
      var s := c.solver;
      if c.reason == StartSolve {
        Init();
        console.out := console.out + [Line(Header[0])] + [Line(Header[1])];
        assert Lines(Header) == [Line(Header[0]), Line(Header[1])] by {
          assert Header[..1] == [Header[0]];
          assert Header[..1][..0] == [];
        }
      } else if c.reason == EndSolve {
        console.out := console.out + [Line("")];
        assert Lines([""]) == [Line("")] by { assert [""][..0] == []; }
      } else {
        assert Lines([]) == [];
        var soln := c.reason == Solution;
        var bnd := c.reason == ObjBound;
        if soln || bnd {
          if AboveNegInf(lb) && BelowPosInf(ub) {
            console.out := console.out + [Line("")];
          }
          if soln {
            if s.objValue.None? {
              Exit(console);
              return;
            }
            ub := s.objValue.value;
            if AboveNegInf(lb) {
              if s.objGap.None? {
                Exit(console);
                return;
              }
              gap := s.objGap.value;
            }
          } else if bnd {
            if s.objBound.None? {
              Exit(console);
              return;
            }
            lb := s.objBound.value;
            if BelowPosInf(ub) {
              if s.objGap.None? {
                Exit(console);
                return;
              }
              gap := s.objGap.value;
            }
          }
        }
        if AboveNegInf(lb) && BelowPosInf(ub) {
          if s.solveTime.None? {
            Exit(console);
            return;
          }
          console.out := console.out + [Status(s.solveTime.value, lb, ub, gap)];
        }
      }
    }
  }

  /** The `catch` block: report on the error stream and exit with status -1. */
  method Exit(console: Console)
    modifies console
    ensures console.out == old(console.out) && console.err == old(console.err) + [Fatal]
    ensures console.exitCode == Some(-1)
  {
    console.err := console.err + [Fatal];
    console.exitCode := Some(-1);
  }

  /** The part of the engine `SolveWithCallback` uses: its list of registered callbacks. */
  class Engine {
    var callbacks: seq<BoundsCallback>

    constructor()
      ensures callbacks == []
    {
      callbacks := [];
    }

    method AddCallback(cb: BoundsCallback)
      modifies this
      ensures callbacks == old(callbacks) + [cb]
    {
      callbacks := callbacks + [cb];
    }

    method RemoveCallback(cb: BoundsCallback)
      modifies this
      ensures callbacks == Without(old(callbacks), cb)
    {
      callbacks := Without(callbacks, cb);
    }
  }

  /** What the callback and the console hold after the first `k` calls of `calls`. */
  predicate Delivered(cb: BoundsCallback, console: Console, out0: seq<Event>, err0: seq<string>,
                      calls: seq<Call>, k: nat)
    requires k <= |calls|
    reads cb, console
  {
    var r := Run(Unknown, calls[..k], ExampleTexts);
    cb.Fields() == r.bounds && console.out == out0 + r.out
    && console.err == err0 + (if r.raised then [Fatal] else [])
    && console.exitCode == (if r.raised then Some(-1) else None)
  }

  /** The engine delivers call `k` to the callback. */
  method Deliver(cb: BoundsCallback, console: Console, ghost out0: seq<Event>, ghost err0: seq<string>,
                 calls: seq<Call>, k: nat)
    requires k < |calls| && console.exitCode.None? && Delivered(cb, console, out0, err0, calls, k)
    modifies cb, console
    ensures Delivered(cb, console, out0, err0, calls, k + 1)
    ensures console.exitCode.Some? ==> Run(Unknown, calls, ExampleTexts) == Run(Unknown, calls[..k + 1], ExampleTexts)
  {
    RunStep(Unknown, calls, k, ExampleTexts);
    cb.Invoke(console, calls[k]);
    if console.exitCode.Some? {
      RunRaisedStays(Unknown, calls, k + 1, ExampleTexts);
    }
  }

  /** `SolveWithCallback`: a fresh callback is registered, receives the events `calls` of
      one solve (the engine's own search is not modelled, so its deliveries are the
      parameter), and is removed again; the registered callbacks are then as before. An
      exception ends the program, and with it the solve. */
  method SolveWithCallback(cp: Engine, console: Console, calls: seq<Call>)
    requires console.exitCode.None?
    modifies cp, console
    ensures var r := Run(Unknown, calls, ExampleTexts);
            console.out == old(console.out) + r.out
            && console.err == old(console.err) + (if r.raised then [Fatal] else [])
            && console.exitCode == (if r.raised then Some(-1) else None)
            && (!r.raised ==> cp.callbacks == old(cp.callbacks))
  {
    var cb := new BoundsCallback();
    cp.AddCallback(cb);
    var k := 0;
    assert calls[..0] == [];
    while k < |calls| && console.exitCode.None?
      invariant 0 <= k <= |calls|
      invariant Delivered(cb, console, old(console.out), old(console.err), calls, k)
      invariant console.exitCode.Some? ==> Run(Unknown, calls, ExampleTexts) == Run(Unknown, calls[..k], ExampleTexts)
      invariant cp.callbacks == old(cp.callbacks) + [cb]
    {
      Deliver(cb, console, old(console.out), old(console.err), calls, k);
      k := k + 1;
    }
    if console.exitCode.Some? {
      return;
    }
    assert calls[..k] == calls;
    cp.RemoveCallback(cb);
    WithoutAdded(old(cp.callbacks), cb);
  }
}
