/** The second Java `BoundsCallback`: the same state machine as the example's, with a
    line announcing every invocation, its own header and an "End Callback" line. */
module SrcCallbacks {
  import opened Wrappers
  import opened BoundsTracking

  const Header: seq<string> := ["Time\tLB\tUB\tGAP", "=============================="]

  const Announce: string := "Using callbacks now!!!!"
  const EndLine: string := "End Callback"

  /** What this copy prints: the announcement before each event, the header, and the end
      line. */
  const SrcTexts := Texts([Announce], Header, [EndLine])

  /** The error message, without the exception's own text. */
  const Fatal: string := "FATAL:CallBack Wrong"

  class BoundsCallback {
    var lb: ExtReal
    var ub: ExtReal
    var gap: ExtReal

    function Fields(): Bounds
      reads this
    {
      Bounds(lb, ub, gap)
    }

    constructor()
      ensures Fields() == Unknown
    {
      lb, ub, gap := NegInf, PosInf, PosInf;
    }

    method Init()
      modifies this
      ensures Fields() == Unknown
    {
      lb := NegInf;
      ub := PosInf;
      gap := PosInf;
    }

    method Invoke(console: Console, c: Call)
      requires console.exitCode.None?
      modifies this, console
      ensures var r := Respond(old(Fields()), c, SrcTexts);
              Fields() == r.bounds && console.out == old(console.out) + r.out
              && console.err == old(console.err) + (if r.raised then [Fatal] else [])
              && console.exitCode == (if r.raised then Some(-1) else None)
    {
      console.out := console.out + [Line(Announce)];
      assert Lines([Announce]) == [Line(Announce)] by { assert [Announce][..0] == []; }
      RespondPreamble(Fields(), c, SrcTexts);
      Dispatch(console, c);
    }

    /** The branches of `invoke` after the announcement. */
    method Dispatch(console: Console, c: Call)
      requires console.exitCode.None?
      modifies this, console
      ensures var r := Respond(old(Fields()), c, SrcTexts.(preamble := []));
              Fields() == r.bounds && console.out == old(console.out) + r.out
              && console.err == old(console.err) + (if r.raised then [Fatal] else [])
              && console.exitCode == (if r.raised then Some(-1) else None)
    {
      var s := c.solver;
      assert Lines([]) == [];
      if c.reason == StartSolve {
        Init();
        console.out := console.out + [Line(Header[0])] + [Line(Header[1])];
        assert Lines(Header) == [Line(Header[0]), Line(Header[1])] by {
          assert Header[..1] == [Header[0]];
          assert Header[..1][..0] == [];
        }
      } else if c.reason == EndSolve {
        console.out := console.out + [Line(EndLine)];
        assert Lines([EndLine]) == [Line(EndLine)] by { assert [EndLine][..0] == []; }
      } else {
        var soln := c.reason == Solution;
        var bnd := c.reason == ObjBound;
        if soln || bnd {
          if AboveNegInf(lb) && BelowPosInf(ub) {
            console.out := console.out + [Line("")];
          }
          if soln {
            if s.objValue.None? {
              Exit(console);
              return;
            }
            ub := s.objValue.value;
            if AboveNegInf(lb) {
              if s.objGap.None? {
                Exit(console);
                return;
              }
              gap := s.objGap.value;
            }
          } else if bnd {
            if s.objBound.None? {
              Exit(console);
              return;
            }
            lb := s.objBound.value;
            if BelowPosInf(ub) {
              if s.objGap.None? {
                Exit(console);
                return;
              }
              gap := s.objGap.value;
            }
          }
        }
        if AboveNegInf(lb) && BelowPosInf(ub) {
          if s.solveTime.None? {
            Exit(console);
            return;
          }
          console.out := console.out + [Status(s.solveTime.value, lb, ub, gap)];
        }
      }
    }
  }

  /** The `catch` block: report on the error stream and exit with status -1. */
  method Exit(console: Console)
    modifies console
    ensures console.out == old(console.out) && console.err == old(console.err) + [Fatal]
    ensures console.exitCode == Some(-1)
  {
    console.err := console.err + [Fatal];
    console.exitCode := Some(-1);
  }
}
