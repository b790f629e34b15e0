/** The objective-bounds callback shared by the three `BoundsCallback` copies: three
    extended-real fields `lb`, `ub` and `gap`, with the infinities standing for "not known
    yet", updated once per solver event, and the lines each event writes. The class
    modules use this pure transition as their specification. */
module BoundsTracking {
  import opened Wrappers

  /** A double that may be one of the two infinities used as sentinels. */
  datatype ExtReal = NegInf | Finite(value: real) | PosInf

  /** `x > -infinity`. */
  predicate AboveNegInf(x: ExtReal) { !x.NegInf? }

  /** `x < +infinity`. */
  predicate BelowPosInf(x: ExtReal) { !x.PosInf? }

  /** Why the solver invokes the callback. */
  datatype Reason = StartSolve | EndSolve | Solution | ObjBound | OtherReason

  /** The three fields of the callback. */
  datatype Bounds = Bounds(lb: ExtReal, ub: ExtReal, gap: ExtReal)

  /** What `init` sets: nothing known. */
  const Unknown := Bounds(NegInf, PosInf, PosInf)

  /** A bound and a solution have both been communicated. */
  predicate BothKnown(b: Bounds)
  {
    AboveNegInf(b.lb) && BelowPosInf(b.ub)
  }

  /** The solver's answers to the callback's queries (`getObjValue`, `getObjBound`,
      `getObjGap`, the solve time); `None` is a query that throws. */
  datatype Solver = Solver(objValue: Option<ExtReal>, objBound: Option<ExtReal>,
                           objGap: Option<ExtReal>, solveTime: Option<real>)

  /** Every query succeeds. */
  predicate Answers(s: Solver)
  {
    s.objValue.Some? && s.objBound.Some? && s.objGap.Some? && s.solveTime.Some?
  }

  /** One invocation: the solver event and the solver's answers during it. */
  datatype Call = Call(reason: Reason, solver: Solver)

  /** Console output: a text line (the empty text is a bare newline), or the status line
      with the solve time, both bounds and the gap (its formatting is left out). */
  datatype Event = Line(text: string) | Status(time: real, lb: ExtReal, ub: ExtReal, gap: ExtReal)

  /** The texts one copy writes: lines before every event, the header at `StartSolve`
      and the lines at `EndSolve`. */
  datatype Texts = Texts(preamble: seq<string>, header: seq<string>, endSolve: seq<string>)

  function Lines(ts: seq<string>): (r: seq<Event>)
    ensures |r| == |ts|
  {
    if |ts| == 0 then [] else Lines(ts[..|ts| - 1]) + [Line(ts[|ts| - 1])]
  }

  /** The fields after an invocation, what it wrote, and whether a query threw on the way;
      when one did, the fields and the output are those at that point. */
  datatype Outcome = Outcome(bounds: Bounds, out: seq<Event>, raised: bool)

  /** The field update of a `Solution` or `ObjBound` event: the new upper (lower) bound,
      and the gap only when the other bound was already known. */
  function Update(b: Bounds, reason: Reason, s: Solver): Outcome
    requires reason == Solution || reason == ObjBound
  {
    if reason == Solution then
      match s.objValue
      case None => Outcome(b, [], true)
      case Some(v) =>
        if !AboveNegInf(b.lb) then Outcome(b.(ub := v), [], false)
        else if s.objGap.None? then Outcome(b.(ub := v), [], true)
        else Outcome(b.(ub := v, gap := s.objGap.value), [], false)
    else
      match s.objBound
      case None => Outcome(b, [], true)
      case Some(v) =>
        if !BelowPosInf(b.ub) then Outcome(b.(lb := v), [], false)
        else if s.objGap.None? then Outcome(b.(lb := v), [], true)
        else Outcome(b.(lb := v, gap := s.objGap.value), [], false)
  }

  /** The separator: a newline before an update when a status line is already showing. */
  function Separator(b: Bounds, reason: Reason): seq<Event>
  {
    if (reason == Solution || reason == ObjBound) && BothKnown(b) then [Line("")] else []
  }

  /** One invocation of `invoke` from the fields `b`. */
  function Respond(b: Bounds, c: Call, texts: Texts): Outcome
  {
    var pre := Lines(texts.preamble);
    if c.reason == StartSolve then Outcome(Unknown, pre + Lines(texts.header), false)
    else if c.reason == EndSolve then Outcome(b, pre + Lines(texts.endSolve), false)
    else
      var sep := Separator(b, c.reason);
      var u := if c.reason == Solution || c.reason == ObjBound then Update(b, c.reason, c.solver)
               else Outcome(b, [], false);
      if u.raised then Outcome(u.bounds, pre + sep, true)
      else if !BothKnown(u.bounds) then Outcome(u.bounds, pre + sep, false)
      else if c.solver.solveTime.None? then Outcome(u.bounds, pre + sep, true)
      else Outcome(u.bounds, pre + sep + [Status(c.solver.solveTime.value, u.bounds.lb, u.bounds.ub, u.bounds.gap)], false)
  }

  /** A sequence of invocations from the fields `b`, stopping at the first that throws. */
  function Run(b: Bounds, calls: seq<Call>, texts: Texts): Outcome
  {
    if |calls| == 0 then Outcome(b, [], false)
    else
      var p := Run(b, calls[..|calls| - 1], texts);
      if p.raised then p
      else
        var r := Respond(p.bounds, calls[|calls| - 1], texts);
        Outcome(r.bounds, p.out + r.out, r.raised)
  }

  predicate EndsWithStatus(out: seq<Event>)
  {
    |out| > 0 && out[|out| - 1].Status?
  }

  /** `StartSolve` forgets the fields, whatever they were, and writes the header. */
  lemma StartSolveResets(b: Bounds, s: Solver, texts: Texts)
    ensures Respond(b, Call(StartSolve, s), texts)
            == Outcome(Unknown, Lines(texts.preamble) + Lines(texts.header), false)
  {
  }

  /** `EndSolve` keeps the fields and only ends the line. */
  lemma EndSolveKeeps(b: Bounds, s: Solver, texts: Texts)
    ensures Respond(b, Call(EndSolve, s), texts)
            == Outcome(b, Lines(texts.preamble) + Lines(texts.endSolve), false)
  {
  }

  /** Any other reason than the four named ones leaves the fields as they were. */
  lemma OtherReasonKeeps(b: Bounds, s: Solver, texts: Texts)
    ensures Respond(b, Call(OtherReason, s), texts).bounds == b
  {
  }

  /** `Solution` sets the upper bound to the objective value, keeps the lower bound, and
      changes the gap only when the lower bound was already known. */
  lemma SolutionEffect(b: Bounds, s: Solver, texts: Texts)
    requires Answers(s)
    ensures var r := Respond(b, Call(Solution, s), texts);
            !r.raised && r.bounds.ub == s.objValue.value && r.bounds.lb == b.lb
            && r.bounds.gap == (if AboveNegInf(b.lb) then s.objGap.value else b.gap)
  {
  }

  /** `ObjBound` sets the lower bound to the objective bound, keeps the upper bound, and
      changes the gap only when the upper bound was already known. */
  lemma ObjBoundEffect(b: Bounds, s: Solver, texts: Texts)
    requires Answers(s)
    ensures var r := Respond(b, Call(ObjBound, s), texts);
            !r.raised && r.bounds.lb == s.objBound.value && r.bounds.ub == b.ub
            && r.bounds.gap == (if BelowPosInf(b.ub) then s.objGap.value else b.gap)
  {
  }

  /** The gap never changes unless the bound the event does not set was known. */
  lemma GapGuarded(b: Bounds, c: Call, texts: Texts)
    requires c.reason != StartSolve
    ensures var r := Respond(b, c, texts);
            r.bounds.gap != b.gap ==>
              (c.reason == Solution && AboveNegInf(b.lb)) || (c.reason == ObjBound && BelowPosInf(b.ub))
  {
  }

  /** After the preamble, an update writes a separator newline exactly when both bounds
      were known before the event. */
  lemma SeparatorIff(b: Bounds, c: Call, texts: Texts)
    requires c.reason == Solution || c.reason == ObjBound
    ensures var r := Respond(b, c, texts);
            var k := |texts.preamble|;
            (|r.out| > k && r.out[k] == Line("")) <==> BothKnown(b)
  {
    var r := Respond(b, c, texts);
    var pre := Lines(texts.preamble);
    var sep := Separator(b, c.reason);
    assert r.out[..|pre|] == pre;
    if |r.out| > |pre| {
      assert r.out[|pre|] == (r.out[|pre|..])[0];
      assert r.out[|pre|..] == sep || r.out[|pre|..] == sep + [r.out[|r.out| - 1]];
    }
  }

  /** An event other than `StartSolve` and `EndSolve` ends with a status line exactly when
      both bounds are known after it, provided the solver answers. */
  lemma StatusIff(b: Bounds, c: Call, texts: Texts)
    requires c.reason != StartSolve && c.reason != EndSolve && Answers(c.solver)
    ensures var r := Respond(b, c, texts);
            !r.raised && (EndsWithStatus(r.out) <==> BothKnown(r.bounds))
  {
    var r := Respond(b, c, texts);
    var pre := Lines(texts.preamble);
    LinesAreLines(texts.preamble);
    if !BothKnown(r.bounds) && |r.out| > 0 {
      var sep := Separator(b, c.reason);
      assert r.out == pre + sep;
      if |sep| == 0 {
        assert r.out[|r.out| - 1] == pre[|pre| - 1];
      }
    }
  }

  lemma {:induction false} LinesAreLines(ts: seq<string>)
    ensures forall i :: 0 <= i < |Lines(ts)| ==> Lines(ts)[i] == Line(ts[i])
  {
    if |ts| > 0 {
      LinesAreLines(ts[..|ts| - 1]);
    }
  }

  /** An invocation throws only when one of the solver's answers is missing. */
  lemma RaisesOnlyOnFailure(b: Bounds, c: Call, texts: Texts)
    requires Answers(c.solver)
    ensures !Respond(b, c, texts).raised
  {
  }

  /** The solver reports finite objective values and bounds. */
  predicate FiniteAnswers(s: Solver)
  {
    (s.objValue.Some? ==> s.objValue.value.Finite?) && (s.objBound.Some? ==> s.objBound.value.Finite?)
  }

  /** A gap other than the initial one is only ever held once both bounds are known. */
  predicate GapMeaningful(b: Bounds)
  {
    b.gap != PosInf ==> BothKnown(b)
  }

  /** Every event, including one that throws half-way, keeps `GapMeaningful`. */
  lemma GapMeaningfulPreserved(b: Bounds, c: Call, texts: Texts)
    requires GapMeaningful(b) && FiniteAnswers(c.solver)
    ensures GapMeaningful(Respond(b, c, texts).bounds)
  {
  }

  /** A run that begins with `StartSolve` does not depend on the fields before it. */
  lemma {:induction false} RunForgetsPast(b1: Bounds, b2: Bounds, calls: seq<Call>, texts: Texts)
    requires |calls| > 0 && calls[0].reason == StartSolve
    ensures Run(b1, calls, texts) == Run(b2, calls, texts)
  {
    if |calls| > 1 {
      var init := calls[..|calls| - 1];
      assert init[0] == calls[0];
      RunForgetsPast(b1, b2, init, texts);
    } else {
      assert calls[..0] == [];
    }
  }

  /** A run keeps `GapMeaningful` from its start to its end. */
  lemma {:induction false} RunGapMeaningful(b: Bounds, calls: seq<Call>, texts: Texts)
    requires GapMeaningful(b)
    requires forall k :: 0 <= k < |calls| ==> FiniteAnswers(calls[k].solver)
    ensures GapMeaningful(Run(b, calls, texts).bounds)
  {
    if |calls| > 0 {
      var init := calls[..|calls| - 1];
      RunGapMeaningful(b, init, texts);
      GapMeaningfulPreserved(Run(b, init, texts).bounds, calls[|calls| - 1], texts);
    }
  }

  /** Running one more call extends the run. */
  lemma RunStep(b: Bounds, calls: seq<Call>, k: nat, texts: Texts)
    requires k < |calls|
    ensures var p := Run(b, calls[..k], texts);
            Run(b, calls[..k + 1], texts)
              == if p.raised then p
                 else var r := Respond(p.bounds, calls[k], texts); Outcome(r.bounds, p.out + r.out, r.raised)
  {
    assert calls[..k + 1][..k] == calls[..k];
  }

  /** The preamble is written first and does not change what follows it. */
  lemma RespondPreamble(b: Bounds, c: Call, texts: Texts)
    ensures var r0 := Respond(b, c, texts.(preamble := []));
            Respond(b, c, texts) == Outcome(r0.bounds, Lines(texts.preamble) + r0.out, r0.raised)
  {
    assert Lines([]) == [];
  }

  /** Once an invocation has thrown, the rest of the calls are never made. */
  lemma {:induction false} RunRaisedStays(b: Bounds, calls: seq<Call>, k: nat, texts: Texts)
    requires k <= |calls| && Run(b, calls[..k], texts).raised
    ensures Run(b, calls, texts) == Run(b, calls[..k], texts)
    decreases |calls| - k
  {
    if k < |calls| {
      RunStep(b, calls, k, texts);
      RunRaisedStays(b, calls, k + 1, texts);
    } else {
      assert calls[..k] == calls;
    }
  }

  /** The Java programs' standard streams and exit status. */
  class Console {
    var out: seq<Event>
    var err: seq<string>
    var exitCode: Option<int>

    constructor()
      ensures out == [] && err == [] && exitCode == None
    {
      out := [];
      err := [];
      exitCode := None;
    }
  }
}
