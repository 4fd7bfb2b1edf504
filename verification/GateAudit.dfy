/**
 The audit record of a gate evaluation, the link from a re-evaluation to the failure it
 repairs, and the guard that decides whether a record can be reconstructed.
 */
module GateAudit {
  import opened Wrappers
  import opened JsText
  import opened Json
  import opened CanonicalText
  import opened Hashing
  import opened Concatenation
  import opened GateVerdict
  import opened GateContext
  import opened GateEngine
  import opened GateEngineProofs

  // ------------------------------------------------------------------- linkage

  datatype PriorFailure = PriorFailure(
    eventId: Option<string>, verdict: Verdict, instruction: Option<Instruction>,
    repairTask: Option<RepairTask>, causationId: Option<string>)

  datatype Link = Link(
    gateId: string, phase: string, decisionHash: string, findingIds: seq<string>,
    createdFromFindingIds: seq<string>, eventId: Option<string>, repairTaskId: Option<string>,
    successGate: Option<string>, causationId: Option<string>)

  datatype Context = Context(isReevaluation: bool, priorFailure: Option<PriorFailure>, causationId: Option<string>)

  /** There is a prior failing verdict with findings to link to. */
  predicate Linkable(c: Context) {
    c.isReevaluation && c.priorFailure.Some?
    && c.priorFailure.value.verdict.body.status == Fail && c.priorFailure.value.verdict.body.findings != []
  }

  function PriorTask(p: PriorFailure): Option<RepairTask> {
    if p.repairTask.Some? then p.repairTask
    else match p.instruction
      case Some(CreateRepairTask(_, task)) => Some(task)
      case _ => None
  }

  /** `linkReevaluation` */
  function LinkReevaluation(c: Context): Option<Link> {
    if !Linkable(c) then None
    else
      var prior := c.priorFailure.value;
      var task := PriorTask(prior);
      var ids := FindingIds(prior.verdict.body.findings);
      var repaired := if task.Some? then task.value.createdFromFindingIds else [];
      Some(Link(prior.verdict.body.gateId, prior.verdict.body.phase, prior.verdict.decisionHash, ids,
                if repaired == [] then ids else repaired, prior.eventId,
                if task.Some? then Some(task.value.id) else None,
                if task.Some? then Some(task.value.successGate) else None,
                OrElse(c.causationId, prior.causationId)))
  }

  /** The code `unlinked_reevaluation_pass`: a gap in the record. */
  datatype Gap = UnlinkedReevaluationPass(gateId: string, decisionHash: string)

  /** `assertLinkable` */
  function GapsOf(c: Context, v: Verdict): seq<Gap> {
    if c.isReevaluation && v.body.status == Pass && LinkReevaluation(c).None?
    then [UnlinkedReevaluationPass(v.body.gateId, v.decisionHash)] else []
  }

  // -------------------------------------------------------------------- records

  datatype EvaluatedPayload = EvaluatedPayload(
    gateId: string, verdict: Verdict, instruction: Instruction, calls: Option<seq<ModelCall>>,
    link: Option<Link>, gaps: seq<Gap>)

  datatype SiblingKind =
    | DefinitionMissingEvent | CheckUnsupportedEvent | InputMissingEvent
    | RepairTaskCreatedEvent | ReviewRequestedEvent | RunFailedEvent

  /** A sibling event of the engine has no instruction in its payload; one from elsewhere may. */
  datatype Event =
    | Evaluated(payload: EvaluatedPayload)
    | Sibling(kind: SiblingKind, gateId: string, decisionHash: string, instruction: Option<Instruction>)

  datatype SpanKind = GateSpan | InputResolutionSpan | CheckSpan | ToolSpan

  /** A span with the metadata that the guard reads. */
  datatype Span = Span(kind: SpanKind, checkId: Option<string>, modelCallId: Option<string>, rubricRef: Option<string>)

  datatype Record = Record(events: seq<Event>, spans: seq<Span>, gaps: seq<Gap>)

  /** What the audit itself finds out about the request: unsupported checks and missing inputs. */
  datatype Observed = Observed(unsupportedChecks: bool, missingInputs: bool)

  function SiblingOf(kind: SiblingKind, v: Verdict): Event {
    Sibling(kind, v.body.gateId, v.decisionHash, None)
  }

  function InstructionSiblings(v: Verdict, instruction: Instruction): seq<Event> {
    match instruction
    case CreateRepairTask(_, _) => [SiblingOf(RepairTaskCreatedEvent, v)]
    case PauseForHuman(_, _) => [SiblingOf(ReviewRequestedEvent, v)]
    case RequestApproval(_, _) => [SiblingOf(ReviewRequestedEvent, v)]
    case FailRun(_, _) => [SiblingOf(RunFailedEvent, v)]
    case _ => []
  }

  predicate HasFinding(v: Verdict, id: string) {
    exists i :: 0 <= i < |v.body.findings| && v.body.findings[i].id == id
  }

  /** `siblingEventProjections` */
  function Siblings(r: GateResult, observed: Observed): seq<Event> {
    (if HasFinding(r.verdict, "gate.definition.missing") then [SiblingOf(DefinitionMissingEvent, r.verdict)] else [])
    + (if observed.unsupportedChecks then [SiblingOf(CheckUnsupportedEvent, r.verdict)] else [])
    + (if observed.missingInputs then [SiblingOf(InputMissingEvent, r.verdict)] else [])
    + InstructionSiblings(r.verdict, r.instruction)
  }

  function CheckSpans(checks: seq<Check>): seq<Span> {
    seq(|checks|, i requires 0 <= i < |checks| => Span(CheckSpan, Some(checks[i].id), None, None))
  }

  function ToolSpanFor(call: ModelCall): Span {
    Span(ToolSpan, Some(call.checkId), Some(call.modelCallId), Some(call.rubric.ref))
  }

  function ToolSpans(calls: seq<ModelCall>): seq<Span> {
    seq(|calls|, i requires 0 <= i < |calls| => ToolSpanFor(calls[i]))
  }

  function SpansFor(checks: seq<Check>, calls: seq<ModelCall>): seq<Span> {
    [Span(GateSpan, None, None, None), Span(InputResolutionSpan, None, None, None)] + CheckSpans(checks) + ToolSpans(calls)
  }

  /** `spanDescriptorsFor` */
  method SpanDescriptorsFor(checks: seq<Check>, calls: seq<ModelCall>) returns (spans: seq<Span>)
    ensures spans == SpansFor(checks, calls)
  {
    spans := [Span(GateSpan, None, None, None), Span(InputResolutionSpan, None, None, None)];
    for i := 0 to |checks|
      invariant spans == [Span(GateSpan, None, None, None), Span(InputResolutionSpan, None, None, None)] + CheckSpans(checks[..i])
    {
      spans := spans + [Span(CheckSpan, Some(checks[i].id), None, None)];
    }
    assert checks[..|checks|] == checks;
    for i := 0 to |calls|
      invariant spans == SpansFor(checks, calls[..i])
    {
      spans := spans + [ToolSpanFor(calls[i])];
    }
    assert calls[..|calls|] == calls;
  }

  function CallsOf(calls: Option<seq<ModelCall>>): seq<ModelCall> {
    calls.GetOr([])
  }

  /** `buildGateAuditRecord` */
  function BuildRecord(r: GateResult, checks: seq<Check>, c: Context, observed: Observed): Record {
    var gaps := GapsOf(c, r.verdict);
    Record([Evaluated(EvaluatedPayload(r.verdict.body.gateId, r.verdict, r.instruction, r.calls, LinkReevaluation(c), gaps))]
           + Siblings(r, observed),
           SpansFor(checks, CallsOf(r.calls)), gaps)
  }

  // ---------------------------------------------------------------------- guard

  datatype GuardFinding =
    | MissingGateEvaluated(gateId: string)
    | DecisionHashMismatch(gateId: string, decisionHash: string)
    | ToolSpanMissing(checkId: string)
    | RubricMissing(checkId: string)
    | UnlinkedPass(gateId: string)

  function InstructionOf(e: Event): Option<Instruction> {
    if e.Evaluated? then Some(e.payload.instruction) else e.instruction
  }

  predicate HasEvaluated(events: seq<Event>, gateId: string) {
    exists i :: 0 <= i < |events| && events[i].Evaluated? && events[i].payload.gateId == gateId
  }

  function AdvanceFindings(all: seq<Event>, e: Event): seq<GuardFinding> {
    var instruction := InstructionOf(e);
    if instruction.Some? && Advances(instruction.value) && !e.Evaluated? && !HasEvaluated(all, instruction.value.gateId)
    then [MissingGateEvaluated(instruction.value.gateId)] else []
  }

  function FirstToolSpan(spans: seq<Span>, call: ModelCall): Option<Span> {
    if spans == [] then None
    else if spans[0].kind == ToolSpan && spans[0].checkId == Some(call.checkId) && spans[0].modelCallId == Some(call.modelCallId)
    then Some(spans[0])
    else FirstToolSpan(spans[1..], call)
  }

  function CallFindings(spans: seq<Span>, call: ModelCall): seq<GuardFinding> {
    var span := FirstToolSpan(spans, call);
    (if span.None? then [ToolSpanMissing(call.checkId)] else [])
    + (if !GoodRubric(call.rubric) || span.None? || span.value.rubricRef != Some(call.rubric.ref)
       then [RubricMissing(call.checkId)] else [])
  }

  function EachCall(spans: seq<Span>, calls: seq<ModelCall>): seq<seq<GuardFinding>> {
    seq(|calls|, i requires 0 <= i < |calls| => CallFindings(spans, calls[i]))
  }

  function AllCallFindings(spans: seq<Span>, calls: seq<ModelCall>): seq<GuardFinding> {
    Flat(EachCall(spans, calls))
  }

  /** Recomputation of a verdict's hash, as the guard applies it. */
  type Recomputation = Verdict -> bool

  function RecomputationWith(sha: Sha): Recomputation {
    (v: Verdict) => Recomputes(sha, v)
  }

  function HashFindings(recompute: Recomputation, v: Verdict): seq<GuardFinding> {
    if recompute(v) then [] else [DecisionHashMismatch(v.body.gateId, v.decisionHash)]
  }

  function GapFindings(p: EvaluatedPayload): seq<GuardFinding> {
    if p.verdict.body.status == Pass && p.gaps != [] then [UnlinkedPass(p.verdict.body.gateId)] else []
  }

  function EvaluatedFindings(recompute: Recomputation, spans: seq<Span>, p: EvaluatedPayload): seq<GuardFinding> {
    HashFindings(recompute, p.verdict) + AllCallFindings(spans, CallsOf(p.calls)) + GapFindings(p)
  }

  function EachAdvance(events: seq<Event>): seq<seq<GuardFinding>> {
    seq(|events|, i requires 0 <= i < |events| => AdvanceFindings(events, events[i]))
  }

  function EventFindings(recompute: Recomputation, spans: seq<Span>, e: Event): seq<GuardFinding> {
    if e.Evaluated? then EvaluatedFindings(recompute, spans, e.payload) else []
  }

  function EachEvaluated(recompute: Recomputation, spans: seq<Span>, events: seq<Event>): seq<seq<GuardFinding>> {
    seq(|events|, i requires 0 <= i < |events| => EventFindings(recompute, spans, events[i]))
  }

  function GuardFindings(recompute: Recomputation, events: seq<Event>, spans: seq<Span>): seq<GuardFinding> {
    Flat(EachAdvance(events)) + Flat(EachEvaluated(recompute, spans, events))
  }

  method CheckCall(spans: seq<Span>, call: ModelCall, before: seq<GuardFinding>) returns (findings: seq<GuardFinding>)
    ensures findings == before + CallFindings(spans, call)
  {
    findings := before;
    var toolSpan := FirstToolSpan(spans, call);
    if toolSpan.None? {
      findings := findings + [ToolSpanMissing(call.checkId)];
    }
    if !GoodRubric(call.rubric) || toolSpan.None? || toolSpan.value.rubricRef != Some(call.rubric.ref) {
      findings := findings + [RubricMissing(call.checkId)];
    }
  }

  /** The inner loop of the guard, over the model calls of one evaluation. */
  method CheckCalls(spans: seq<Span>, calls: seq<ModelCall>, before: seq<GuardFinding>) returns (findings: seq<GuardFinding>)
    ensures findings == before + AllCallFindings(spans, calls)
  {
    findings := before;
    ghost var parts := EachCall(spans, calls);
    var i := 0;
    while i < |calls|
      invariant i <= |calls| == |parts|
      invariant findings == before + Flat(parts[..i])
    {
      FlatNext(parts, i);
      findings := CheckCall(spans, calls[i], findings);
      i := i + 1;
    }
    FlatAll(parts);
  }

  method CheckEvaluated(recompute: Recomputation, spans: seq<Span>, payload: EvaluatedPayload, before: seq<GuardFinding>)
    returns (findings: seq<GuardFinding>)
    ensures findings == before + EvaluatedFindings(recompute, spans, payload)
  {
    var verdict := payload.verdict;
    findings := before;
    if !recompute(verdict) {
      findings := findings + [DecisionHashMismatch(verdict.body.gateId, verdict.decisionHash)];
    }
    findings := CheckCalls(spans, CallsOf(payload.calls), findings);
    if verdict.body.status == Pass && payload.gaps != [] {
      findings := findings + [UnlinkedPass(verdict.body.gateId)];
    }
  }

  method CheckEvent(recompute: Recomputation, spans: seq<Span>, e: Event, before: seq<GuardFinding>)
    returns (findings: seq<GuardFinding>)
    ensures findings == before + EventFindings(recompute, spans, e)
  {
    findings := before;
    if e.Evaluated? {
      findings := CheckEvaluated(recompute, spans, e.payload, findings);
    }
  }

  /** The first loop of the guard: advancing instructions need an evaluation of their gate. */
  method CheckAdvances(events: seq<Event>) returns (findings: seq<GuardFinding>)
    ensures findings == Flat(EachAdvance(events))
  {
    findings := [];
    ghost var parts := EachAdvance(events);
    var i := 0;
    while i < |events|
      invariant i <= |events| == |parts|
      invariant findings == Flat(parts[..i])
    {
      FlatNext(parts, i);
      var instruction := InstructionOf(events[i]);
      if instruction.Some? && Advances(instruction.value) && !events[i].Evaluated?
         && !HasEvaluated(events, instruction.value.gateId) {
        findings := findings + [MissingGateEvaluated(instruction.value.gateId)];
      }
      i := i + 1;
    }
    FlatAll(parts);
  }

  /** `assertGateAuditReconstructable` */
  method AssertGateAuditReconstructable(recompute: Recomputation, events: seq<Event>, spans: seq<Span>) returns (findings: seq<GuardFinding>)
    ensures findings == GuardFindings(recompute, events, spans)
  {
    findings := CheckAdvances(events);
    ghost var advance, parts := findings, EachEvaluated(recompute, spans, events);
    var i := 0;
    while i < |events|
      invariant i <= |events| == |parts|
      invariant findings == advance + Flat(parts[..i])
    {
      AppendNext(advance, parts, i);
      findings := CheckEvent(recompute, spans, events[i], findings);
      i := i + 1;
    }
    FlatAll(parts);
  }

  // --------------------------------------------------------------------- theorems

  /** The calls of one check id and call id share a rubric reference. */
  predicate Unambiguous(calls: seq<ModelCall>) {
    forall i, j :: 0 <= i < j < |calls| && calls[i].checkId == calls[j].checkId && calls[i].modelCallId == calls[j].modelCallId
      ==> calls[i].rubric.ref == calls[j].rubric.ref
  }

  predicate GoodRubrics(calls: seq<ModelCall>) {
    forall i :: 0 <= i < |calls| ==> GoodRubric(calls[i].rubric)
  }

  lemma {:induction false} SkipOtherSpans(others: seq<Span>, rest: seq<Span>, call: ModelCall)
    requires forall i :: 0 <= i < |others| ==> others[i].kind != ToolSpan
    ensures FirstToolSpan(others + rest, call) == FirstToolSpan(rest, call)
  {
    if others == [] {
      assert others + rest == rest;
    } else {
      assert (others + rest)[1..] == others[1..] + rest;
      SkipOtherSpans(others[1..], rest, call);
    }
  }

  /** The span found for a call is that of the first call with its two ids. */
  lemma {:induction false} SpanOfFirst(calls: seq<ModelCall>, j: nat) returns (i: nat)
    requires j < |calls|
    ensures i <= j && calls[i].checkId == calls[j].checkId && calls[i].modelCallId == calls[j].modelCallId
    ensures FirstToolSpan(ToolSpans(calls), calls[j]) == Some(ToolSpanFor(calls[i]))
  {
    assert ToolSpans(calls)[1..] == ToolSpans(calls[1..]);
    if calls[0].checkId == calls[j].checkId && calls[0].modelCallId == calls[j].modelCallId {
      i := 0;
    } else {
      i := SpanOfFirst(calls[1..], j - 1);
      i := i + 1;
    }
  }

  lemma BuiltCallFindings(checks: seq<Check>, calls: seq<ModelCall>, j: nat) returns (i: nat)
    requires j < |calls| && GoodRubrics(calls)
    ensures i <= j && calls[i].checkId == calls[j].checkId && calls[i].modelCallId == calls[j].modelCallId
    ensures CallFindings(SpansFor(checks, calls), calls[j]) ==
      if calls[i].rubric.ref == calls[j].rubric.ref then [] else [RubricMissing(calls[j].checkId)]
  {
    var others := [Span(GateSpan, None, None, None), Span(InputResolutionSpan, None, None, None)] + CheckSpans(checks);
    SkipOtherSpans(others, ToolSpans(calls), calls[j]);
    i := SpanOfFirst(calls, j);
  }

  /** The guard accepts the model calls of a built record exactly when they are unambiguous. */
  lemma CallsAcceptedExactly(checks: seq<Check>, calls: seq<ModelCall>)
    requires GoodRubrics(calls)
    ensures AllCallFindings(SpansFor(checks, calls), calls) == [] <==> Unambiguous(calls)
  {
    var spans := SpansFor(checks, calls);
    var parts := EachCall(spans, calls);
    FlatEmpty(parts);
    assert forall j :: 0 <= j < |calls| ==> parts[j] == CallFindings(spans, calls[j]);
    if Unambiguous(calls) {
      forall j | 0 <= j < |calls|
        ensures CallFindings(spans, calls[j]) == []
      {
        var i := BuiltCallFindings(checks, calls, j);
      }
    }
    if forall j :: 0 <= j < |calls| ==> CallFindings(spans, calls[j]) == [] {
      forall i, j | 0 <= i < j < |calls| && calls[i].checkId == calls[j].checkId && calls[i].modelCallId == calls[j].modelCallId
        ensures calls[i].rubric.ref == calls[j].rubric.ref
      {
        SameFirst(checks, calls, i, j);
      }
    }
  }

  lemma SameFirst(checks: seq<Check>, calls: seq<ModelCall>, i: nat, j: nat)
    requires GoodRubrics(calls) && i < j < |calls|
    requires calls[i].checkId == calls[j].checkId && calls[i].modelCallId == calls[j].modelCallId
    requires CallFindings(SpansFor(checks, calls), calls[i]) == [] && CallFindings(SpansFor(checks, calls), calls[j]) == []
    ensures calls[i].rubric.ref == calls[j].rubric.ref
  {
    SameSpan(SpansFor(checks, calls), calls[i], calls[j]);
  }

  lemma {:induction false} SameSpan(spans: seq<Span>, a: ModelCall, b: ModelCall)
    requires a.checkId == b.checkId && a.modelCallId == b.modelCallId
    ensures FirstToolSpan(spans, a) == FirstToolSpan(spans, b)
  {
    if spans != [] {
      SameSpan(spans[1..], a, b);
    }
  }

  lemma NoAdvanceFindings(events: seq<Event>)
    requires forall i :: 0 <= i < |events| ==> events[i].Evaluated? || events[i].instruction.None?
    ensures Flat(EachAdvance(events)) == []
  {
    FlatEmpty(EachAdvance(events));
  }

  lemma {:induction false} OneEvaluated(recompute: Recomputation, spans: seq<Span>, p: EvaluatedPayload, siblings: seq<Event>)
    requires forall i :: 0 <= i < |siblings| ==> siblings[i].Sibling?
    ensures Flat(EachEvaluated(recompute, spans, [Evaluated(p)] + siblings)) == EvaluatedFindings(recompute, spans, p)
  {
    var parts := EachEvaluated(recompute, spans, [Evaluated(p)] + siblings);
    OnlyFirst(parts);
    assert parts[0] == EvaluatedFindings(recompute, spans, p);
  }

  /** A pass of a re-evaluation with no linkable prior failure. */
  predicate UnlinkedReevaluation(r: GateResult, c: Context) {
    c.isReevaluation && r.verdict.body.status == Pass && !Linkable(c)
  }

  /**
   A record built from a result whose verdict recomputes and whose calls have rubrics:
   the guard reports exactly the calls that share both ids with an earlier call but not
   its rubric reference, and the re-evaluation pass that has no linkable prior failure.
   */
  lemma BuiltRecordFindings(recompute: Recomputation, r: GateResult, checks: seq<Check>, c: Context, observed: Observed)
    requires recompute(r.verdict) && GoodRubrics(CallsOf(r.calls))
    ensures var record := BuildRecord(r, checks, c, observed);
      var findings := GuardFindings(recompute, record.events, record.spans);
      && findings == AllCallFindings(record.spans, CallsOf(r.calls))
                     + (if UnlinkedReevaluation(r, c) then [UnlinkedPass(r.verdict.body.gateId)] else [])
      && (AllCallFindings(record.spans, CallsOf(r.calls)) == [] <==> Unambiguous(CallsOf(r.calls)))
  {
    var record := BuildRecord(r, checks, c, observed);
    assert GuardFindings(recompute, record.events, record.spans) == EvaluatedFindings(recompute, record.spans, record.events[0].payload) by {
      SiblingsCarryNone(r, observed);
      NoAdvanceFindings(record.events);
      OneEvaluated(recompute, record.spans, record.events[0].payload, Siblings(r, observed));
    }
    CallsAcceptedExactly(checks, CallsOf(r.calls));
    EvaluatedWithoutMismatch(recompute, record.spans, record.events[0].payload);
  }

  lemma EvaluatedWithoutMismatch(recompute: Recomputation, spans: seq<Span>, p: EvaluatedPayload)
    requires recompute(p.verdict)
    ensures EvaluatedFindings(recompute, spans, p) == AllCallFindings(spans, CallsOf(p.calls)) + GapFindings(p)
  {
    var calls := AllCallFindings(spans, CallsOf(p.calls));
    assert [] + calls == calls;
  }

  lemma SiblingsCarryNone(r: GateResult, observed: Observed)
    ensures forall i :: 0 <= i < |Siblings(r, observed)| ==>
      Siblings(r, observed)[i].Sibling? && Siblings(r, observed)[i].instruction.None?
  {
  }

  lemma {:induction false} ModelChecksDistinct(checks: seq<Check>)
    requires DistinctIds(checks)
    ensures DistinctIds(ModelChecks(checks))
  {
    if checks != [] {
      ModelChecksDistinct(checks[1..]);
      var rest := ModelChecks(checks[1..]);
      forall c | c in rest
        ensures c.id != checks[0].id
      {
        assert c in checks[1..];
        var i :| 0 <= i < |checks[1..]| && checks[1..][i] == c;
        assert checks[i + 1] == c;
      }
      assert forall i :: 0 <= i < |rest| ==> rest[i] in rest;
    }
  }

  /** What the record of a model check's call is identified by, and the rubric that it names. */
  datatype CallKey = CallKey(checkId: string, modelCallId: string)

  function CallKeyOf(w: World, d: Definition, c: Check, phase: string, input: Option<GateInput>): CallKey
    requires IsModelAssisted(c)
  {
    CallKey(c.id, ModelCallId(w, d, c, phase, input))
  }

  /** Model checks whose calls have both ids in common declare one rubric reference. */
  predicate RubricsAgree(w: World, d: Definition, checks: seq<Check>, phase: string, input: Option<GateInput>)
    requires forall c :: c in checks ==> IsModelAssisted(c)
  {
    forall i, j :: 0 <= i < j < |checks| ==>
      assert checks[i] in checks && checks[j] in checks;
      CallKeyOf(w, d, checks[i], phase, input) == CallKeyOf(w, d, checks[j], phase, input) ==>
        FallbackRubric(checks[i].contract.value).ref == FallbackRubric(checks[j].contract.value).ref
  }

  lemma ResultCalls(w: World, req: Request, d: Definition, checks: seq<Check>, phase: string)
    requires forall c :: c in checks ==> IsModelAssisted(c)
    ensures var calls := Calls(ModelResults(w, req, d, checks, phase));
      GoodRubrics(calls) && (Unambiguous(calls) <==> RubricsAgree(w, d, checks, phase, req.input))
  {
    var calls := Calls(ModelResults(w, req, d, checks, phase));
    forall i | 0 <= i < |checks|
      ensures calls[i].checkId == checks[i].id && GoodRubric(calls[i].rubric)
      ensures checks[i] in checks && calls[i].modelCallId == ModelCallId(w, d, checks[i], phase, req.input)
      ensures calls[i].rubric == FallbackRubric(checks[i].contract.value)
    {
      assert checks[i] in checks;
      ModelCheckFacts(w, req, d, checks[i], phase);
    }
    assert |calls| == |checks|;
    forall i, j | 0 <= i < j < |checks|
      ensures calls[i].checkId == calls[j].checkId && calls[i].modelCallId == calls[j].modelCallId <==>
        CallKeyOf(w, d, checks[i], phase, req.input) == CallKeyOf(w, d, checks[j], phase, req.input)
    {
    }
  }

  /** The model checks that the result's calls come from, if it has any, name one rubric for each pair of ids. */
  predicate CallsAgree(w: World, req: Request, r: GateResult)
    requires r.calls.Some? ==> Resolve(w, req).Resolved?
  {
    r.calls.Some? ==>
      var d, f := Resolve(w, req).definition, FrameOf(req, Resolve(w, req));
      RubricsAgree(w, d, ModelChecks(d.checks), f.phase, req.input)
  }

  lemma ProducedCalls(w: World, req: Request, r: GateResult)
    requires Produced(w, req, r)
    ensures r.calls.Some? ==> Resolve(w, req).Resolved?
    ensures GoodRubrics(CallsOf(r.calls)) && (Unambiguous(CallsOf(r.calls)) <==> CallsAgree(w, req, r))
  {
    if r.calls.Some? && r == EvaluateGateAsync(w, req).0 {
      CallsComeFromResults(w, req);
      var d, f := Resolve(w, req).definition, FrameOf(req, Resolve(w, req));
      ResultCalls(w, req, d, ModelChecks(d.checks), f.phase);
    } else {
      SyncHasNoCalls(w, req);
    }
  }

  lemma SyncHasNoCalls(w: World, req: Request)
    ensures EvaluateGate(w, req).calls.None?
  {
  }

  /** What the guard says of a record besides what it says of model calls. */
  function ReplayFindings(r: GateResult, c: Context): seq<GuardFinding> {
    if UnlinkedReevaluation(r, c) then [UnlinkedPass(r.verdict.body.gateId)] else []
  }

  /**
   The record of any evaluation passes the guard, except for one finding raised exactly when
   a re-evaluation passes with no linkable prior failure, if and only if model checks whose
   calls share both ids also declare one rubric reference.
   */
  lemma RecordAcceptedExactly(w: World, req: Request, r: GateResult, checks: seq<Check>, c: Context, observed: Observed)
    requires Produced(w, req, r)
    ensures r.calls.Some? ==> Resolve(w, req).Resolved?
    ensures var record := BuildRecord(r, checks, c, observed);
      GuardFindings(RecomputationWith(w.sha), record.events, record.spans) == ReplayFindings(r, c) <==> CallsAgree(w, req, r)
  {
    VerdictRecomputes(w, req, r);
    ProducedCalls(w, req, r);
    BuiltRecordFindings(RecomputationWith(w.sha), r, checks, c, observed);
    var record := BuildRecord(r, checks, c, observed);
    OnlySecond(AllCallFindings(record.spans, CallsOf(r.calls)), ReplayFindings(r, c));
  }

  lemma OnlySecond<T>(a: seq<T>, b: seq<T>)
    ensures a + b == b <==> a == []
  {
    assert |a + b| == |a| + |b|;
  }

  predicate DistinctIds(checks: seq<Check>) {
    forall i, j :: 0 <= i < j < |checks| ==> checks[i].id != checks[j].id
  }

  lemma DistinctIdsAgree(w: World, d: Definition, phase: string, input: Option<GateInput>)
    requires DistinctIds(d.checks)
    ensures RubricsAgree(w, d, ModelChecks(d.checks), phase, input)
  {
    ModelChecksDistinct(d.checks);
  }

  /**
   With distinct check ids, the record of any evaluation passes the guard, except for one
   finding raised exactly when a re-evaluation passes with no linkable prior failure.
   */
  lemma RecordPassesGuard(w: World, req: Request, r: GateResult, checks: seq<Check>, c: Context, observed: Observed)
    requires Produced(w, req, r)
    requires Resolve(w, req).Resolved? ==> DistinctIds(Resolve(w, req).definition.checks)
    ensures var record := BuildRecord(r, checks, c, observed);
      GuardFindings(RecomputationWith(w.sha), record.events, record.spans) == ReplayFindings(r, c)
  {
    RecordAcceptedExactly(w, req, r, checks, c, observed);
    if r.calls.Some? {
      DistinctIdsAgree(w, Resolve(w, req).definition, FrameOf(req, Resolve(w, req)).phase, req.input);
    }
  }

  /**
   Distinct check ids are needed: the call id covers the rubric's hash but not its
   reference, so two checks that differ only there share both ids.
   */
  lemma CallIdIgnoresRubricRef(w: World, d: Definition, a: Check, b: Check, phase: string, input: Option<GateInput>)
    requires IsModelAssisted(a) && IsModelAssisted(b) && a.id == b.id
    requires FallbackRubric(a.contract.value).hash == FallbackRubric(b.contract.value).hash
    requires a.contract.value.allowedContextRefs == b.contract.value.allowedContextRefs
    ensures CallKeyOf(w, d, a, phase, input) == CallKeyOf(w, d, b, phase, input)
  {
  }

  /** An asynchronous evaluation that reaches two such checks makes a record that its own guard rejects. */
  lemma SharedIdsAreRejected(w: World, req: Request, i: nat, j: nat, checks: seq<Check>, c: Context, observed: Observed)
    requires var r := EvaluateGateAsync(w, req).0; r.calls.Some? && Resolve(w, req).Resolved?
    requires var model := ModelChecks(Resolve(w, req).definition.checks);
      && i < j < |model| && model[i] in model && model[j] in model && model[i].id == model[j].id
      && var a, b := model[i].contract.value, model[j].contract.value;
      && FallbackRubric(a).hash == FallbackRubric(b).hash && FallbackRubric(a).ref != FallbackRubric(b).ref
      && a.allowedContextRefs == b.allowedContextRefs
    ensures var r := EvaluateGateAsync(w, req).0;
      var record := BuildRecord(r, checks, c, observed);
      GuardFindings(RecomputationWith(w.sha), record.events, record.spans) != ReplayFindings(r, c)
  {
    var d, f := Resolve(w, req).definition, FrameOf(req, Resolve(w, req));
    var model := ModelChecks(d.checks);
    CallIdIgnoresRubricRef(w, d, model[i], model[j], f.phase, req.input);
    RecordAcceptedExactly(w, req, EvaluateGateAsync(w, req).0, checks, c, observed);
  }

  /**
   In any set of events, an evaluated event whose verdict was altered under its recorded
   hash is reported as a mismatch, unless nothing that the hash covers was altered or
   SHA-256 collides on the two texts.
   */
  lemma AlteredVerdictIsReported(sha: Sha, events: seq<Event>, spans: seq<Span>, i: nat, original: Verdict)
    requires i < |events| && events[i].Evaluated? && Recomputes(sha, original)
    requires CanonicalBody(original.body) && CanonicalBody(events[i].payload.verdict.body)
    requires events[i].payload.verdict.decisionHash == original.decisionHash
    ensures var v := events[i].payload.verdict;
      || DecisionHashMismatch(v.body.gateId, v.decisionHash) in GuardFindings(RecomputationWith(sha), events, spans)
      || SameBody(v.body, original.body)
      || Collision(sha, StableText(HashInput(v.body)), StableText(HashInput(original.body)))
  {
    var v := events[i].payload.verdict;
    if Recomputes(sha, v) {
      DecisionHashBinds(sha, v, original);
    } else {
      MismatchIsReported(RecomputationWith(sha), events, spans, i);
    }
  }

  lemma MismatchIsReported(recompute: Recomputation, events: seq<Event>, spans: seq<Span>, i: nat)
    requires i < |events| && events[i].Evaluated? && !recompute(events[i].payload.verdict)
    ensures var v := events[i].payload.verdict;
      DecisionHashMismatch(v.body.gateId, v.decisionHash) in GuardFindings(recompute, events, spans)
  {
    var v := events[i].payload.verdict;
    var parts := EachEvaluated(recompute, spans, events);
    assert DecisionHashMismatch(v.body.gateId, v.decisionHash) in parts[i] by {
      assert DecisionHashMismatch(v.body.gateId, v.decisionHash) in HashFindings(recompute, v);
    }
    FlatHas(parts, i, DecisionHashMismatch(v.body.gateId, v.decisionHash));
  }

  /** The prior failure of a re-evaluation is a result as the engine gave it. */
  predicate FollowsUp(c: Context, r: GateResult) {
    && c.isReevaluation && c.priorFailure.Some?
    && c.priorFailure.value.verdict == r.verdict
    && c.priorFailure.value.instruction == Some(r.instruction) && c.priorFailure.value.repairTask.None?
  }

  /**
   A link names the prior failure and at least one finding that it was created from.  A
   re-evaluation that follows up a result of the engine is linked exactly when that result
   failed, to all its findings, whether or not there was a repair task.
   */
  lemma LinkExactly(w: World, req: Request, r: GateResult, c: Context)
    requires Produced(w, req, r)
    ensures LinkReevaluation(c).Some? <==> Linkable(c)
    ensures Linkable(c) ==>
      var link := LinkReevaluation(c).value;
      && link.decisionHash == c.priorFailure.value.verdict.decisionHash
      && link.findingIds == FindingIds(c.priorFailure.value.verdict.body.findings)
      && link.createdFromFindingIds != []
    ensures FollowsUp(c, r) ==> (LinkReevaluation(c).Some? <==> r.verdict.body.status == Fail)
    ensures FollowsUp(c, r) && r.verdict.body.status == Fail ==>
      var link := LinkReevaluation(c).value;
      && link.createdFromFindingIds == link.findingIds == FindingIds(r.verdict.body.findings) != []
      && (link.repairTaskId.Some? <==> r.instruction.CreateRepairTask?)
  {
    FailureIsExplained(w, req, r);
  }

  /** Following up a failing result of the engine leaves the guard with nothing to report, however the re-evaluation ends. */
  lemma FollowUpPassesGuard(w: World, req: Request, r: GateResult, w0: World, req0: Request, prior: GateResult,
                            checks: seq<Check>, c: Context, observed: Observed)
    requires Produced(w0, req0, prior) && prior.verdict.body.status == Fail && FollowsUp(c, prior)
    requires Produced(w, req, r)
    requires Resolve(w, req).Resolved? ==> DistinctIds(Resolve(w, req).definition.checks)
    ensures var record := BuildRecord(r, checks, c, observed);
      GuardFindings(RecomputationWith(w.sha), record.events, record.spans) == []
  {
    LinkExactly(w0, req0, prior, c);
    RecordPassesGuard(w, req, r, checks, c, observed);
  }
}
