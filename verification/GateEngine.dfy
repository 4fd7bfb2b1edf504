/**
 The gate engine: resolving a gate definition, evaluating its checks with and without a
 model, and turning the evaluations into a hashed verdict and a lifecycle instruction.
 */
module GateEngine {
  import opened Wrappers
  import opened JsText
  import opened Json
  import opened Hashing
  import opened GateVerdict
  import opened GateContext
  import opened VerdictTerms
  import DecisionHash
  import Sanitizing
  import KeyOrder

  // ------------------------------------------------------------- definitions

  datatype FailureAction =
    | OnFailRepair | OnFailCreateRepairTask
    | OnFailClarify | OnFailRequestClarification | OnFailPauseForHuman
    | OnFailApprove | OnFailRequestApproval
    | OnFailFailRun

  datatype FailureBehavior = FailureBehavior(
    action: Option<FailureAction>, questionTemplate: Option<string>, approvalReason: Option<string>,
    targetRef: Option<string>, allowedTools: Option<seq<string>>, blockedTools: Option<seq<string>>,
    successGate: Option<string>, requiredEvidenceRefs: Option<seq<string>>,
    maxRepairIterations: Option<int>, expectedAnswerSchema: Option<string>, obligations: Option<seq<Json>>)

  datatype OnFail = Unspecified | JustAction(action: FailureAction) | Behavior(behavior: FailureBehavior)

  datatype OnPass = OnPass(transitions: bool, targetPhase: Option<string>, obligations: Option<seq<Json>>)

  datatype Rubric = Rubric(ref: string, hash: string)

  datatype ModelContract = ModelContract(
    modelTool: string, rubric: Option<Rubric>, allowedContextRefs: seq<string>, maxTokens: int)

  /** A check is model-assisted when it has a model contract. */
  datatype Check = Check(
    id: string, contract: Option<ModelContract>, content: Json, severity: Option<Severity>,
    message: Option<string>, targetRef: Option<string>, evidenceRefs: Option<seq<string>>,
    repairHint: Option<string>, requiredAction: Option<Action>)

  datatype Definition = Definition(
    id: string, phase: Option<string>, severity: Option<Severity>, required: Option<bool>,
    inputs: Json, checks: seq<Check>, onFail: OnFail, onPass: Option<OnPass>)

  datatype Governed = NotGiven | Listed(definitions: seq<Definition>) | Keyed(table: map<string, Definition>)

  // ------------------------------------------------------------ the outside world

  datatype DefinitionFinding = DefinitionFinding(id: string, message: string, targetRef: Option<string>)

  datatype MissingInput = MissingInput(id: string, message: string, targetRef: Option<string>)

  datatype CheckEvaluation =
    | Passed(evidenceRefs: seq<string>)
    | Failed(finding: Finding, requiredAction: Option<Action>, bypassOnFail: bool, evidenceRefs: seq<string>)
    | Unsure(finding: Finding, approval: bool, evidenceRefs: seq<string>)

  datatype ToolRequest = ToolRequest(
    toolId: string, context: Json, rubric: Rubric, maxTokens: int, reason: string,
    idempotencyKey: string, phase: string, gateId: string, modelCallId: string)

  datatype ToolStatus = Success | Denied | ApprovalRequired | ToolFailed

  /** What the broker does with a request: throw, or answer. */
  datatype BrokerReply = Threw | Replied(toolId: string, status: ToolStatus, output: Json, errorMessage: Option<string>)

  /** The properties that the engine reads from a model's parsed output; undefined where there are none. */
  datatype ModelOutput = ModelOutput(
    status: Json, outcome: Json, verdict: Json, message: Json, evidenceRefs: Json, targetRef: Json, repairHint: Json)

  /** What the engine's own messages say; their wording is left to the world. */
  datatype Message =
    | IdMismatch(id: string, gateId: string)
    | InlineRejected(gateId: string)
    | DefinitionMissing(gateId: string)
    | NeedsAsync(checkId: string)
    | GatePassed(gateId: string)
    | DidNotPass(gateId: string)
    | CeilingReached(gateId: string, ceiling: nat, reason: string)
    | EnvelopeRejected(gateId: string, fault: EnvelopeFault)
    | ContractBroken(checkId: string, broken: ContractFault)
    | BrokerMissing(checkId: string)
    | ContextRejected(checkId: string)
    | BrokerThrew(checkId: string)
    | NotAnswered(checkId: string, status: ToolStatus)
    | OutputUnusable(checkId: string)
    | OutputRejected(checkId: string)
    | FlaggedReview(checkId: string)
    | AskModel(checkId: string, gateId: string)

  datatype EnvelopeFault = GovernedContradiction | Widened | DroppedBlocked | TaskContradiction

  datatype ContractFault = NoModelTool | NoRubric | NoMaxTokens | NoSchemas

  /**
   Everything outside the engine: the hash, the wording of messages, the definition
   validator, the declared-input and check evaluators, which names are secret, the declared
   schemas, and the source language's text of a value that is not a string.
   */
  datatype World = World(
    sha: Sha,
    say: Message -> string,
    validate: Definition -> Option<DefinitionFinding>,
    missingInputs: (Json, Option<GateInput>) -> seq<MissingInput>,
    evaluate: (Check, Option<GateInput>, string, Severity) -> CheckEvaluation,
    secretKey: string -> bool,
    schemasDeclared: Check -> bool,
    parseInput: (Check, Json) -> Option<Json>,
    parseOutput: (Check, Json) -> Option<ModelOutput>,
    textOf: Json -> string)

  datatype Request = Request(
    gateId: string, phase: Option<string>, inline: Option<Definition>, governed: Governed,
    input: Option<GateInput>, evaluatedAt: Option<string>, evaluatorRef: Option<string>,
    broker: Option<ToolRequest -> BrokerReply>)

  // ----------------------------------------------------------------- results

  datatype Question = Question(
    id: string, gateId: string, phase: string, question: string, requiredFor: string,
    expectedAnswerSchema: Option<string>)

  datatype ApprovalRequest = ApprovalRequest(
    id: string, gateId: string, phase: string, reason: string, requiredFor: string)

  datatype RepairTask = RepairTask(
    id: string, gateId: string, failedPhase: string, problem: string, requiredEvidenceRefs: seq<string>,
    allowedTools: seq<string>, blockedTools: seq<string>, successGate: string,
    createdFromFindingIds: seq<string>, targetRef: Option<string>)

  datatype Instruction =
    | Continue(gateId: string)
    | TransitionPhase(gateId: string, targetPhase: string)
    | PauseForHuman(gateId: string, question: Question)
    | RequestApproval(gateId: string, approvalRequest: ApprovalRequest)
    | CreateRepairTask(gateId: string, repairTask: RepairTask)
    | FailRun(gateId: string, reason: string)

  datatype CallOutcome = CallSucceeded | InvalidOutput | CallDenied | CallError

  datatype PolicyStatus = NotRequested | Allowed | PolicyDenied | NeedsApproval | PolicyError

  datatype ModelCall = ModelCall(
    checkId: string, modelCallId: string, rubric: Rubric, outcome: CallOutcome,
    toolId: string, requestHash: string, tokenBudget: int, policyStatus: PolicyStatus)

  datatype GateResult = GateResult(verdict: Verdict, instruction: Instruction, calls: Option<seq<ModelCall>>)

  /** A result whose verdict is not hashed yet. */
  datatype Draft = Draft(body: Body, instruction: Instruction, calls: Option<seq<ModelCall>>)

  function Seal(sha: Sha, draft: Draft): GateResult {
    GateResult(Hashed(sha, draft.body), draft.instruction, draft.calls)
  }

  const DEFAULT_EVALUATED_AT := "1970-01-01T00:00:00.000Z"
  const DEFAULT_EVALUATOR := "gate-engine:specwright.gate-engine@1.0.0#gate-contract=1.0.0"
  const DEFAULT_MAX_REPAIR_ITERATIONS := 3

  // ---------------------------------------------------------------- resolution

  datatype Resolution =
    | Resolved(definition: Definition)
    | Rejected(finding: DefinitionFinding, definitionPhase: Option<string>)

  function FindDefinition(definitions: seq<Definition>, gateId: string): Option<Definition> {
    if definitions == [] then None
    else if definitions[0].id == gateId then Some(definitions[0])
    else FindDefinition(definitions[1..], gateId)
  }

  function GovernedDefinition(governed: Governed, gateId: string): Option<Definition> {
    match governed
    case NotGiven => None
    case Listed(definitions) => FindDefinition(definitions, gateId)
    case Keyed(table) => if gateId in table then Some(table[gateId]) else None
  }

  function Reject(id: string, message: string, gateId: string, phase: Option<string>): Resolution {
    Rejected(DefinitionFinding(id, message, Some("gate:" + gateId)), phase)
  }

  function Validated(w: World, d: Definition): Resolution {
    match w.validate(d)
    case None => Resolved(d)
    case Some(finding) => Rejected(finding, d.phase)
  }

  function Resolve(w: World, req: Request): Resolution {
    match req.inline
    case Some(d) =>
      if d.id != req.gateId then Reject("gate.definition.id_mismatch", w.say(IdMismatch(d.id, req.gateId)), req.gateId, d.phase)
      else if !req.governed.NotGiven? then
        Reject("gate.definition.inline_rejected", w.say(InlineRejected(req.gateId)), req.gateId, d.phase)
      else Validated(w, d)
    case None =>
      match GovernedDefinition(req.governed, req.gateId)
      case None =>
        Reject("gate.definition.missing", w.say(DefinitionMissing(req.gateId)), req.gateId, None)
      case Some(d) =>
        if d.id != req.gateId
        then Reject("gate.definition.id_mismatch", w.say(IdMismatch(d.id, req.gateId)), req.gateId, d.phase)
        else Validated(w, d)
  }

  function PhaseOf(req: Request, resolution: Resolution): string {
    var inputPhase := if req.input.Some? then req.input.value.phase else None;
    var declared := if resolution.Resolved? then resolution.definition.phase else resolution.definitionPhase;
    OrElse(OrElse(req.phase, inputPhase), declared).GetOr("unknown")
  }

  function SeverityOf(d: Definition): Severity {
    if d.severity.Some? then d.severity.value
    else if d.required == Some(false) then Advisory else Blocking
  }

  // -------------------------------------------------------------- instructions

  /** The fields that every verdict of one evaluation shares. */
  datatype Frame = Frame(phase: string, evaluatedAt: string, evaluatorRef: string)

  function FrameOf(req: Request, resolution: Resolution): Frame {
    Frame(PhaseOf(req, resolution), req.evaluatedAt.GetOr(DEFAULT_EVALUATED_AT),
          req.evaluatorRef.GetOr(DEFAULT_EVALUATOR))
  }

  function FailureActionOf(onFail: OnFail): Option<FailureAction> {
    match onFail
    case Unspecified => None
    case JustAction(action) => Some(action)
    case Behavior(behavior) => behavior.action
  }

  function RequiredActionFor(onFail: OnFail, fallback: Action, bypassOnFail: bool): Action {
    if bypassOnFail then fallback
    else match FailureActionOf(onFail)
      case None => fallback
      case Some(action) =>
        match action
        case OnFailClarify | OnFailRequestClarification | OnFailPauseForHuman => Clarify
        case OnFailApprove | OnFailRequestApproval => Approve
        case OnFailRepair | OnFailCreateRepairTask => Repair
        case OnFailFailRun => FailTheRun
  }

  /** A field of the failure behaviour, when there is one. */
  function FromBehavior<T>(onFail: OnFail, get: FailureBehavior -> Option<T>): Option<T> {
    if onFail.Behavior? then get(onFail.behavior) else None
  }

  function ObligationsFor(onFail: OnFail): seq<Json> {
    FromBehavior(onFail, (b: FailureBehavior) => b.obligations).GetOr([])
  }

  function AllowedTools(onFail: OnFail): seq<string> {
    FromBehavior(onFail, (b: FailureBehavior) => b.allowedTools).GetOr([])
  }

  function BlockedTools(onFail: OnFail): seq<string> {
    FromBehavior(onFail, (b: FailureBehavior) => b.blockedTools).GetOr([])
  }

  function FirstReason(w: World, b: Body): string {
    if b.reasons != [] then b.reasons[0] else w.say(DidNotPass(b.gateId))
  }

  function QuestionFor(w: World, d: Definition, phase: string, b: Body, override: Option<string>): Question {
    var template := FromBehavior(d.onFail, (f: FailureBehavior) => f.questionTemplate);
    Question("question." + d.id, d.id, phase, OrElse(override, template).GetOr(FirstReason(w, b)),
             "gate:" + d.id, FromBehavior(d.onFail, (f: FailureBehavior) => f.expectedAnswerSchema))
  }

  function ApprovalRequestFor(w: World, d: Definition, phase: string, b: Body): ApprovalRequest {
    ApprovalRequest("approval." + d.id, d.id, phase,
                    FromBehavior(d.onFail, (f: FailureBehavior) => f.approvalReason).GetOr(FirstReason(w, b)), "gate:" + d.id)
  }

  function FindingIds(findings: seq<Finding>): seq<string> {
    seq(|findings|, i requires 0 <= i < |findings| => findings[i].id)
  }

  /** The first target reference that is not the empty text. */
  function FirstTargetRef(findings: seq<Finding>): Option<string> {
    if findings == [] then None
    else if findings[0].targetRef.Some? && findings[0].targetRef.value != "" then findings[0].targetRef
    else FirstTargetRef(findings[1..])
  }

  function RepairTaskFor(w: World, d: Definition, phase: string, b: Body): RepairTask {
    RepairTask("repair." + d.id, d.id, phase, FirstReason(w, b),
               FromBehavior(d.onFail, (f: FailureBehavior) => f.requiredEvidenceRefs).GetOr(b.evidenceRefs),
               AllowedTools(d.onFail), BlockedTools(d.onFail),
               FromBehavior(d.onFail, (f: FailureBehavior) => f.successGate).GetOr(d.id),
               FindingIds(b.findings),
               OrElse(FromBehavior(d.onFail, (f: FailureBehavior) => f.targetRef), FirstTargetRef(b.findings)))
  }

  function Iterations(input: Option<GateInput>): nat {
    if input.Some? && input.value.repairLoopIterations.Some? && input.value.repairLoopIterations.value >= 0
    then input.value.repairLoopIterations.value else 0
  }

  function MaxRepairIterations(onFail: OnFail): nat {
    var declared := FromBehavior(onFail, (b: FailureBehavior) => b.maxRepairIterations);
    if declared.Some? && declared.value > 0 then declared.value else DEFAULT_MAX_REPAIR_ITERATIONS
  }

  predicate Overlap(a: seq<string>, b: seq<string>) {
    exists tool :: tool in a && tool in b
  }

  predicate Within(a: seq<string>, b: seq<string>) {
    forall tool :: tool in a ==> tool in b
  }

  /** `assertBoundedRepairEnvelope`: the first fault found, if any. */
  function EnvelopeFaultOf(allowed: seq<string>, blocked: seq<string>, task: RepairTask): Option<EnvelopeFault> {
    if Overlap(allowed, blocked) then Some(GovernedContradiction)
    else if !Within(task.allowedTools, allowed) then Some(Widened)
    else if !Within(blocked, task.blockedTools) then Some(DroppedBlocked)
    else if Overlap(task.allowedTools, task.blockedTools) then Some(TaskContradiction)
    else None
  }

  function BoundedRepair(w: World, d: Definition, task: RepairTask): Instruction {
    match EnvelopeFaultOf(AllowedTools(d.onFail), BlockedTools(d.onFail), task)
    case Some(fault) => FailRun(d.id, w.say(EnvelopeRejected(task.gateId, fault)))
    case None => CreateRepairTask(d.id, task)
  }

  function InstructionForFailure(w: World, d: Definition, phase: string, b: Body, action: Action, input: Option<GateInput>)
    : Instruction
  {
    match action
    case Clarify => PauseForHuman(d.id, QuestionFor(w, d, phase, b, None))
    case Approve => RequestApproval(d.id, ApprovalRequestFor(w, d, phase, b))
    case Repair =>
      if Iterations(input) >= MaxRepairIterations(d.onFail)
      then PauseForHuman(d.id, QuestionFor(w, d, phase, b, Some(w.say(CeilingReached(d.id, MaxRepairIterations(d.onFail), FirstReason(w, b))))))
      else BoundedRepair(w, d, RepairTaskFor(w, d, phase, b))
    case FailTheRun => FailRun(d.id, FirstReason(w, b))
  }

  function InstructionForPass(d: Definition): Instruction {
    if d.onPass.Some? && d.onPass.value.transitions && d.onPass.value.targetPhase.Some?
    then TransitionPhase(d.id, d.onPass.value.targetPhase.value) else Continue(d.id)
  }

  // --------------------------------------------------------------- aggregation

  function Reasons(findings: seq<Finding>): seq<string> {
    seq(|findings|, i requires 0 <= i < |findings| => findings[i].message)
  }

  function FindingRefs(findings: seq<Finding>): seq<string> {
    if findings == [] then [] else findings[0].evidenceRefs + FindingRefs(findings[1..])
  }

  function EvaluationRefs(evaluations: seq<CheckEvaluation>): seq<string> {
    if evaluations == [] then [] else evaluations[0].evidenceRefs + EvaluationRefs(evaluations[1..])
  }

  function FailuresOf(evaluations: seq<CheckEvaluation>): (failed: seq<CheckEvaluation>)
    ensures forall e :: e in failed <==> e in evaluations && e.Failed?
  {
    if evaluations == [] then []
    else (if evaluations[0].Failed? then [evaluations[0]] else []) + FailuresOf(evaluations[1..])
  }

  function ReviewsOf(evaluations: seq<CheckEvaluation>): (unsure: seq<CheckEvaluation>)
    ensures forall e :: e in unsure <==> e in evaluations && e.Unsure?
  {
    if evaluations == [] then []
    else (if evaluations[0].Unsure? then [evaluations[0]] else []) + ReviewsOf(evaluations[1..])
  }

  function BypassingOf(failed: seq<CheckEvaluation>, bypassing: bool): (chosen: seq<CheckEvaluation>)
    requires forall e :: e in failed ==> e.Failed?
    ensures forall e :: e in chosen <==> e in failed && e.bypassOnFail == bypassing
  {
    if failed == [] then []
    else
      assert failed[0] in failed && forall e :: e in failed[1..] ==> e in failed;
      (if failed[0].bypassOnFail == bypassing then [failed[0]] else []) + BypassingOf(failed[1..], bypassing)
  }

  function FindingsOf(evaluations: seq<CheckEvaluation>): seq<Finding>
    requires forall e :: e in evaluations ==> !e.Passed?
  {
    seq(|evaluations|, i requires 0 <= i < |evaluations| => assert evaluations[i] in evaluations; evaluations[i].finding)
  }

  function FirstAction(failed: seq<CheckEvaluation>): Option<Action>
    requires forall e :: e in failed ==> e.Failed?
  {
    if failed == [] then None
    else
      assert failed[0] in failed && forall e :: e in failed[1..] ==> e in failed;
      if failed[0].requiredAction.Some? then failed[0].requiredAction else FirstAction(failed[1..])
  }

  function FailingResult(w: World, d: Definition, f: Frame, findings: seq<Finding>, refs: seq<string>,
                         input: Option<GateInput>, fallback: Action, kind: EvaluatorKind,
                         calls: Option<seq<ModelCall>>, bypassOnFail: bool): Draft
  {
    var action := RequiredActionFor(d.onFail, fallback, bypassOnFail);
    var body := Body(d.id, f.phase, Fail, SeverityOf(d), Some(action), findings, Reasons(findings),
                     DecisionHash.Unique(refs + FindingRefs(findings)), ObligationsFor(d.onFail),
                     f.evaluatedAt, Evaluator(kind, f.evaluatorRef));
    Draft(body, InstructionForFailure(w, d, f.phase, body, action, input), calls)
  }

  function FailClosed(w: World, gateId: string, f: Frame, findingId: string, reason: string,
                      targetRef: Option<string>): Draft
  {
    var body := Body(gateId, f.phase, Fail, Blocking, Some(FailTheRun),
                     [Finding(findingId, Blocking, reason, [], targetRef, None)], [reason], [], [],
                     f.evaluatedAt, Evaluator(Deterministic, f.evaluatorRef));
    Draft(body, FailRun(gateId, reason), None)
  }

  function ReviewResult(w: World, d: Definition, f: Frame, unsure: seq<CheckEvaluation>, refs: seq<string>,
                        kind: EvaluatorKind, calls: Option<seq<ModelCall>>): Draft
    requires unsure != [] && forall e :: e in unsure ==> e.Unsure?
  {
    var approval := assert unsure[0] in unsure; unsure[0].approval;
    var findings := FindingsOf(unsure);
    var body := Body(d.id, f.phase, NeedsReview, SeverityOf(d), Some(if approval then Approve else Clarify), findings,
                     Reasons(findings), DecisionHash.Unique(refs), ObligationsFor(d.onFail), f.evaluatedAt,
                     Evaluator(kind, f.evaluatorRef));
    Draft(body,
               if approval then RequestApproval(d.id, ApprovalRequestFor(w, d, f.phase, body))
               else PauseForHuman(d.id, QuestionFor(w, d, f.phase, body, None)),
               calls)
  }

  function PassResult(w: World, d: Definition, f: Frame, refs: seq<string>, kind: EvaluatorKind,
                      calls: Option<seq<ModelCall>>): Draft
  {
    var obligations := if d.onPass.Some? then d.onPass.value.obligations.GetOr([]) else [];
    Draft(Body(d.id, f.phase, Pass, SeverityOf(d), None, [], [w.say(GatePassed(d.id))],
               DecisionHash.Unique(refs), obligations, f.evaluatedAt, Evaluator(kind, f.evaluatorRef)),
          InstructionForPass(d), calls)
  }

  /** `aggregateEvaluations` */
  function Aggregate(w: World, d: Definition, f: Frame, evaluations: seq<CheckEvaluation>,
                     input: Option<GateInput>, kind: EvaluatorKind, calls: Option<seq<ModelCall>>): Draft
  {
    var failed, unsure, refs := FailuresOf(evaluations), ReviewsOf(evaluations), EvaluationRefs(evaluations);
    if failed != [] then
      var bypassing := BypassingOf(failed, true);
      var ordered := if bypassing != [] then bypassing + BypassingOf(failed, false) else failed;
      var fallback := if bypassing != [] then FailTheRun else FirstAction(failed).GetOr(Repair);
      FailingResult(w, d, f, FindingsOf(ordered), DecisionHash.Unique(refs), input, fallback, kind, calls, bypassing != [])
    else if unsure != [] then ReviewResult(w, d, f, unsure, refs, kind, calls)
    else PassResult(w, d, f, refs, kind, calls)
  }

  // -------------------------------------------------------------- entry points

  predicate IsModelAssisted(c: Check) {
    c.contract.Some?
  }

  function ModelChecks(checks: seq<Check>): (chosen: seq<Check>)
    ensures forall c :: c in chosen <==> c in checks && IsModelAssisted(c)
  {
    if checks == [] then [] else (if IsModelAssisted(checks[0]) then [checks[0]] else []) + ModelChecks(checks[1..])
  }

  function SupportedChecks(checks: seq<Check>): (chosen: seq<Check>)
    ensures forall c :: c in chosen <==> c in checks && !IsModelAssisted(c)
  {
    if checks == [] then [] else (if IsModelAssisted(checks[0]) then [] else [checks[0]]) + SupportedChecks(checks[1..])
  }

  function EvaluateAll(w: World, checks: seq<Check>, input: Option<GateInput>, phase: string, severity: Severity)
    : (evaluations: seq<CheckEvaluation>)
  {
    seq(|checks|, i requires 0 <= i < |checks| => w.evaluate(checks[i], input, phase, severity))
  }

  function MissingFindings(missing: seq<MissingInput>, severity: Severity): seq<Finding> {
    seq(|missing|, i requires 0 <= i < |missing| =>
      Finding("input." + missing[i].id + ".missing", severity, missing[i].message, [], missing[i].targetRef, None))
  }

  function RejectedResult(w: World, req: Request, f: Frame, finding: DefinitionFinding): Draft {
    FailClosed(w, req.gateId, f, finding.id, finding.message, finding.targetRef)
  }

  function MissingResult(w: World, d: Definition, f: Frame, missing: seq<MissingInput>, input: Option<GateInput>): Draft {
    FailingResult(w, d, f, MissingFindings(missing, SeverityOf(d)), [], input, Clarify, Deterministic, None, false)
  }

  function DraftGate(w: World, req: Request): Draft {
    var resolution := Resolve(w, req);
    var f := FrameOf(req, resolution);
    match resolution
    case Rejected(finding, _) => RejectedResult(w, req, f, finding)
    case Resolved(d) =>
      var missing := w.missingInputs(d.inputs, req.input);
      var model := ModelChecks(d.checks);
      if missing != [] then MissingResult(w, d, f, missing, req.input)
      else if model != [] then
        FailClosed(w, d.id, f, "gate.check." + model[0].id + ".requires_async_entrypoint",
                   w.say(NeedsAsync(model[0].id)),
                   Some(model[0].targetRef.GetOr("gate:" + d.id + "/check:" + model[0].id)))
      else
        Aggregate(w, d, f, EvaluateAll(w, d.checks, req.input, f.phase, SeverityOf(d)), req.input, Deterministic, None)
  }

  /** `evaluateGate` */
  function EvaluateGate(w: World, req: Request): GateResult {
    Seal(w.sha, DraftGate(w, req))
  }

  // ---------------------------------------------------------- model-assisted checks

  /** `s.slice(from, to)` */
  function Clip(s: string, from: nat, to: nat): string
    requires from <= to
  {
    if |s| <= from then "" else if |s| <= to then s[from..] else s[from..to]
  }

  predicate GoodRubric(r: Rubric) {
    NonBlank(r.ref) && NonBlank(r.hash)
  }

  function FallbackRubric(c: ModelContract): Rubric {
    var declared := c.rubric.GetOr(Rubric("", ""));
    Rubric(if NonBlank(declared.ref) then declared.ref else "undeclared",
           if NonBlank(declared.hash) then declared.hash else "undeclared")
  }

  /** The context that a check sends, before its input schema is applied. */
  function ModelContextFor(w: World, c: Check, input: Option<GateInput>): Json
    requires IsModelAssisted(c)
  {
    JObj(Projected(Sanitizing.GatePolicy(w.secretKey), c.contract.value.allowedContextRefs, input.GetOr(NO_INPUT)))
  }

  function ModelCallId(w: World, d: Definition, c: Check, phase: string, input: Option<GateInput>): string
    requires IsModelAssisted(c)
  {
    "gate_model_" + Clip(HashJson(w.sha, JObj([
      Field("gateId", JStr(d.id)), Field("phase", JStr(phase)), Field("checkId", JStr(c.id)),
      Field("rubricHash", JStr(FallbackRubric(c.contract.value).hash)),
      Field("allowedContextRefs", Texts(c.contract.value.allowedContextRefs)),
      Field("context", ModelContextFor(w, c, input))])), 7, 31)
  }

  function RubricJson(r: Rubric): Json {
    JObj([Field("ref", JStr(r.ref)), Field("hash", JStr(r.hash))])
  }

  function RequestJson(r: ToolRequest): Json {
    JObj([Field("toolId", JStr(r.toolId)),
          Field("args", JObj([Field("context", r.context), Field("rubric", RubricJson(r.rubric)),
                              Field("maxTokens", JNum(r.maxTokens))])),
          Field("reason", JStr(r.reason)), Field("idempotencyKey", JStr(r.idempotencyKey)),
          Field("requestedBy", JObj([Field("phase", JStr(r.phase)), Field("gateId", JStr(r.gateId)),
                                     Field("modelCallId", JStr(r.modelCallId))]))])
  }

  function ToolRequestFor(w: World, d: Definition, c: Check, phase: string, modelCallId: string, rubric: Rubric, context: Json)
    : ToolRequest
    requires IsModelAssisted(c)
  {
    var contract := c.contract.value;
    ToolRequest(contract.modelTool, context, rubric, contract.maxTokens, w.say(AskModel(c.id, d.id)),
                HashJson(w.sha, JObj([Field("gateId", JStr(d.id)), Field("phase", JStr(phase)), Field("checkId", JStr(c.id)),
                                      Field("rubricHash", JStr(rubric.hash)), Field("context", context)])),
                phase, d.id, modelCallId)
  }

  /** The first broken clause of a model contract. */
  function ContractFaultOf(w: World, c: Check): (fault: Option<ContractFault>)
    requires IsModelAssisted(c)
    ensures fault.None? ==> c.contract.value.rubric.Some? && GoodRubric(c.contract.value.rubric.value)
  {
    var contract := c.contract.value;
    if !NonBlank(contract.modelTool) then Some(NoModelTool)
    else if contract.rubric.None? || !GoodRubric(contract.rubric.value) then Some(NoRubric)
    else if contract.maxTokens <= 0 then Some(NoMaxTokens)
    else if !w.schemasDeclared(c) then Some(NoSchemas)
    else None
  }

  datatype ModelResult = ModelResult(evaluation: CheckEvaluation, call: ModelCall, sent: Option<ToolRequest>)

  /** `failClosedModelCheck` */
  function ModelFailure(c: Check, severity: Severity, message: string, call: ModelCall, sent: Option<ToolRequest>): ModelResult {
    ModelResult(
      Failed(Finding(c.id, c.severity.GetOr(severity), message, c.evidenceRefs.GetOr([]),
                     Some(c.targetRef.GetOr("model_call:" + call.modelCallId)), c.repairHint),
             Some(FailTheRun), true, c.evidenceRefs.GetOr([])),
      call, sent)
  }

  function OutputStatus(w: World, output: ModelOutput): string {
    var chosen := if !Nullish(output.status) then output.status else if !Nullish(output.outcome) then output.outcome
      else if !Nullish(output.verdict) then output.verdict else JStr("review");
    if chosen.JStr? then chosen.s else w.textOf(chosen)
  }

  function StringsOf(items: seq<Json>): seq<string> {
    if items == [] then [] else (if items[0].JStr? then [items[0].s] else []) + StringsOf(items[1..])
  }

  /** `evaluationFromModelOutput` */
  function EvaluationFrom(w: World, c: Check, output: ModelOutput, severity: Severity): (e: CheckEvaluation)
    ensures e.Failed? ==> !e.bypassOnFail
  {
    var status := OutputStatus(w, output);
    var evidenceRefs := if output.evidenceRefs.JArr? then StringsOf(output.evidenceRefs.items) else c.evidenceRefs.GetOr([]);
    var finding := Finding(
      c.id, c.severity.GetOr(severity),
      if output.message.JStr? then output.message.s else c.message.GetOr(w.say(FlaggedReview(c.id))),
      evidenceRefs,
      if output.targetRef.JStr? then Some(output.targetRef.s) else c.targetRef,
      if output.repairHint.JStr? then Some(output.repairHint.s) else c.repairHint);
    if status == "clean" || status == "pass" then Passed(evidenceRefs)
    else if status == "blocking" || status == "fail" then
      Failed(finding, Some(c.requiredAction.GetOr(Repair)), false, evidenceRefs)
    else Unsure(finding, false, evidenceRefs)
  }

  function PolicyStatusFor(status: ToolStatus): PolicyStatus {
    match status
    case Success => Allowed
    case Denied => PolicyDenied
    case ApprovalRequired => NeedsApproval
    case ToolFailed => PolicyError
  }

  function Max(a: int, b: int): int {
    if a < b then b else a
  }

  predicate Oversized(c: ModelContract, output: Json) {
    |Print(Normalize(KeyOrder.Properties, output))| > Max(1, c.maxTokens) * 16
  }

  /** What a broker's answer means for a check. */
  function Judge(w: World, c: Check, severity: Severity, reply: BrokerReply, call: ModelCall, sent: ToolRequest): ModelResult
    requires IsModelAssisted(c)
  {
    match reply
    case Threw =>
      ModelFailure(c, severity, w.say(BrokerThrew(c.id)),
                   call.(outcome := CallError, policyStatus := PolicyError), Some(sent))
    case Replied(toolId, status, output, errorMessage) =>
      var answered := call.(toolId := toolId, policyStatus := PolicyStatusFor(status));
      if status != Success then
        ModelFailure(c, severity, errorMessage.GetOr(w.say(NotAnswered(c.id, status))),
                     answered.(outcome := if status == Denied then CallDenied else CallError), Some(sent))
      else if output.JUndefined? || Oversized(c.contract.value, output) then
        ModelFailure(c, severity, w.say(OutputUnusable(c.id)),
                     answered.(outcome := InvalidOutput), Some(sent))
      else match w.parseOutput(c, output)
        case None =>
          ModelFailure(c, severity, w.say(OutputRejected(c.id)),
                       answered.(outcome := InvalidOutput), Some(sent))
        case Some(parsed) =>
          ModelResult(EvaluationFrom(w, c, parsed, severity), answered.(outcome := CallSucceeded), Some(sent))
  }

  /** The record of a call as it is before the contract is checked. */
  function BaseCall(w: World, req: Request, d: Definition, c: Check, phase: string): ModelCall
    requires IsModelAssisted(c)
  {
    var contract := c.contract.value;
    var id := ModelCallId(w, d, c, phase, req.input);
    var requestHash := HashJson(w.sha, JObj([Field("gateId", JStr(d.id)), Field("checkId", JStr(c.id)),
                                              Field("modelCallId", JStr(id)), Field("phase", JStr(phase))]));
    ModelCall(c.id, id, FallbackRubric(contract), InvalidOutput,
              if contract.modelTool != "" then contract.modelTool else "undeclared",
              requestHash, contract.maxTokens, NotRequested)
  }

  /** From the contract to the broker's answer; `ask` makes the request and `hash` its hash. */
  function Attempt(w: World, req: Request, c: Check, severity: Severity, base: ModelCall,
                   ask: (Rubric, Json) -> ToolRequest, hash: ToolRequest -> string): ModelResult
    requires IsModelAssisted(c)
  {
    match ContractFaultOf(w, c)
    case Some(fault) => ModelFailure(c, severity, w.say(ContractBroken(c.id, fault)), base, None)
    case None =>
      var rubric := c.contract.value.rubric.value;
      var declared := base.(rubric := rubric);
      if req.broker.None? then
        ModelFailure(c, severity, w.say(BrokerMissing(c.id)), declared.(outcome := CallError), None)
      else match w.parseInput(c, ModelContextFor(w, c, req.input))
        case None => ModelFailure(c, severity, w.say(ContextRejected(c.id)), declared, None)
        case Some(context) =>
          var sent := ask(rubric, context);
          Judge(w, c, severity, req.broker.value(sent),
                declared.(toolId := c.contract.value.modelTool, requestHash := hash(sent)), sent)
  }

  /** `evaluateModelAssistedCheck`, with the request it sent to the broker, if any. */
  function ModelCheck(w: World, req: Request, d: Definition, c: Check, phase: string): ModelResult
    requires IsModelAssisted(c)
  {
    var base := BaseCall(w, req, d, c, phase);
    Attempt(w, req, c, SeverityOf(d), base,
            (rubric: Rubric, context: Json) => ToolRequestFor(w, d, c, phase, base.modelCallId, rubric, context),
            (r: ToolRequest) => HashJson(w.sha, RequestJson(r)))
  }

  function ModelResults(w: World, req: Request, d: Definition, checks: seq<Check>, phase: string): seq<ModelResult>
    requires forall c :: c in checks ==> IsModelAssisted(c)
  {
    seq(|checks|, i requires 0 <= i < |checks| => assert checks[i] in checks; ModelCheck(w, req, d, checks[i], phase))
  }

  function Evaluations(results: seq<ModelResult>): seq<CheckEvaluation> {
    seq(|results|, i requires 0 <= i < |results| => results[i].evaluation)
  }

  function Calls(results: seq<ModelResult>): seq<ModelCall> {
    seq(|results|, i requires 0 <= i < |results| => results[i].call)
  }

  function Sent(results: seq<ModelResult>): seq<ToolRequest> {
    if results == [] then []
    else Sent(results[..|results| - 1]) + match results[|results| - 1].sent case None => [] case Some(r) => [r]
  }

  predicate AnyFailed(evaluations: seq<CheckEvaluation>) {
    exists i :: 0 <= i < |evaluations| && evaluations[i].Failed?
  }

  function DraftGateAsync(w: World, req: Request): (Draft, seq<ToolRequest>) {
    var resolution := Resolve(w, req);
    var f := FrameOf(req, resolution);
    match resolution
    case Rejected(finding, _) => (RejectedResult(w, req, f, finding), [])
    case Resolved(d) =>
      var missing := w.missingInputs(d.inputs, req.input);
      if missing != [] then (MissingResult(w, d, f, missing, req.input), [])
      else
        var plain := EvaluateAll(w, SupportedChecks(d.checks), req.input, f.phase, SeverityOf(d));
        var model := ModelChecks(d.checks);
        if AnyFailed(plain) || model == [] then (Aggregate(w, d, f, plain, req.input, Deterministic, None), [])
        else
          var results := ModelResults(w, req, d, model, f.phase);
          (Aggregate(w, d, f, plain + Evaluations(results), req.input, ModelAssisted, Some(Calls(results))), Sent(results))
  }

  /** `evaluateGateAsync`, with the requests it sent to the broker. */
  function EvaluateGateAsync(w: World, req: Request): (GateResult, seq<ToolRequest>) {
    (Seal(w.sha, DraftGateAsync(w, req).0), DraftGateAsync(w, req).1)
  }

  /** The loop variables hold what the first `i` model checks gave. */
  ghost predicate Collected(results: seq<ModelResult>, i: nat, evaluations: seq<CheckEvaluation>,
                            calls: seq<ModelCall>, sent: seq<ToolRequest>)
  {
    i <= |results|
    && evaluations == Evaluations(results[..i]) && calls == Calls(results[..i]) && sent == Sent(results[..i])
  }

  lemma NextModelResult(results: seq<ModelResult>, i: nat, evaluations: seq<CheckEvaluation>,
                        calls: seq<ModelCall>, sent: seq<ToolRequest>)
    requires i < |results| && Collected(results, i, evaluations, calls, sent)
    ensures Collected(results, i + 1, evaluations + [results[i].evaluation], calls + [results[i].call],
                      sent + (if results[i].sent.Some? then [results[i].sent.value] else []))
  {
    assert results[..i + 1][..i] == results[..i];
  }

  lemma AllCollected(results: seq<ModelResult>, evaluations: seq<CheckEvaluation>, calls: seq<ModelCall>, sent: seq<ToolRequest>)
    requires Collected(results, |results|, evaluations, calls, sent)
    ensures evaluations == Evaluations(results) && calls == Calls(results) && sent == Sent(results)
  {
    assert results[..|results|] == results;
  }

  /** The loop over the model-assisted checks of `evaluateGateAsync`. */
  method RunModelChecks(w: World, req: Request, d: Definition, checks: seq<Check>, phase: string)
    returns (evaluations: seq<CheckEvaluation>, calls: seq<ModelCall>, sent: seq<ToolRequest>)
    requires forall c :: c in checks ==> IsModelAssisted(c)
    ensures var results := ModelResults(w, req, d, checks, phase);
      evaluations == Evaluations(results) && calls == Calls(results) && sent == Sent(results)
  {
    evaluations, calls, sent := [], [], [];
    ghost var results := ModelResults(w, req, d, checks, phase);
    var i := 0;
    while i < |checks|
      invariant i <= |checks| == |results| && Collected(results, i, evaluations, calls, sent)
    {
      var evaluated := ModelCheck(w, req, d, checks[i], phase);
      evaluations, calls, sent := PushModelResult(evaluated, results, i, evaluations, calls, sent);
      i := i + 1;
    }
    AllCollected(results, evaluations, calls, sent);
  }

  method PushModelResult(evaluated: ModelResult, ghost results: seq<ModelResult>, ghost i: nat,
                         evaluations: seq<CheckEvaluation>, calls: seq<ModelCall>, sent: seq<ToolRequest>)
    returns (evaluations': seq<CheckEvaluation>, calls': seq<ModelCall>, sent': seq<ToolRequest>)
    requires i < |results| && results[i] == evaluated && Collected(results, i, evaluations, calls, sent)
    ensures Collected(results, i + 1, evaluations', calls', sent')
  {
    NextModelResult(results, i, evaluations, calls, sent);
    evaluations', calls' := evaluations + [evaluated.evaluation], calls + [evaluated.call];
    sent' := sent + if evaluated.sent.Some? then [evaluated.sent.value] else [];
  }
}
