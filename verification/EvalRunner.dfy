/**
 The eval runner: evaluating the checks of a registered definition, with and without a
 model-assisted grader, and what the verdict is built from.
 */
module EvalRunner {
  import opened Wrappers
  import opened Json
  import opened Hashing
  import opened Concatenation
  import opened DecisionHash
  import opened EvalKinds
  import opened EvalRegistry
  import opened VerdictTerms

  datatype Target = Target(ref: string, content: Json, evidenceRefs: seq<string>)

  datatype ToolStatus = Success | Denied | ApprovalRequired | ToolFailed

  /** What the broker does with a grader request: throw, answer in another shape, or answer. */
  datatype BrokerReply = Threw | Malformed | Answered(status: ToolStatus, output: Option<Json>, traceId: Option<string>)

  /** The properties that the runner reads from a grader's parsed output, empty where missing. */
  datatype Proposal = Proposal(status: string, outcome: string, evidenceRefs: seq<string>)

  /**
   Everything outside the runner: reading paths and claims of artifact content, the known
   evidence, a grading model's context, schemas and token estimate, and the wording of messages.
   */
  datatype World = World(
    sha: Sha,
    view: Json -> EvalDefinition,
    say: string -> string,
    resolveTarget: EvalDefinition -> Option<Target>,
    scoped: (Json, Option<string>) -> seq<Json>,
    fieldPresent: (Json, string) -> bool,
    sectionPresent: (Json, seq<Json>, string) -> bool,
    important: (Json, seq<string>) -> bool,
    claimRefs: Json -> seq<string>,
    evidenceKnown: (Json, string, Target) -> bool,
    project: (Grader, Option<Target>) -> Json,
    parseInput: (Grader, Json) -> Option<Json>,
    parseOutput: (Grader, Json) -> Option<Proposal>,
    tokens: Json -> int,
    findingPath: (TypedCheck, CheckEvaluation) -> Option<string>,
    modelCallId: (EvalDefinition, seq<CheckResult>) -> string,
    hashingFailure: string)

  datatype Request = Request(
    registry: Registry, harnessPackageId: Option<string>, evalId: Option<string>, supplied: Option<Json>,
    evidence: Option<Json>, evaluatorRef: string, broker: Option<Json -> BrokerReply>,
    phase: Option<string>, runId: Option<string>, traceId: Option<string>,
    graderManifest: Option<GraderManifest>,
    datasetFailure: EvalDefinition -> Option<Finding>)

  datatype CheckEvaluation =
    | Passed(evidenceRefs: seq<string>)
    | Failed(finding: Finding, evidenceRefs: seq<string>)
    | Unsure(finding: Finding, evidenceRefs: seq<string>)

  // -------------------------------------------------------------- single checks

  function Failure(w: World, code: string, refs: seq<string>): CheckEvaluation {
    Failed(Finding(code, w.say(code)), refs)
  }

  predicate FieldMissing(w: World, scopes: seq<Json>, field: string) {
    scopes == [] || exists i :: 0 <= i < |scopes| && !w.fieldPresent(scopes[i], field)
  }

  predicate AnyFieldMissing(w: World, scopes: seq<Json>, fields: seq<string>) {
    exists i :: 0 <= i < |fields| && FieldMissing(w, scopes, fields[i])
  }

  function EvaluateSchema(w: World, c: Check, target: Target): CheckEvaluation {
    if AnyFieldMissing(w, w.scoped(target.content, c.path), c.requiredFields)
    then Failure(w, "artifact.required_fields.missing", c.evidenceRefs)
    else Passed(c.evidenceRefs)
  }

  predicate AnySectionMissing(w: World, content: Json, scopes: seq<Json>, sections: seq<string>) {
    exists i :: 0 <= i < |sections| && !w.sectionPresent(content, scopes, sections[i])
  }

  function EvaluateCompleteness(w: World, c: Check, target: Target): CheckEvaluation {
    var path := OrElse(c.sectionsPath, c.path).GetOr("sections");
    if AnySectionMissing(w, target.content, w.scoped(target.content, Some(path)), c.requiredSections)
    then Failure(w, "artifact.sections.missing", c.evidenceRefs)
    else Passed(c.evidenceRefs)
  }

  /** The records among some values, and among the items of those that are lists. */
  function ClaimsAmong(values: seq<Json>): seq<Json> {
    if values == [] then []
    else (match values[0]
          case JObj(_) => [values[0]]
          case JArr(items) => RecordsAmong(items)
          case _ => []) + ClaimsAmong(values[1..])
  }

  function RecordsAmong(items: seq<Json>): seq<Json> {
    if items == [] then [] else (if items[0].JObj? then [items[0]] else []) + RecordsAmong(items[1..])
  }

  function ClaimsOf(w: World, c: Check, target: Target): seq<Json> {
    ClaimsAmong(w.scoped(target.content, Some(OrElse(c.claimsPath, c.path).GetOr("claims"))))
  }

  /** The evidence that a claim refers to is there: unknown only when there is a snapshot to look in. */
  predicate AllKnown(w: World, refs: seq<string>, evidence: Option<Json>, target: Target) {
    evidence.Some? ==> forall i :: 0 <= i < |refs| ==> w.evidenceKnown(evidence.value, refs[i], target)
  }

  function ClaimFindings(w: World, c: Check, claim: Json, evidence: Option<Json>, target: Target): seq<Finding> {
    if !w.important(claim, c.importantLevels) then []
    else
      var refs := w.claimRefs(claim);
      if refs == [] then [Finding("claim.evidence_refs.missing", w.say("claim.evidence_refs.missing"))]
      else if AllKnown(w, refs, evidence, target) then []
      else [Finding("claim.evidence.missing", w.say("claim.evidence.missing"))]
  }

  function ClaimEvidence(w: World, c: Check, claim: Json): seq<string> {
    if w.important(claim, c.importantLevels) then w.claimRefs(claim) else []
  }

  function EachClaimFindings(w: World, c: Check, claims: seq<Json>, evidence: Option<Json>, target: Target): seq<seq<Finding>> {
    seq(|claims|, i requires 0 <= i < |claims| => ClaimFindings(w, c, claims[i], evidence, target))
  }

  function EachClaimEvidence(w: World, c: Check, claims: seq<Json>): seq<seq<string>> {
    seq(|claims|, i requires 0 <= i < |claims| => ClaimEvidence(w, c, claims[i]))
  }

  function JudgeClaims(w: World, findings: seq<Finding>, refs: seq<string>): CheckEvaluation {
    if findings != [] then Failure(w, "source_fidelity.failed", Unique(refs)) else Passed(Unique(refs))
  }

  function EvaluateSourceFidelity(w: World, c: Check, target: Target, evidence: Option<Json>): CheckEvaluation {
    var claims := ClaimsOf(w, c, target);
    if claims == [] then Failure(w, "claims.missing", c.evidenceRefs)
    else JudgeClaims(w, Flat(EachClaimFindings(w, c, claims, evidence, target)),
                     c.evidenceRefs + Flat(EachClaimEvidence(w, c, claims)))
  }

  /** The loop over claims of the source-fidelity check. */
  method CollectClaims(w: World, c: Check, claims: seq<Json>, evidence: Option<Json>, target: Target)
    returns (findings: seq<Finding>, evidenceRefs: seq<string>)
    ensures findings == Flat(EachClaimFindings(w, c, claims, evidence, target))
    ensures evidenceRefs == c.evidenceRefs + Flat(EachClaimEvidence(w, c, claims))
  {
    findings, evidenceRefs := [], c.evidenceRefs;
    ghost var found, cited := EachClaimFindings(w, c, claims, evidence, target), EachClaimEvidence(w, c, claims);
    var i := 0;
    while i < |claims|
      invariant i <= |claims| == |found| == |cited|
      invariant findings == Flat(found[..i]) && evidenceRefs == c.evidenceRefs + Flat(cited[..i])
    {
      FlatNext(found, i);
      AppendNext(c.evidenceRefs, cited, i);
      findings, evidenceRefs := CollectClaim(w, c, claims[i], evidence, target, findings, evidenceRefs);
      i := i + 1;
    }
    FlatAll(found);
    FlatAll(cited);
  }

  method CollectClaim(w: World, c: Check, claim: Json, evidence: Option<Json>, target: Target,
                      before: seq<Finding>, refsBefore: seq<string>)
    returns (findings: seq<Finding>, evidenceRefs: seq<string>)
    ensures findings == before + ClaimFindings(w, c, claim, evidence, target)
    ensures evidenceRefs == refsBefore + ClaimEvidence(w, c, claim)
  {
    findings, evidenceRefs := before, refsBefore;
    if w.important(claim, c.importantLevels) {
      var refs := w.claimRefs(claim);
      evidenceRefs := evidenceRefs + refs;
      if refs == [] {
        findings := findings + [Finding("claim.evidence_refs.missing", w.say("claim.evidence_refs.missing"))];
      } else if !AllKnown(w, refs, evidence, target) {
        findings := findings + [Finding("claim.evidence.missing", w.say("claim.evidence.missing"))];
      }
    }
  }

  /** `evaluateCheck` */
  function EvaluateCheck(w: World, t: TypedCheck, target: Option<Target>, evidence: Option<Json>): CheckEvaluation {
    if !Supported(t.kind) then
      Unsure(Finding("eval.check.unsupported", w.say("eval.check.unsupported")), t.check.evidenceRefs)
    else if target.None? then Failure(w, "eval.target.missing", t.check.evidenceRefs)
    else match t.kind
      case SourceFidelity => EvaluateSourceFidelity(w, t.check, target.value, evidence)
      case Completeness => EvaluateCompleteness(w, t.check, target.value)
      case _ => EvaluateSchema(w, t.check, target.value)
  }

  // ------------------------------------------------------------------ model grader

  /** What a grading model contributed; `traceId` is that of the broker's answer, `judged` says whether its output was parsed. */
  datatype Contribution = Contribution(
    status: Status, finding: Finding, evidenceRefs: seq<string>, producedByRef: string, traceId: Option<string>, judged: bool)

  datatype Proposed = ProposesPass | ProposesFail | ProposesReview

  function ProposalStatus(p: Proposal): Proposed {
    var value := if p.status != "" then p.status else p.outcome;
    if value == "pass" || value == "clean" then ProposesPass
    else if value == "fail" || value == "blocking" then ProposesFail
    else ProposesReview
  }

  function ClosedGrader(w: World, status: Status, code: string, ref: string): Contribution {
    Contribution(status, Finding(code, w.say(code)), [], ref, None, false)
  }

  function Review(w: World, code: string, g: Grader): Contribution {
    ClosedGrader(w, NeedsReview, code, g.name)
  }

  function BadOutput(w: World, code: string, g: Grader): Contribution {
    ClosedGrader(w, if g.failOnInvalid then Fail else NeedsReview, code, g.name)
  }

  /** `validOutputContribution` */
  function Contributed(w: World, g: Grader, severity: Severity, p: Proposal, traceId: Option<string>): Contribution {
    var refs := Unique(p.evidenceRefs);
    match ProposalStatus(p)
    case ProposesPass =>
      if severity == Blocking then
        Contribution(NeedsReview, Finding("eval.grader.blocking_pass_not_authoritative",
                                          w.say("eval.grader.blocking_pass_not_authoritative")), refs, g.name, traceId, true)
      else
        Contribution(Pass, Finding("eval.grader.advisory_pass", w.say("eval.grader.advisory_pass")), refs, g.name, traceId, true)
    case proposed =>
      var failed := proposed.ProposesFail? && g.blocking;
      var code := if failed then "eval.grader.failed" else "eval.grader.needs_review";
      Contribution(if failed then Fail else NeedsReview, Finding(code, w.say(code)), refs, g.name, traceId, true)
  }

  function JudgeReply(w: World, g: Grader, severity: Severity, reply: BrokerReply): Contribution {
    match reply
    case Threw => Review(w, "eval.grader.result_invalid", g)
    case Malformed => Review(w, "eval.grader.result_invalid", g)
    case Answered(status, output, traceId) =>
      if status != Success then Review(w, "eval.grader.not_successful", g)
      else if output.None? then BadOutput(w, "eval.grader.output_invalid", g)
      else if w.tokens(output.value) > g.maxTokens then BadOutput(w, "eval.grader.output_over_budget", g)
      else match w.parseOutput(g, output.value)
        case None => BadOutput(w, "eval.grader.output_invalid", g)
        case Some(proposal) => Contributed(w, g, severity, proposal, traceId)
  }

  /** `evaluateModelAssistedGrader` */
  function Grade(w: World, req: Request, d: EvalDefinition, target: Option<Target>, severity: Severity): Contribution {
    match d.grader
    case None => ClosedGrader(w, NeedsReview, "eval.grader.incomplete", "")
    case Some(g) =>
      if req.broker.None? then Review(w, "eval.grader.broker_missing", g)
      else match w.parseInput(g, w.project(g, target))
        case None => Review(w, "eval.grader.input_invalid", g)
        case Some(context) =>
          if w.tokens(context) > g.maxTokens then Review(w, "eval.grader.context_over_budget", g)
          else JudgeReply(w, g, severity, req.broker.value(context))
  }

  // ---------------------------------------------------------------------- running

  function SeverityOf(d: EvalDefinition): Severity {
    if d.severity.Some? then d.severity.value
    else if d.blocking == Some(false) || d.required == Some(false) then Advisory else Blocking
  }

  function Resolve(w: World, req: Request): Resolution {
    var suppliedId := if req.supplied.Some? then Some(w.view(req.supplied.value).id) else None;
    ResolveFromRegistry(w.sha, req.registry, req.harnessPackageId.GetOr(req.registry.harnessPackageId),
                        OrElse(req.evalId, suppliedId).GetOr("unknown_eval"), req.supplied, w.view)
  }

  /** What a run decides, before the verdict is bound to its inputs. */
  datatype Decision = Decision(
    status: Status, severity: Severity, findings: seq<Finding>, evidenceRefs: seq<string>,
    checkResults: seq<CheckResult>, grading: Option<Contribution>, traced: bool)

  function Blocked(w: World, code: string): Decision {
    Decision(Fail, Blocking, [Finding(code, w.say(code))], [], [], None, false)
  }

  /** A check result that stands for a step of the run rather than for a check. */
  function StepResult(kind: string, status: Status, code: string): CheckResult {
    CheckResult(None, Some(kind), status, Some(code), None)
  }

  function ResultOf(w: World, t: TypedCheck, e: CheckEvaluation): CheckResult {
    CheckResult(t.check.id, Some(KindText(t.kind)),
                match e case Passed(_) => Pass case Failed(_, _) => Fail case Unsure(_, _) => NeedsReview,
                if e.Passed? then None else Some(e.finding.code), w.findingPath(t, e))
  }

  function EvaluateAll(w: World, checks: seq<TypedCheck>, target: Option<Target>, evidence: Option<Json>): seq<CheckEvaluation> {
    seq(|checks|, i requires 0 <= i < |checks| => EvaluateCheck(w, checks[i], target, evidence))
  }

  function ResultsOf(w: World, checks: seq<TypedCheck>, evaluations: seq<CheckEvaluation>): seq<CheckResult>
    requires |checks| == |evaluations|
  {
    seq(|checks|, i requires 0 <= i < |checks| => ResultOf(w, checks[i], evaluations[i]))
  }

  function FailedFindings(evaluations: seq<CheckEvaluation>): seq<Finding> {
    if evaluations == [] then []
    else (if evaluations[0].Failed? then [evaluations[0].finding] else []) + FailedFindings(evaluations[1..])
  }

  function UnsureFindings(evaluations: seq<CheckEvaluation>): seq<Finding> {
    if evaluations == [] then []
    else (if evaluations[0].Unsure? then [evaluations[0].finding] else []) + UnsureFindings(evaluations[1..])
  }

  function RefsOf(evaluations: seq<CheckEvaluation>): seq<string> {
    if evaluations == [] then [] else evaluations[0].evidenceRefs + RefsOf(evaluations[1..])
  }

  function TargetRefs(target: Option<Target>): seq<string> {
    if target.Some? then target.value.evidenceRefs else []
  }

  /** The decision from evaluated checks alone. */
  function Aggregate(severity: Severity, refs: seq<string>, evaluations: seq<CheckEvaluation>, results: seq<CheckResult>): Decision {
    var failed, unsure := FailedFindings(evaluations), UnsureFindings(evaluations);
    var all := Unique(refs + RefsOf(evaluations));
    if failed != [] then Decision(Fail, severity, failed, all, results, None, false)
    else if unsure != [] then Decision(NeedsReview, severity, unsure, all, results, None, false)
    else Decision(Pass, severity, [], all, results, None, false)
  }

  function EvaluationsOf(w: World, req: Request, d: EvalDefinition, checks: seq<TypedCheck>): seq<CheckEvaluation> {
    EvaluateAll(w, checks, w.resolveTarget(d), req.evidence)
  }

  function DecideChecks(w: World, req: Request, d: EvalDefinition, checks: seq<TypedCheck>): Decision {
    var evaluations := EvaluationsOf(w, req, d, checks);
    Aggregate(SeverityOf(d), TargetRefs(w.resolveTarget(d)), evaluations, ResultsOf(w, checks, evaluations))
  }

  function UnsupportedStatus(d: EvalDefinition): Status {
    if d.unsupportedStatus == Some(Fail) || d.unsupportedStatus == Some(Skipped) then d.unsupportedStatus.value else NeedsReview
  }

  function Unsupported(w: World, d: EvalDefinition): Decision {
    var status := UnsupportedStatus(d);
    Decision(status, SeverityOf(d),
             if status == Skipped then [] else [Finding("eval.type.unsupported", w.say("eval.type.unsupported"))],
             TargetRefs(w.resolveTarget(d)), [], None, false)
  }

  function ChecksMissing(w: World, d: EvalDefinition): Decision {
    Decision(NeedsReview, SeverityOf(d), [Finding("eval.checks.missing", w.say("eval.checks.missing"))],
             TargetRefs(w.resolveTarget(d)), [], None, false)
  }

  /** What happens before the kind of a definition matters: nothing, a dataset failure or a skip. */
  function Preliminary(w: World, req: Request, d: EvalDefinition): Option<Decision> {
    match req.datasetFailure(d)
    case Some(finding) =>
      Some(Decision(Fail, Blocking, [finding], TargetRefs(w.resolveTarget(d)),
                    [StepResult("dataset", Fail, finding.code)], None, true))
    case None =>
      if d.skipped then Some(Decision(Skipped, SeverityOf(d), [], TargetRefs(w.resolveTarget(d)), [], None, false)) else None
  }

  /** A definition of a kind that has checks of its own, without a model. */
  function DecideDeterministic(w: World, req: Request, d: EvalDefinition, kind: Kind): Decision {
    var checks := ChecksFor(d, kind);
    if checks == [] then ChecksMissing(w, d) else DecideChecks(w, req, d, checks)
  }

  function WithoutModelChecks(checks: seq<TypedCheck>): seq<TypedCheck> {
    if checks == [] then []
    else (if IsModelKind(checks[0].kind) then [] else [checks[0]]) + WithoutModelChecks(checks[1..])
  }

  const NO_GOLDEN := "eval.grader.golden_regression_missing"

  /** A blocking eval needs a grader whose golden regression run passed; the request's manifest goes first. */
  predicate Barred(req: Request, d: EvalDefinition) {
    var manifest := if req.graderManifest.Some? then req.graderManifest else d.graderManifest;
    manifest.Some? && SeverityOf(d) == Blocking && !manifest.value.goldenPassed
  }

  /** A contribution from a parsed output names its call; a clean one has no code. */
  function GradingResult(w: World, d: EvalDefinition, before: seq<CheckResult>, grading: Contribution): CheckResult {
    CheckResult(if grading.judged then Some(w.modelCallId(d, before)) else None, Some("model_assisted"), grading.status,
                if grading.status == Pass then None else Some(grading.finding.code), None)
  }

  function Graded(w: World, d: EvalDefinition, refs: seq<string>, results: seq<CheckResult>, grading: Contribution): Decision {
    Decision(grading.status, SeverityOf(d), [grading.finding], Unique(refs + grading.evidenceRefs),
             results + [GradingResult(w, d, results, grading)], Some(grading), true)
  }

  /** What `runEval` decides. */
  function Decide(w: World, req: Request): Decision {
    match Resolve(w, req)
    case Untrusted(_, _, _) => Blocked(w, "eval.definition.untrusted")
    case Missing(_) => Blocked(w, "eval.definition.missing")
    case Resolved(_, _, json) =>
      var d := w.view(json);
      match Preliminary(w, req, d)
      case Some(decision) => decision
      case None => if Routed(EvalKind(d)) then Unsupported(w, d) else DecideDeterministic(w, req, d, EvalKind(d))
  }

  /** The end of `runEvalAsync`: one aggregation, in which only a model-assisted kind gets to its grader. */
  function DecideGuarded(w: World, req: Request, d: EvalDefinition, kind: Kind, checks: seq<TypedCheck>): Decision {
    var severity, target := SeverityOf(d), w.resolveTarget(d);
    var evaluations := EvaluateAll(w, checks, target, req.evidence);
    var results := ResultsOf(w, checks, evaluations);
    var failed, unsure := FailedFindings(evaluations), UnsureFindings(evaluations);
    var refs := Unique(TargetRefs(target) + RefsOf(evaluations));
    if failed != [] then Decision(Fail, severity, failed, refs, results, None, false)
    else if !IsModelKind(kind) && unsure != [] then Decision(NeedsReview, severity, unsure, refs, results, None, false)
    else if !IsModelKind(kind) then Decision(Pass, severity, [], refs, results, None, false)
    else if unsure != [] then Decision(NeedsReview, severity, unsure, refs, results, None, false)
    else if Barred(req, d) then
      Decision(NeedsReview, Advisory, [Finding(NO_GOLDEN, w.say(NO_GOLDEN))], refs,
               results + [StepResult("model_assisted", NeedsReview, NO_GOLDEN)], None, false)
    else Graded(w, d, refs, results, Grade(w, req, d, target, severity))
  }

  /** The checks that `runEvalAsync` evaluates without a model. */
  function OwnChecks(d: EvalDefinition, kind: Kind): seq<TypedCheck> {
    var checks := ChecksFor(d, kind);
    if IsModelKind(kind) then WithoutModelChecks(checks) else checks
  }

  /** What `runEvalAsync` decides. */
  function DecideAsync(w: World, req: Request): Decision {
    match Resolve(w, req)
    case Untrusted(_, _, _) => Blocked(w, "eval.definition.untrusted")
    case Missing(_) => Blocked(w, "eval.definition.missing")
    case Resolved(_, _, json) =>
      var d := w.view(json);
      match Preliminary(w, req, d)
      case Some(decision) => decision
      case None =>
        var kind := EvalKind(d);
        if Routed(kind) && !IsModelKind(kind) then Unsupported(w, d)
        else if !IsModelKind(kind) && ChecksFor(d, kind) == [] then ChecksMissing(w, d)
        else DecideGuarded(w, req, d, kind, OwnChecks(d, kind))
  }

  /** The resolved inputs that the verdict is bound to. */
  function ContextFor(w: World, req: Request, decision: Decision): DecisionContext {
    var evidence := req.evidence.GetOr(JUndefined);
    match Resolve(w, req)
    case Missing(_) => DecisionContext(JUndefined, evidence, JUndefined, None, decision.checkResults)
    case Untrusted(_, registered, supplied) =>
      DecisionContext(JUndefined, evidence, JUndefined,
                      Some(Digest(w.sha, StableText(JObj([Field("status", JStr("untrusted")),
                        Field("registeredContentHash", JStr(registered)), Field("suppliedContentHash", JStr(supplied))])))),
                      decision.checkResults)
    case Resolved(_, contentHash, json) =>
      var target := w.resolveTarget(w.view(json));
      DecisionContext(if target.Some? then target.value.content else JUndefined, evidence, json, Some(contentHash),
                      decision.checkResults)
  }

  /** The target's own reference, else the first declared one, else that of the eval. */
  function TargetRefOf(w: World, resolution: Resolution, evalId: string): string {
    var own := "eval:" + evalId;
    if !resolution.Resolved? then own
    else
      var d := w.view(resolution.definition);
      var target := w.resolveTarget(d);
      if target.Some? then target.value.ref
      else if d.targets == [] then own
      else if "artifact:" <= d.targets[0] || "eval:" <= d.targets[0] then d.targets[0]
      else "artifact:" + d.targets[0]
  }

  function InputFor(w: World, req: Request, decision: Decision): VerdictInput {
    var evalId := OrElse(req.evalId, if req.supplied.Some? then Some(w.view(req.supplied.value).id) else None)
      .GetOr(Resolve(w, req).definitionId);
    var grading := decision.grading;
    VerdictInput(evalId, TargetRefOf(w, Resolve(w, req), evalId),
                 decision.status, decision.severity, decision.findings, decision.evidenceRefs, req.evaluatorRef,
                 if grading.Some? && grading.value.producedByRef != ""
                 then Some(ProducedBy("model_assisted", grading.value.producedByRef)) else None,
                 if decision.traced then req.runId else None, if decision.traced then req.phase else None,
                 if !decision.traced then None
                 else OrElse(if grading.Some? then grading.value.traceId else None, req.traceId),
                 ContextFor(w, req, decision))
  }

  function VerdictOf(w: World, req: Request, decision: Decision): Verdict {
    BuildVerdict(w.sha, InputFor(w, req, decision), w.hashingFailure)
  }

  /** `runEval` */
  function RunEval(w: World, req: Request): Verdict {
    VerdictOf(w, req, Decide(w, req))
  }

  /** `runEvalAsync` */
  function RunEvalAsync(w: World, req: Request): Verdict {
    VerdictOf(w, req, DecideAsync(w, req))
  }
}
