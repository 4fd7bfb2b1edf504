/** What the eval runner promises over every request, and what registry lint promises about it. */
module EvalRunnerProofs {
  import opened Wrappers
  import opened Json
  import opened Hashing
  import opened Concatenation
  import opened DecisionHash
  import DecisionHashProofs
  import opened EvalKinds
  import opened EvalRegistry
  import opened EvalRunner
  import opened VerdictTerms

  // -------------------------------------------------------------- single checks

  /** A check is left to review exactly when the runner has no evaluator for its kind. */
  lemma ReviewExactly(w: World, t: TypedCheck, target: Option<Target>, evidence: Option<Json>)
    ensures EvaluateCheck(w, t, target, evidence).Unsure? <==> !Supported(t.kind)
  {
  }

  /** A claim is backed: it is unimportant, or refers to evidence that is all there. */
  predicate Backed(w: World, c: Check, claim: Json, evidence: Option<Json>, target: Target) {
    w.important(claim, c.importantLevels) ==>
      w.claimRefs(claim) != [] && AllKnown(w, w.claimRefs(claim), evidence, target)
  }

  /** Source fidelity passes exactly when there are claims and every one is backed. */
  lemma SourceFidelityExactly(w: World, c: Check, target: Target, evidence: Option<Json>)
    ensures EvaluateSourceFidelity(w, c, target, evidence).Passed? <==> ClaimsBacked(w, c, target, evidence)
  {
    var claims := ClaimsOf(w, c, target);
    var parts := EachClaimFindings(w, c, claims, evidence, target);
    FlatEmpty(parts);
    assert forall i :: 0 <= i < |claims| ==> (parts[i] == [] <==> Backed(w, c, claims[i], evidence, target));
  }

  predicate FieldInAll(w: World, scopes: seq<Json>, field: string) {
    scopes != [] && forall j :: 0 <= j < |scopes| ==> w.fieldPresent(scopes[j], field)
  }

  /** Every required field is there, in at least one scope and in all. */
  predicate FieldsPresent(w: World, c: Check, target: Target) {
    forall i :: 0 <= i < |c.requiredFields| ==> FieldInAll(w, w.scoped(target.content, c.path), c.requiredFields[i])
  }

  predicate SectionsPresent(w: World, c: Check, target: Target) {
    var scopes := w.scoped(target.content, Some(OrElse(c.sectionsPath, c.path).GetOr("sections")));
    forall i :: 0 <= i < |c.requiredSections| ==> w.sectionPresent(target.content, scopes, c.requiredSections[i])
  }

  predicate ClaimsBacked(w: World, c: Check, target: Target, evidence: Option<Json>) {
    var claims := ClaimsOf(w, c, target);
    claims != [] && forall i :: 0 <= i < |claims| ==> Backed(w, c, claims[i], evidence, target)
  }

  /** What a check asks of the target, by its kind. */
  predicate Meets(w: World, t: TypedCheck, target: Target, evidence: Option<Json>) {
    match t.kind
    case SourceFidelity => ClaimsBacked(w, t.check, target, evidence)
    case Completeness => SectionsPresent(w, t.check, target)
    case _ => FieldsPresent(w, t.check, target)
  }

  lemma SchemaExactly(w: World, c: Check, target: Target)
    ensures EvaluateSchema(w, c, target).Passed? <==> FieldsPresent(w, c, target)
  {
    var scopes := w.scoped(target.content, c.path);
    assert forall i :: 0 <= i < |c.requiredFields| ==>
      FieldMissing(w, scopes, c.requiredFields[i]) == !FieldInAll(w, scopes, c.requiredFields[i]);
  }

  /** A check passes exactly when there is an evaluator for it and a target, and the target has what it asks for. */
  lemma CheckPassesExactly(w: World, t: TypedCheck, target: Option<Target>, evidence: Option<Json>)
    ensures EvaluateCheck(w, t, target, evidence).Passed? <==>
      Supported(t.kind) && target.Some? && Meets(w, t, target.value, evidence)
  {
    if target.Some? {
      SourceFidelityExactly(w, t.check, target.value, evidence);
      SchemaExactly(w, t.check, target.value);
    }
  }

  // ----------------------------------------------------------------- aggregation

  predicate SomeFailed(evaluations: seq<CheckEvaluation>) {
    exists i :: 0 <= i < |evaluations| && evaluations[i].Failed?
  }

  predicate SomeUnsure(evaluations: seq<CheckEvaluation>) {
    exists i :: 0 <= i < |evaluations| && evaluations[i].Unsure?
  }

  lemma {:induction false} FindingsExactly(evaluations: seq<CheckEvaluation>)
    ensures FailedFindings(evaluations) != [] <==> SomeFailed(evaluations)
    ensures UnsureFindings(evaluations) != [] <==> SomeUnsure(evaluations)
  {
    if evaluations != [] {
      var rest := evaluations[1..];
      FindingsExactly(rest);
      assert forall i :: 0 < i < |evaluations| ==> evaluations[i] == rest[i - 1];
      assert SomeFailed(evaluations) <==> evaluations[0].Failed? || SomeFailed(rest) by {
        if SomeFailed(rest) {
          var i :| 0 <= i < |rest| && rest[i].Failed?;
          assert evaluations[i + 1].Failed?;
        }
      }
      assert SomeUnsure(evaluations) <==> evaluations[0].Unsure? || SomeUnsure(rest) by {
        if SomeUnsure(rest) {
          var i :| 0 <= i < |rest| && rest[i].Unsure?;
          assert evaluations[i + 1].Unsure?;
        }
      }
    }
  }

  /** A failure outweighs a review, which outweighs a pass. */
  lemma AggregateExactly(severity: Severity, refs: seq<string>, evaluations: seq<CheckEvaluation>, results: seq<CheckResult>)
    ensures Aggregate(severity, refs, evaluations, results).status ==
      if SomeFailed(evaluations) then Fail else if SomeUnsure(evaluations) then NeedsReview else Pass
  {
    FindingsExactly(evaluations);
  }

  lemma UnsureExactly(w: World, req: Request, d: EvalDefinition, checks: seq<TypedCheck>)
    ensures SomeUnsure(EvaluationsOf(w, req, d, checks)) <==> exists i :: 0 <= i < |checks| && !Supported(checks[i].kind)
  {
    var evaluations := EvaluationsOf(w, req, d, checks);
    forall i | 0 <= i < |checks|
      ensures evaluations[i].Unsure? <==> !Supported(checks[i].kind)
    {
      ReviewExactly(w, checks[i], w.resolveTarget(d), req.evidence);
    }
    if exists i :: 0 <= i < |checks| && !Supported(checks[i].kind) {
      var i :| 0 <= i < |checks| && !Supported(checks[i].kind);
      assert evaluations[i].Unsure?;
    }
  }

  /**
   A definition that has checks of its own passes exactly when it has some and the target
   has what each of them asks for.
   */
  lemma DeterministicPassesExactly(w: World, req: Request, d: EvalDefinition, kind: Kind)
    ensures var checks, target := ChecksFor(d, kind), w.resolveTarget(d);
      DecideDeterministic(w, req, d, kind).status == Pass <==>
        checks != [] && target.Some? && forall i :: 0 <= i < |checks| ==>
          Supported(checks[i].kind) && Meets(w, checks[i], target.value, req.evidence)
  {
    var checks, target := ChecksFor(d, kind), w.resolveTarget(d);
    var evaluations := EvaluationsOf(w, req, d, checks);
    AggregateExactly(SeverityOf(d), TargetRefs(target), evaluations, ResultsOf(w, checks, evaluations));
    forall i | 0 <= i < |checks|
      ensures evaluations[i].Passed? <==>
        Supported(checks[i].kind) && target.Some? && Meets(w, checks[i], target.value, req.evidence)
    {
      CheckPassesExactly(w, checks[i], target, req.evidence);
    }
    AllPassedExactly(evaluations);
  }

  lemma AllPassedExactly(evaluations: seq<CheckEvaluation>)
    ensures !SomeFailed(evaluations) && !SomeUnsure(evaluations) <==>
      forall i :: 0 <= i < |evaluations| ==> evaluations[i].Passed?
  {
  }

  // ------------------------------------------------------------------------ lint

  /**
   Lint is exact for the runner: a definition that is not routed away is left to review
   exactly when lint finds an issue with its checks and none of them fails.
   */
  lemma LintExactly(w: World, req: Request, d: EvalDefinition, kind: Kind)
    ensures DecideDeterministic(w, req, d, kind).status == NeedsReview <==>
      CheckIssues(ChecksFor(d, kind)) != [] && !SomeFailed(EvaluationsOf(w, req, d, ChecksFor(d, kind)))
  {
    var checks := ChecksFor(d, kind);
    CheckIssuesExactly(checks);
    LintDecides(w, req, d, checks);
  }

  lemma LintDecides(w: World, req: Request, d: EvalDefinition, checks: seq<TypedCheck>)
    ensures DecideChecks(w, req, d, checks).status == NeedsReview <==>
      (exists i :: 0 <= i < |checks| && !Supported(checks[i].kind)) && !SomeFailed(EvaluationsOf(w, req, d, checks))
  {
    var evaluations := EvaluationsOf(w, req, d, checks);
    UnsureExactly(w, req, d, checks);
    AggregateExactly(SeverityOf(d), TargetRefs(w.resolveTarget(d)), evaluations, ResultsOf(w, checks, evaluations));
  }

  /** The definition that a request resolves to. */
  function DefinitionOf(w: World, req: Request): EvalDefinition
    requires Resolve(w, req).Resolved?
  {
    w.view(Resolve(w, req).definition)
  }

  lemma LintedDecision(w: World, req: Request)
    requires Resolve(w, req).Resolved?
    requires Lint(DefinitionOf(w, req)) == [] && !Routed(EvalKind(DefinitionOf(w, req)))
    ensures Decide(w, req).status != NeedsReview
  {
    var d := DefinitionOf(w, req);
    LintExactly(w, req, d, EvalKind(d));
  }

  /** A built verdict has the decided status, or fails because its inputs could not be hashed. */
  lemma VerdictStatus(w: World, req: Request, decision: Decision)
    ensures VerdictOf(w, req, decision).status == decision.status || VerdictOf(w, req, decision).status == Fail
  {
    DecisionHashProofs.BuiltStatus(w.sha, InputFor(w, req, decision), w.hashingFailure);
  }

  /**
   Registry lint is sound for the evaluator: with a registry that was built, a resolved
   definition of a kind that is not routed away never gets a review verdict.
   */
  lemma LintIsSound(w: World, req: Request, packageId: string, definitions: seq<Json>)
    requires BuildRegistry(w.sha, packageId, definitions, w.view) == Ok(req.registry)
    requires Resolve(w, req).Resolved? ==> !Routed(EvalKind(DefinitionOf(w, req)))
    ensures RunEval(w, req).status != NeedsReview
  {
    if Resolve(w, req).Resolved? {
      RegistryResolvesLinted(w.sha, packageId, definitions, w.view);
      LintedDecision(w, req);
    }
    VerdictStatus(w, req, Decide(w, req));
  }

  /** The request gets as far as the kind of its definition, which is model-assisted. */
  predicate ReachesModel(w: World, req: Request) {
    && Resolve(w, req).Resolved?
    && var d := DefinitionOf(w, req);
    Preliminary(w, req, d).None? && IsModelKind(EvalKind(d))
  }

  /** Without a model-assisted kind, the guarded aggregation is the plain one. */
  lemma GuardedIsAggregate(w: World, req: Request, d: EvalDefinition, kind: Kind, checks: seq<TypedCheck>)
    ensures var guarded, plain := DecideGuarded(w, req, d, kind, checks), DecideChecks(w, req, d, checks);
      !IsModelKind(kind) || plain.status != Pass ==> guarded == plain
  {
  }

  /** With a model-assisted kind, some check result is left in the decision. */
  lemma GuardedLeavesResults(w: World, req: Request, d: EvalDefinition, kind: Kind, checks: seq<TypedCheck>)
    requires IsModelKind(kind)
    ensures DecideGuarded(w, req, d, kind, checks).checkResults != []
  {
    if checks == [] {
      assert EvaluateAll(w, checks, w.resolveTarget(d), req.evidence) == [];
    }
  }

  /**
   The two entry points agree exactly on what is settled without a model: on every request
   but those that get as far as a model-assisted kind, where they always decide differently.
   */
  lemma SyncIsAsync(w: World, req: Request)
    ensures DecideAsync(w, req) == Decide(w, req) <==> !ReachesModel(w, req)
    ensures !ReachesModel(w, req) ==> RunEvalAsync(w, req) == RunEval(w, req)
  {
    if Resolve(w, req).Resolved? {
      var d := DefinitionOf(w, req);
      var kind := EvalKind(d);
      if IsModelKind(kind) {
        GuardedLeavesResults(w, req, d, kind, OwnChecks(d, kind));
      } else {
        GuardedIsAggregate(w, req, d, kind, ChecksFor(d, kind));
      }
    }
  }

  // -------------------------------------------------------------- model-assisted

  /** The grading model was asked, answered within its budgets, and proposed a pass. */
  predicate GraderPasses(w: World, req: Request, d: EvalDefinition) {
    && d.grader.Some? && req.broker.Some?
    && var g := d.grader.value;
    var context := w.parseInput(g, w.project(g, w.resolveTarget(d)));
    && context.Some? && w.tokens(context.value) <= g.maxTokens
    && var reply := req.broker.value(context.value);
    && reply.Answered? && reply.status == Success && reply.output.Some?
    && w.tokens(reply.output.value) <= g.maxTokens
    && w.parseOutput(g, reply.output.value).Some?
    && ProposalStatus(w.parseOutput(g, reply.output.value).value).ProposesPass?
  }

  lemma GradePassesExactly(w: World, req: Request, d: EvalDefinition, severity: Severity)
    ensures Grade(w, req, d, w.resolveTarget(d), severity).status == Pass <==> severity == Advisory && GraderPasses(w, req, d)
  {
    if d.grader.Some? && req.broker.Some? {
      var g := d.grader.value;
      var context := w.parseInput(g, w.project(g, w.resolveTarget(d)));
      if context.Some? {
        ReplyPassesExactly(w, g, severity, req.broker.value(context.value));
      }
    }
  }

  lemma ReplyPassesExactly(w: World, g: Grader, severity: Severity, reply: BrokerReply)
    ensures JudgeReply(w, g, severity, reply).status == Pass <==>
      && severity == Advisory && reply.Answered? && reply.status == Success && reply.output.Some?
      && w.tokens(reply.output.value) <= g.maxTokens && w.parseOutput(g, reply.output.value).Some?
      && ProposalStatus(w.parseOutput(g, reply.output.value).value).ProposesPass?
  {
  }

  /**
   A model-assisted definition passes exactly when it is advisory, none of its other checks
   fails or needs review, and the grading model proposes a pass within its budgets.
   */
  lemma ModelAssistedPassesExactly(w: World, req: Request, d: EvalDefinition, kind: Kind)
    requires IsModelKind(kind)
    ensures var checks := OwnChecks(d, kind);
      DecideGuarded(w, req, d, kind, checks).status == Pass <==>
        && SeverityOf(d) == Advisory && GraderPasses(w, req, d)
        && !SomeFailed(EvaluationsOf(w, req, d, checks)) && !SomeUnsure(EvaluationsOf(w, req, d, checks))
  {
    FindingsExactly(EvaluationsOf(w, req, d, OwnChecks(d, kind)));
    GradePassesExactly(w, req, d, SeverityOf(d));
  }

  lemma BlockingDecisions(w: World, req: Request)
    requires Resolve(w, req).Resolved?
    requires IsModelKind(EvalKind(DefinitionOf(w, req))) && SeverityOf(DefinitionOf(w, req)) == Blocking
    ensures DecideAsync(w, req).status != Pass && Decide(w, req).status != Pass
  {
    var d := DefinitionOf(w, req);
    ModelAssistedPassesExactly(w, req, d, EvalKind(d));
  }

  /** A blocking model-assisted definition never passes, whatever the broker answers. */
  lemma BlockingNeverPassesByModel(w: World, req: Request)
    requires Resolve(w, req).Resolved?
    requires IsModelKind(EvalKind(DefinitionOf(w, req))) && SeverityOf(DefinitionOf(w, req)) == Blocking
    ensures RunEvalAsync(w, req).status != Pass && RunEval(w, req).status != Pass
  {
    BlockingDecisions(w, req);
    VerdictStatus(w, req, DecideAsync(w, req));
    VerdictStatus(w, req, Decide(w, req));
  }

  /** A supplied definition that the registry does not trust is not evaluated: the verdict blocks. */
  lemma UnresolvedFails(w: World, req: Request)
    requires !Resolve(w, req).Resolved?
    ensures RunEval(w, req).status == Fail && RunEval(w, req).severity == Blocking
    ensures RunEvalAsync(w, req) == RunEval(w, req)
  {
  }

  /** Every verdict of either entry point recomputes from its own causation ids. */
  lemma RunVerdictsRecompute(w: World, req: Request, decision: Decision)
    requires HexOutput(w.sha)
    ensures var v := VerdictOf(w, req, decision);
      && v.provenance.Some? && v.provenance.value.decisionHash.Some?
      && Recompute(w.sha, v, None) == Ok(v.provenance.value.decisionHash.value)
  {
    DecisionHashProofs.BuiltVerdictRecomputes(w.sha, InputFor(w, req, decision), w.hashingFailure);
  }
}
