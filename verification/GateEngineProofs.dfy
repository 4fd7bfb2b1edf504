/** What the gate engine promises over every request. */
module GateEngineProofs {
  import opened Wrappers
  import opened JsText
  import opened Json
  import opened CanonicalText
  import opened Hashing
  import opened GateVerdict
  import opened GateContext
  import opened GateEngine
  import opened VerdictTerms
  import DecisionHash

  predicate Advances(i: Instruction) {
    i.Continue? || i.TransitionPhase?
  }

  predicate AllPass(evaluations: seq<CheckEvaluation>) {
    forall i :: 0 <= i < |evaluations| ==> evaluations[i].Passed?
  }

  /** Aggregation advances exactly when every evaluation passed. */
  lemma AggregateAdvances(w: World, d: Definition, f: Frame, evaluations: seq<CheckEvaluation>,
                          input: Option<GateInput>, kind: EvaluatorKind, calls: Option<seq<ModelCall>>)
    ensures var r := Aggregate(w, d, f, evaluations, input, kind, calls);
      && (Advances(r.instruction) <==> AllPass(evaluations))
      && (r.body.status == Pass <==> AllPass(evaluations))
  {
    AllPassExactly(evaluations);
    var failed, unsure, refs := FailuresOf(evaluations), ReviewsOf(evaluations), EvaluationRefs(evaluations);
    if failed != [] {
      var bypassing := BypassingOf(failed, true);
      var ordered := if bypassing != [] then bypassing + BypassingOf(failed, false) else failed;
      var fallback := if bypassing != [] then FailTheRun else FirstAction(failed).GetOr(Repair);
      FailingHolds(w, d, f, FindingsOf(ordered), DecisionHash.Unique(refs), input, fallback, kind, calls, bypassing != []);
    } else if unsure != [] {
      ReviewHolds(w, d, f, unsure, refs, kind, calls);
    } else {
      PassGoesOn(w, d, f, refs, kind, calls);
    }
  }

  lemma FailingHolds(w: World, d: Definition, f: Frame, findings: seq<Finding>, refs: seq<string>,
                     input: Option<GateInput>, fallback: Action, kind: EvaluatorKind,
                     calls: Option<seq<ModelCall>>, bypassOnFail: bool)
    ensures var r := FailingResult(w, d, f, findings, refs, input, fallback, kind, calls, bypassOnFail);
      !Advances(r.instruction) && r.body.status == Fail
  {
  }

  lemma ReviewHolds(w: World, d: Definition, f: Frame, unsure: seq<CheckEvaluation>, refs: seq<string>,
                    kind: EvaluatorKind, calls: Option<seq<ModelCall>>)
    requires unsure != [] && forall e :: e in unsure ==> e.Unsure?
    ensures var r := ReviewResult(w, d, f, unsure, refs, kind, calls);
      !Advances(r.instruction) && r.body.status == NeedsReview
  {
  }

  lemma PassGoesOn(w: World, d: Definition, f: Frame, refs: seq<string>, kind: EvaluatorKind, calls: Option<seq<ModelCall>>)
    ensures var r := PassResult(w, d, f, refs, kind, calls);
      Advances(r.instruction) && r.body.status == Pass
  {
  }

  lemma AllPassExactly(evaluations: seq<CheckEvaluation>)
    ensures AllPass(evaluations) <==> FailuresOf(evaluations) == [] && ReviewsOf(evaluations) == []
  {
    var failed, unsure := FailuresOf(evaluations), ReviewsOf(evaluations);
    if failed != [] {
      assert failed[0] in evaluations && failed[0].Failed?;
    } else if unsure != [] {
      assert unsure[0] in evaluations && unsure[0].Unsure?;
    } else {
      forall i | 0 <= i < |evaluations|
        ensures evaluations[i].Passed?
      {
        assert evaluations[i] in evaluations && evaluations[i] !in failed && evaluations[i] !in unsure;
      }
    }
  }

  /** The checks that the definition of a request has, evaluated without a model. */
  function PlainEvaluations(w: World, req: Request, d: Definition): seq<CheckEvaluation> {
    EvaluateAll(w, SupportedChecks(d.checks), req.input, PhaseOf(req, Resolved(d)), SeverityOf(d))
  }

  function ModelEvaluations(w: World, req: Request, d: Definition): seq<CheckEvaluation> {
    Evaluations(ModelResults(w, req, d, ModelChecks(d.checks), PhaseOf(req, Resolved(d))))
  }

  lemma {:induction false} NoModelMeansAllSupported(checks: seq<Check>)
    requires ModelChecks(checks) == []
    ensures SupportedChecks(checks) == checks
  {
    if checks != [] {
      NoModelMeansAllSupported(checks[1..]);
    }
  }

  /** The gate reaches its checks: the definition resolves and no declared input is missing. */
  predicate Reached(w: World, req: Request) {
    Resolve(w, req).Resolved? && w.missingInputs(Resolve(w, req).definition.inputs, req.input) == []
  }

  predicate HasModelChecks(w: World, req: Request)
    requires Resolve(w, req).Resolved?
  {
    ModelChecks(Resolve(w, req).definition.checks) != []
  }

  lemma UnreachedHolds(w: World, req: Request)
    requires !Reached(w, req)
    ensures !Advances(DraftGate(w, req).instruction) && DraftGate(w, req).body.status != Pass
    ensures DraftGateAsync(w, req) == (DraftGate(w, req), [])
  {
  }

  lemma DraftAdvancesExactly(w: World, req: Request)
    requires Reached(w, req)
    ensures var draft, d := DraftGate(w, req), Resolve(w, req).definition;
      && (Advances(draft.instruction) <==> !HasModelChecks(w, req) && AllPass(PlainEvaluations(w, req, d)))
      && (Advances(draft.instruction) <==> draft.body.status == Pass)
  {
    var d, f := Resolve(w, req).definition, FrameOf(req, Resolve(w, req));
    if !HasModelChecks(w, req) {
      NoModelMeansAllSupported(d.checks);
      AggregateAdvances(w, d, f, PlainEvaluations(w, req, d), req.input, Deterministic, None);
    }
  }

  lemma AsyncDraftAdvancesExactly(w: World, req: Request)
    requires Reached(w, req)
    ensures var draft, d := DraftGateAsync(w, req).0, Resolve(w, req).definition;
      && (Advances(draft.instruction) <==> AllPass(PlainEvaluations(w, req, d)) && AllPass(ModelEvaluations(w, req, d)))
      && (Advances(draft.instruction) <==> draft.body.status == Pass)
  {
    var d, f := Resolve(w, req).definition, FrameOf(req, Resolve(w, req));
    var plain, model := PlainEvaluations(w, req, d), ModelEvaluations(w, req, d);
    if AnyFailed(plain) || !HasModelChecks(w, req) {
      AggregateAdvances(w, d, f, plain, req.input, Deterministic, None);
    } else {
      AggregateAdvances(w, d, f, plain + model, req.input, ModelAssisted,
                        Some(Calls(ModelResults(w, req, d, ModelChecks(d.checks), f.phase))));
      AllPassOfSum(plain, model);
    }
  }

  /**
   The synchronous gate advances, and passes, exactly when its definition resolves, no
   declared input is missing, it has no model-assisted check and every check passes.
   */
  lemma GateAdvancesExactly(w: World, req: Request)
    ensures var r := EvaluateGate(w, req);
      && (Advances(r.instruction) <==>
            Reached(w, req) && !HasModelChecks(w, req) && AllPass(PlainEvaluations(w, req, Resolve(w, req).definition)))
      && (Advances(r.instruction) <==> r.verdict.body.status == Pass)
  {
    if Reached(w, req) {
      DraftAdvancesExactly(w, req);
    } else {
      UnreachedHolds(w, req);
    }
  }

  /** The asynchronous gate needs every model-assisted check to pass as well. */
  lemma AsyncGateAdvancesExactly(w: World, req: Request)
    ensures var r := EvaluateGateAsync(w, req).0;
      && (Advances(r.instruction) <==>
            && Reached(w, req)
            && AllPass(PlainEvaluations(w, req, Resolve(w, req).definition))
            && AllPass(ModelEvaluations(w, req, Resolve(w, req).definition)))
      && (Advances(r.instruction) <==> r.verdict.body.status == Pass)
  {
    if Reached(w, req) {
      AsyncDraftAdvancesExactly(w, req);
    } else {
      UnreachedHolds(w, req);
    }
  }

  lemma AllPassOfSum(a: seq<CheckEvaluation>, b: seq<CheckEvaluation>)
    ensures AllPass(a + b) <==> AllPass(a) && AllPass(b)
  {
    var all := a + b;
    if AllPass(all) {
      assert forall i :: 0 <= i < |a| ==> a[i] == all[i];
      assert forall i :: 0 <= i < |b| ==> b[i] == all[|a| + i];
    }
  }

  /** Without model-assisted checks the two entry points agree, and neither uses the broker. */
  lemma SyncIsAsync(w: World, req: Request)
    requires Resolve(w, req).Resolved? ==> !HasModelChecks(w, req)
    ensures EvaluateGateAsync(w, req) == (EvaluateGate(w, req), [])
  {
    assert DraftGateAsync(w, req) == (DraftGate(w, req), []) by {
      if Resolve(w, req).Resolved? {
        NoModelMeansAllSupported(Resolve(w, req).definition.checks);
      }
    }
  }

  // ------------------------------------------------------------------- broker

  /** The request is what some model-assisted check of the definition asks, with nothing but its parsed projection. */
  ghost predicate AskedBy(w: World, req: Request, d: Definition, sent: ToolRequest) {
    exists c :: c in ModelChecks(d.checks) && ContractFaultOf(w, c).None?
      && sent.toolId == c.contract.value.modelTool && sent.rubric == c.contract.value.rubric.value
      && sent.maxTokens == c.contract.value.maxTokens
      && w.parseInput(c, ModelContextFor(w, c, req.input)) == Some(sent.context)
  }

  /** What an attempt says of its check, whatever its request and record are. */
  lemma AttemptSent(w: World, req: Request, c: Check, severity: Severity, base: ModelCall,
                    ask: (Rubric, Json) -> ToolRequest, hash: ToolRequest -> string)
    requires IsModelAssisted(c)
    ensures var sent := Attempt(w, req, c, severity, base, ask, hash).sent;
      sent.Some? ==>
        && ContractFaultOf(w, c).None? && w.parseInput(c, ModelContextFor(w, c, req.input)).Some?
        && sent.value == ask(c.contract.value.rubric.value, w.parseInput(c, ModelContextFor(w, c, req.input)).value)
  {
    assert ContractFaultOf(w, c).None? ==> c.contract.value.rubric.value == FallbackRubric(c.contract.value);
    if ContractFaultOf(w, c).None? && req.broker.Some? {
      var parsed := w.parseInput(c, ModelContextFor(w, c, req.input));
      if parsed.Some? {
        var rubric := c.contract.value.rubric.value;
        var sent := ask(rubric, parsed.value);
        JudgeSent(w, c, severity, req.broker.value(sent),
                  base.(rubric := rubric, toolId := c.contract.value.modelTool, requestHash := hash(sent)), sent);
      }
    }
  }

  lemma JudgeSent(w: World, c: Check, severity: Severity, reply: BrokerReply, call: ModelCall, sent: ToolRequest)
    requires IsModelAssisted(c)
    ensures Judge(w, c, severity, reply, call, sent).sent == Some(sent)
  {
  }

  lemma SentByCheck(w: World, req: Request, d: Definition, c: Check, phase: string)
    requires IsModelAssisted(c) && c in ModelChecks(d.checks)
    ensures var sent := ModelCheck(w, req, d, c, phase).sent;
      sent.Some? ==> AskedBy(w, req, d, sent.value)
  {
    var base := BaseCall(w, req, d, c, phase);
    AttemptSent(w, req, c, SeverityOf(d), base,
                (rubric: Rubric, context: Json) => ToolRequestFor(w, d, c, phase, base.modelCallId, rubric, context),
                (r: ToolRequest) => HashJson(w.sha, RequestJson(r)));
  }

  lemma {:induction false} SentFrom(results: seq<ModelResult>, r: ToolRequest) returns (i: nat)
    requires r in Sent(results)
    ensures i < |results| && results[i].sent == Some(r)
    decreases |results|
  {
    var n := |results| - 1;
    if results[n].sent == Some(r) {
      i := n;
    } else {
      i := SentFrom(results[..n], r);
    }
  }

  lemma {:induction false} AtMostOneEach(results: seq<ModelResult>)
    ensures |Sent(results)| <= |results|
    decreases |results|
  {
    if results != [] {
      AtMostOneEach(results[..|results| - 1]);
    }
  }

  /**
   The broker is not called once a check without a model fails; otherwise each of its
   calls comes from one model-assisted check and carries only that check's parsed projection.
   */
  lemma BrokerCalls(w: World, req: Request)
    ensures var sent := EvaluateGateAsync(w, req).1;
      sent != [] ==>
        && Resolve(w, req).Resolved?
        && var d := Resolve(w, req).definition;
        && w.missingInputs(d.inputs, req.input) == []
        && !AnyFailed(PlainEvaluations(w, req, d))
        && |sent| <= |ModelChecks(d.checks)|
        && forall r :: r in sent ==> AskedBy(w, req, d, r)
  {
    var sent := EvaluateGateAsync(w, req).1;
    if sent != [] {
      var d := Resolve(w, req).definition;
      var checks, phase := ModelChecks(d.checks), PhaseOf(req, Resolve(w, req));
      var results := ModelResults(w, req, d, checks, phase);
      AtMostOneEach(results);
      forall r | r in sent
        ensures AskedBy(w, req, d, r)
      {
        var i := SentFrom(results, r);
        assert checks[i] in checks;
        SentByCheck(w, req, d, checks[i], phase);
      }
    }
  }

  // --------------------------------------------------------------- model failures

  lemma FallbackIsGood(c: ModelContract)
    ensures GoodRubric(FallbackRubric(c))
  {
    TrimmedIsFixed("undeclared");
  }

  /** A judged answer fails closed exactly when the call did not succeed. */
  lemma JudgeFacts(w: World, c: Check, severity: Severity, reply: BrokerReply, call: ModelCall, sent: ToolRequest)
    requires IsModelAssisted(c)
    ensures var r := Judge(w, c, severity, reply, call, sent);
      && r.call.checkId == call.checkId && r.call.modelCallId == call.modelCallId && r.call.rubric == call.rubric
      && (r.call.outcome == CallSucceeded <==> !(r.evaluation.Failed? && r.evaluation.bypassOnFail))
  {
  }

  lemma AttemptFacts(w: World, req: Request, c: Check, severity: Severity, base: ModelCall,
                     ask: (Rubric, Json) -> ToolRequest, hash: ToolRequest -> string)
    requires IsModelAssisted(c) && base.rubric == FallbackRubric(c.contract.value) && base.outcome == InvalidOutput
    ensures var r := Attempt(w, req, c, severity, base, ask, hash);
      && r.call.checkId == base.checkId && r.call.modelCallId == base.modelCallId && r.call.rubric == base.rubric
      && (r.call.outcome == CallSucceeded <==> !(r.evaluation.Failed? && r.evaluation.bypassOnFail))
  {
    assert ContractFaultOf(w, c).None? ==> c.contract.value.rubric.value == FallbackRubric(c.contract.value);
    if ContractFaultOf(w, c).None? && req.broker.Some? {
      var parsed := w.parseInput(c, ModelContextFor(w, c, req.input));
      if parsed.Some? {
        var rubric := c.contract.value.rubric.value;
        var sent := ask(rubric, parsed.value);
        JudgeFacts(w, c, severity, req.broker.value(sent),
                   base.(rubric := rubric, toolId := c.contract.value.modelTool, requestHash := hash(sent)), sent);
      }
    }
  }

  lemma BaseCallFacts(w: World, req: Request, d: Definition, c: Check, phase: string)
    requires IsModelAssisted(c)
    ensures var base := BaseCall(w, req, d, c, phase);
      && base.checkId == c.id && base.outcome == InvalidOutput && base.rubric == FallbackRubric(c.contract.value)
      && base.modelCallId == ModelCallId(w, d, c, phase, req.input)
  {
  }

  /** A call has a rubric, and its evaluation fails closed exactly when it did not succeed. */
  lemma ModelCheckFacts(w: World, req: Request, d: Definition, c: Check, phase: string)
    requires IsModelAssisted(c)
    ensures var r := ModelCheck(w, req, d, c, phase);
      && r.call.checkId == c.id && r.call.rubric == FallbackRubric(c.contract.value) && GoodRubric(r.call.rubric)
      && r.call.modelCallId == ModelCallId(w, d, c, phase, req.input)
      && (r.call.outcome == CallSucceeded <==> !(r.evaluation.Failed? && r.evaluation.bypassOnFail))
  {
    var base := BaseCall(w, req, d, c, phase);
    BaseCallFacts(w, req, d, c, phase);
    FallbackIsGood(c.contract.value);
    AttemptFacts(w, req, c, SeverityOf(d), base,
                 (rubric: Rubric, context: Json) => ToolRequestFor(w, d, c, phase, base.modelCallId, rubric, context),
                 (r: ToolRequest) => HashJson(w.sha, RequestJson(r)));
  }

  /** One failing-closed evaluation fails the run, whatever the failure behaviour says. */
  lemma BypassFailsTheRun(w: World, d: Definition, f: Frame, evaluations: seq<CheckEvaluation>,
                          input: Option<GateInput>, kind: EvaluatorKind, calls: Option<seq<ModelCall>>, i: nat)
    requires i < |evaluations| && evaluations[i].Failed? && evaluations[i].bypassOnFail
    ensures var r := Aggregate(w, d, f, evaluations, input, kind, calls);
      r.instruction.FailRun? && r.body.requiredAction == Some(FailTheRun) && r.body.status == Fail
  {
    var failed := FailuresOf(evaluations);
    assert evaluations[i] in failed && evaluations[i] in BypassingOf(failed, true);
    BypassingFails(w, d, f, evaluations, input, kind, calls);
  }

  lemma BypassingFails(w: World, d: Definition, f: Frame, evaluations: seq<CheckEvaluation>,
                       input: Option<GateInput>, kind: EvaluatorKind, calls: Option<seq<ModelCall>>)
    requires FailuresOf(evaluations) != [] && BypassingOf(FailuresOf(evaluations), true) != []
    ensures var r := Aggregate(w, d, f, evaluations, input, kind, calls);
      r.instruction.FailRun? && r.body.requiredAction == Some(FailTheRun) && r.body.status == Fail
  {
    var failed, refs := FailuresOf(evaluations), EvaluationRefs(evaluations);
    var ordered := BypassingOf(failed, true) + BypassingOf(failed, false);
    BypassedResult(w, d, f, FindingsOf(ordered), DecisionHash.Unique(refs), input, kind, calls);
  }

  lemma BypassedResult(w: World, d: Definition, f: Frame, findings: seq<Finding>, refs: seq<string>,
                       input: Option<GateInput>, kind: EvaluatorKind, calls: Option<seq<ModelCall>>)
    ensures var r := FailingResult(w, d, f, findings, refs, input, FailTheRun, kind, calls, true);
      r.instruction.FailRun? && r.body.requiredAction == Some(FailTheRun) && r.body.status == Fail
  {
  }

  lemma FailedResultBypasses(w: World, req: Request, d: Definition, checks: seq<Check>, phase: string, i: nat)
    requires (forall c :: c in checks ==> IsModelAssisted(c)) && i < |checks|
    ensures var r := ModelResults(w, req, d, checks, phase)[i];
      r.call.outcome != CallSucceeded ==> r.evaluation.Failed? && r.evaluation.bypassOnFail
  {
    assert checks[i] in checks;
    ModelCheckFacts(w, req, d, checks[i], phase);
  }

  lemma FailedResultFailsTheRun(w: World, d: Definition, f: Frame, plain: seq<CheckEvaluation>, results: seq<ModelResult>,
                                input: Option<GateInput>, i: nat)
    requires i < |results| && results[i].evaluation.Failed? && results[i].evaluation.bypassOnFail
    ensures Aggregate(w, d, f, plain + Evaluations(results), input, ModelAssisted, Some(Calls(results))).instruction.FailRun?
  {
    var all := plain + Evaluations(results);
    assert all[|plain| + i] == results[i].evaluation;
    BypassFailsTheRun(w, d, f, all, input, ModelAssisted, Some(Calls(results)), |plain| + i);
  }

  lemma CallsComeFromResults(w: World, req: Request)
    requires DraftGateAsync(w, req).0.calls.Some?
    ensures Reached(w, req)
    ensures var d, f := Resolve(w, req).definition, FrameOf(req, Resolve(w, req));
      var results := ModelResults(w, req, d, ModelChecks(d.checks), f.phase);
      && DraftGateAsync(w, req).0 ==
        Aggregate(w, d, f, PlainEvaluations(w, req, d) + Evaluations(results), req.input, ModelAssisted, Some(Calls(results)))
      && DraftGateAsync(w, req).0.calls == Some(Calls(results))
  {
  }

  /** A model call that was attempted and did not succeed fails the run, whatever the failure behaviour says. */
  lemma FailedCallFailsTheRun(w: World, req: Request, i: nat)
    requires var r := EvaluateGateAsync(w, req).0;
      r.calls.Some? && i < |r.calls.value| && r.calls.value[i].outcome != CallSucceeded
    ensures EvaluateGateAsync(w, req).0.instruction.FailRun?
  {
    CallsComeFromResults(w, req);
    var d, f := Resolve(w, req).definition, FrameOf(req, Resolve(w, req));
    var checks := ModelChecks(d.checks);
    FailedResultBypasses(w, req, d, checks, f.phase, i);
    FailedResultFailsTheRun(w, d, f, PlainEvaluations(w, req, d), ModelResults(w, req, d, checks, f.phase), req.input, i);
  }

  // -------------------------------------------------------------------- repair

  /** A result of either entry point. */
  predicate Produced(w: World, req: Request, r: GateResult) {
    r == EvaluateGate(w, req) || r == EvaluateGateAsync(w, req).0
  }

  /** What a result of a resolved definition says about repair. */
  predicate RepairsRightly(d: Definition, input: Option<GateInput>, r: Draft) {
    var repair := r.body.requiredAction == Some(Repair);
    var below := Iterations(input) < MaxRepairIterations(d.onFail);
    var overlap := Overlap(AllowedTools(d.onFail), BlockedTools(d.onFail));
    && (r.instruction.CreateRepairTask? <==> repair && below && !overlap)
    && (repair && !below ==> r.instruction.PauseForHuman?)
    && (repair && below && overlap ==> r.instruction.FailRun?)
    && (r.instruction.CreateRepairTask? ==>
          var task := r.instruction.repairTask;
          && task.allowedTools == AllowedTools(d.onFail) && task.blockedTools == BlockedTools(d.onFail)
          && task.createdFromFindingIds == FindingIds(r.body.findings))
  }

  lemma FailingRepairsRightly(w: World, d: Definition, f: Frame, findings: seq<Finding>, refs: seq<string>,
                              input: Option<GateInput>, fallback: Action, kind: EvaluatorKind,
                              calls: Option<seq<ModelCall>>, bypassOnFail: bool)
    ensures RepairsRightly(d, input, FailingResult(w, d, f, findings, refs, input, fallback, kind, calls, bypassOnFail))
  {
  }

  lemma AggregateRepairsRightly(w: World, d: Definition, f: Frame, evaluations: seq<CheckEvaluation>,
                                input: Option<GateInput>, kind: EvaluatorKind, calls: Option<seq<ModelCall>>)
    ensures RepairsRightly(d, input, Aggregate(w, d, f, evaluations, input, kind, calls))
  {
    var failed, refs := FailuresOf(evaluations), EvaluationRefs(evaluations);
    if failed != [] {
      var bypassing := BypassingOf(failed, true);
      var ordered := if bypassing != [] then bypassing + BypassingOf(failed, false) else failed;
      var fallback := if bypassing != [] then FailTheRun else FirstAction(failed).GetOr(Repair);
      FailingRepairsRightly(w, d, f, FindingsOf(ordered), DecisionHash.Unique(refs), input, fallback, kind, calls, bypassing != []);
    } else {
      NoFailureNoRepair(w, d, f, ReviewsOf(evaluations), refs, input, kind, calls);
    }
  }

  lemma NoFailureNoRepair(w: World, d: Definition, f: Frame, unsure: seq<CheckEvaluation>, refs: seq<string>,
                          input: Option<GateInput>, kind: EvaluatorKind, calls: Option<seq<ModelCall>>)
    requires forall e :: e in unsure ==> e.Unsure?
    ensures RepairsRightly(d, input, PassResult(w, d, f, refs, kind, calls))
    ensures unsure != [] ==> RepairsRightly(d, input, ReviewResult(w, d, f, unsure, refs, kind, calls))
  {
  }

  lemma DraftRepairsRightly(w: World, req: Request)
    requires Resolve(w, req).Resolved?
    ensures RepairsRightly(Resolve(w, req).definition, req.input, DraftGate(w, req))
  {
    var d, f := Resolve(w, req).definition, FrameOf(req, Resolve(w, req));
    var missing := w.missingInputs(d.inputs, req.input);
    FailingRepairsRightly(w, d, f, MissingFindings(missing, SeverityOf(d)), [], req.input, Clarify, Deterministic, None, false);
    AggregateRepairsRightly(w, d, f, EvaluateAll(w, d.checks, req.input, f.phase, SeverityOf(d)), req.input, Deterministic, None);
  }

  lemma AsyncDraftRepairsRightly(w: World, req: Request)
    requires Resolve(w, req).Resolved?
    ensures RepairsRightly(Resolve(w, req).definition, req.input, DraftGateAsync(w, req).0)
  {
    var d, f := Resolve(w, req).definition, FrameOf(req, Resolve(w, req));
    var missing := w.missingInputs(d.inputs, req.input);
    FailingRepairsRightly(w, d, f, MissingFindings(missing, SeverityOf(d)), [], req.input, Clarify, Deterministic, None, false);
    var plain := PlainEvaluations(w, req, d);
    AggregateRepairsRightly(w, d, f, plain, req.input, Deterministic, None);
    var results := ModelResults(w, req, d, ModelChecks(d.checks), f.phase);
    AggregateRepairsRightly(w, d, f, plain + Evaluations(results), req.input, ModelAssisted, Some(Calls(results)));
  }

  /**
   A repair task is created exactly when the required action is repair, the iteration
   count is below the ceiling and the governed tool lists are disjoint.  At the ceiling a
   human is asked; with overlapping lists the run fails.
   */
  lemma RepairTaskExactly(w: World, req: Request, r: GateResult)
    requires Produced(w, req, r)
    ensures r.instruction.CreateRepairTask? ==> Resolve(w, req).Resolved?
    ensures Resolve(w, req).Resolved? ==>
      RepairsRightly(Resolve(w, req).definition, req.input, Draft(r.verdict.body, r.instruction, r.calls))
  {
    if Resolve(w, req).Resolved? {
      DraftRepairsRightly(w, req);
      AsyncDraftRepairsRightly(w, req);
    }
  }

  /** One turn of a host: the request it makes and the result it gets. */
  datatype Turn = Turn(req: Request, result: GateResult)

  predicate Repaired(t: Turn) {
    t.result.instruction.CreateRepairTask?
  }

  /** A host that adds one to the iteration count after every repair task, under a fixed ceiling. */
  ghost predicate HostRun(w: World, turns: seq<Turn>, ceiling: nat) {
    && (forall i :: 0 <= i < |turns| ==>
          && Produced(w, turns[i].req, turns[i].result)
          && (Resolve(w, turns[i].req).Resolved? ==> MaxRepairIterations(Resolve(w, turns[i].req).definition.onFail) <= ceiling))
    && (forall i :: 0 < i < |turns| ==>
          Iterations(turns[i].req.input) == Iterations(turns[i - 1].req.input) + (if Repaired(turns[i - 1]) then 1 else 0))
  }

  function RepairCount(turns: seq<Turn>): nat {
    if turns == [] then 0
    else RepairCount(turns[..|turns| - 1]) + (if Repaired(turns[|turns| - 1]) then 1 else 0)
  }

  lemma {:induction false} CountTracksIterations(w: World, turns: seq<Turn>, ceiling: nat)
    requires turns != [] && HostRun(w, turns, ceiling)
    ensures var last := turns[|turns| - 1];
      Iterations(turns[0].req.input) + RepairCount(turns) == Iterations(last.req.input) + (if Repaired(last) then 1 else 0)
  {
    if |turns| == 1 {
      assert turns[..0] == [];
    } else {
      CountTracksIterations(w, turns[..|turns| - 1], ceiling);
    }
  }

  /** However long the run, the host sees at most as many repair tasks as the ceiling leaves. */
  lemma {:induction false} RepairLoopIsBounded(w: World, turns: seq<Turn>, ceiling: nat)
    requires turns != [] && HostRun(w, turns, ceiling)
    ensures RepairCount(turns) == 0 || Iterations(turns[0].req.input) + RepairCount(turns) <= ceiling
  {
    var n := |turns| - 1;
    var last := turns[n];
    if Repaired(last) {
      RepairTaskExactly(w, last.req, last.result);
      CountTracksIterations(w, turns, ceiling);
    } else if n > 0 {
      RepairLoopIsBounded(w, turns[..n], ceiling);
    } else {
      assert turns[..0] == [];
    }
  }

  // ------------------------------------------------------------------- verdicts

  lemma VerdictRecomputes(w: World, req: Request, r: GateResult)
    requires Produced(w, req, r)
    ensures Recomputes(w.sha, r.verdict)
  {
  }

  /**
   The hash of a result identifies its verdict among all that the engine produces: results of
   any two requests, from either entry point, have one hash exactly when their verdicts say
   the same, or the two texts collide.
   */
  lemma ProducedVerdictsBind(w: World, req: Request, r: GateResult, w': World, req': Request, r': GateResult)
    requires Produced(w, req, r) && Produced(w', req', r') && w.sha == w'.sha
    requires CanonicalBody(r.verdict.body) && CanonicalBody(r'.verdict.body)
    ensures r.verdict.decisionHash == r'.verdict.decisionHash <==>
      || SameBody(r.verdict.body, r'.verdict.body)
      || Collision(w.sha, StableText(HashInput(r.verdict.body)), StableText(HashInput(r'.verdict.body)))
  {
    VerdictRecomputes(w, req, r);
    VerdictRecomputes(w', req', r');
    DecisionHashBinds(w.sha, r.verdict, r'.verdict);
  }

  /** A failing draft says what failed. */
  predicate ExplainsFailure(r: Draft) {
    r.body.status == Fail ==> r.body.findings != []
  }

  lemma AggregateExplains(w: World, d: Definition, f: Frame, evaluations: seq<CheckEvaluation>,
                          input: Option<GateInput>, kind: EvaluatorKind, calls: Option<seq<ModelCall>>)
    ensures ExplainsFailure(Aggregate(w, d, f, evaluations, input, kind, calls))
  {
    var failed, refs := FailuresOf(evaluations), EvaluationRefs(evaluations);
    if failed != [] {
      var bypassing := BypassingOf(failed, true);
      var ordered := if bypassing != [] then bypassing + BypassingOf(failed, false) else failed;
      var fallback := if bypassing != [] then FailTheRun else FirstAction(failed).GetOr(Repair);
      assert |FindingsOf(ordered)| == |ordered| > 0;
      FailingSays(w, d, f, FindingsOf(ordered), DecisionHash.Unique(refs), input, fallback, kind, calls, bypassing != []);
    }
  }

  lemma FailingSays(w: World, d: Definition, f: Frame, findings: seq<Finding>, refs: seq<string>,
                    input: Option<GateInput>, fallback: Action, kind: EvaluatorKind,
                    calls: Option<seq<ModelCall>>, bypassOnFail: bool)
    ensures FailingResult(w, d, f, findings, refs, input, fallback, kind, calls, bypassOnFail).body.findings == findings
  {
  }

  lemma MissingExplains(w: World, d: Definition, f: Frame, missing: seq<MissingInput>, input: Option<GateInput>)
    requires missing != []
    ensures ExplainsFailure(MissingResult(w, d, f, missing, input))
  {
    assert |MissingFindings(missing, SeverityOf(d))| > 0;
    FailingSays(w, d, f, MissingFindings(missing, SeverityOf(d)), [], input, Clarify, Deterministic, None, false);
  }

  lemma DraftsExplain(w: World, req: Request)
    ensures ExplainsFailure(DraftGate(w, req)) && ExplainsFailure(DraftGateAsync(w, req).0)
  {
    var resolution := Resolve(w, req);
    if resolution.Resolved? {
      var d, f := resolution.definition, FrameOf(req, resolution);
      var missing := w.missingInputs(d.inputs, req.input);
      if missing != [] {
        MissingExplains(w, d, f, missing, req.input);
      }
      AggregateExplains(w, d, f, EvaluateAll(w, d.checks, req.input, f.phase, SeverityOf(d)), req.input, Deterministic, None);
      var plain := PlainEvaluations(w, req, d);
      AggregateExplains(w, d, f, plain, req.input, Deterministic, None);
      var results := ModelResults(w, req, d, ModelChecks(d.checks), f.phase);
      AggregateExplains(w, d, f, plain + Evaluations(results), req.input, ModelAssisted, Some(Calls(results)));
    }
  }

  /** Every failing verdict of either entry point has a finding, and its repair task is made from its findings. */
  lemma FailureIsExplained(w: World, req: Request, r: GateResult)
    requires Produced(w, req, r)
    ensures r.verdict.body.status == Fail ==> r.verdict.body.findings != []
    ensures r.instruction.CreateRepairTask? ==>
      r.instruction.repairTask.createdFromFindingIds == FindingIds(r.verdict.body.findings)
  {
    DraftsExplain(w, req);
    RepairTaskExactly(w, req, r);
  }
}
