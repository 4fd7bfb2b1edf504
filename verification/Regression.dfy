/**
 Dataset pins, golden cases and regression results of the eval runner: a pin accepts
 exactly the manifests that mean the same, and a verdict fresh from the evaluator is
 never reported as a decision-hash defect.
 */
module Regression {
  import opened Wrappers
  import opened JsText
  import opened Json
  import opened CanonicalText
  import opened Hashing
  import opened DecisionHash
  import opened DecisionHashProofs
  import opened VerdictTerms

  // ----------------------------------------------------------------- dataset pins

  /** `valid` is the manifest schema; parsing a valid manifest gives it back. */
  type Schema = Json -> bool

  datatype PinResolution = Resolved(manifest: Json) | Mismatch(expected: string, actual: string)

  function ContentId(sha: Sha, manifest: Json): string {
    Digest(sha, StableText(manifest))
  }

  /** `contentIdForRejectedDataset` */
  function RejectedContentId(sha: Sha, manifest: Json): string {
    if Hashable(manifest) then ContentId(sha, manifest)
    else Digest(sha, StableText(JObj([Field("rejectedDataset", JBool(true)), Field("reason", JStr("unhashable"))])))
  }

  /** `verifyDatasetPin` against the content id recorded when the dataset was pinned. */
  function VerifyPin(sha: Sha, valid: Schema, pinned: string, current: Json): PinResolution {
    if !valid(current) then Mismatch(pinned, RejectedContentId(sha, current))
    else if ContentId(sha, current) != pinned then Mismatch(pinned, ContentId(sha, current))
    else Resolved(current)
  }

  /** A pin verifies exactly the schema-valid manifests of its own meaning. */
  lemma PinVerifiesSameMeaning(sha: Sha, valid: Schema, pinned: Json, current: Json)
    requires Canonical(pinned) && Canonical(current) && pinned.JObj? && current.JObj?
    ensures valid(current) && Denote(current) == Denote(pinned)
        ==> VerifyPin(sha, valid, ContentId(sha, pinned), current) == Resolved(current)
    ensures VerifyPin(sha, valid, ContentId(sha, pinned), current).Resolved?
        ==> valid(current)
            && (Denote(current) == Denote(pinned) || Collision(sha, StableText(current), StableText(pinned)))
  {
    SameHashSameMeaning(sha, current, pinned);
  }

  // ------------------------------------------------------------------ golden cases

  datatype DatasetCase = DatasetCase(
    id: string, evalId: Option<string>, targetType: Option<string>, golden: Verdict)

  datatype Manifest = Manifest(
    id: string, version: string, evalId: Option<string>, targetType: string, cases: seq<DatasetCase>)

  function TargetType(targetRef: string): string {
    var pieces := Split(targetRef, ':');
    if pieces[0] == "artifact" && |pieces| > 1 && pieces[1] != "" then pieces[1]
    else if pieces[0] != "" then pieces[0]
    else targetRef
  }

  function CaseEvalId(m: Manifest, c: DatasetCase): Option<string> {
    if c.evalId.Some? then c.evalId else m.evalId
  }

  function CaseTargetType(m: Manifest, c: DatasetCase): string {
    c.targetType.GetOr(m.targetType)
  }

  predicate CaseIsBound(m: Manifest, c: DatasetCase) {
    && (m.evalId.Some? && c.evalId.Some? ==> c.evalId == m.evalId)
    && (c.targetType.Some? ==> c.targetType.value == m.targetType)
    && (CaseEvalId(m, c).Some? ==> c.golden.evalId == CaseEvalId(m, c).value)
    && TargetType(c.golden.targetRef) == CaseTargetType(m, c)
  }

  /** Case ids are distinct and every golden verdict belongs to its case. */
  predicate WellBound(m: Manifest) {
    DistinctIds(m, |m.cases|) && CasesBound(m, |m.cases|)
  }

  predicate DistinctIds(m: Manifest, n: nat)
    requires n <= |m.cases|
  {
    forall i, j :: 0 <= i < j < n ==> m.cases[i].id != m.cases[j].id
  }

  predicate CasesBound(m: Manifest, n: nat)
    requires n <= |m.cases|
  {
    forall i :: 0 <= i < n ==> CaseIsBound(m, m.cases[i])
  }

  function IdsUpTo(m: Manifest, n: nat): set<string>
    requires n <= |m.cases|
  {
    if n == 0 then {} else IdsUpTo(m, n - 1) + {m.cases[n - 1].id}
  }

  predicate BoundUpTo(m: Manifest, n: nat)
    requires n <= |m.cases|
  {
    n == 0 || (BoundUpTo(m, n - 1) && m.cases[n - 1].id !in IdsUpTo(m, n - 1) && CaseIsBound(m, m.cases[n - 1]))
  }

  lemma {:induction false} IdsUpToHolds(m: Manifest, n: nat, id: string)
    requires n <= |m.cases|
    ensures id in IdsUpTo(m, n) <==> exists i :: 0 <= i < n && m.cases[i].id == id
  {
    if n > 0 {
      IdsUpToHolds(m, n - 1, id);
    }
  }

  lemma DistinctStep(m: Manifest, n: nat)
    requires 0 < n <= |m.cases|
    ensures DistinctIds(m, n) <==> DistinctIds(m, n - 1) && m.cases[n - 1].id !in IdsUpTo(m, n - 1)
  {
    IdsUpToHolds(m, n - 1, m.cases[n - 1].id);
  }

  lemma BoundStep(m: Manifest, n: nat)
    requires 0 < n <= |m.cases|
    ensures CasesBound(m, n) <==> CasesBound(m, n - 1) && CaseIsBound(m, m.cases[n - 1])
  {
  }

  lemma {:induction false} BoundUpToHolds(m: Manifest, n: nat)
    requires n <= |m.cases|
    ensures BoundUpTo(m, n) <==> DistinctIds(m, n) && CasesBound(m, n)
  {
    if n > 0 {
      BoundUpToHolds(m, n - 1);
      DistinctStep(m, n);
      BoundStep(m, n);
    }
  }

  /** The refinement of the manifest schema: the number of issues it adds. */
  method RefineManifest(m: Manifest) returns (issues: nat)
    ensures issues == 0 <==> WellBound(m)
  {
    issues := 0;
    var caseIds: set<string> := {};
    var index := 0;
    while index < |m.cases|
      invariant 0 <= index <= |m.cases|
      invariant caseIds == IdsUpTo(m, index)
      invariant issues == 0 <==> BoundUpTo(m, index)
    {
      var c := m.cases[index];
      if c.id in caseIds {
        issues := issues + 1;
      }
      caseIds := caseIds + {c.id};
      var added := CaseIssues(m, c);
      issues := issues + added;
      index := index + 1;
    }
    BoundUpToHolds(m, |m.cases|);
  }

  method CaseIssues(m: Manifest, c: DatasetCase) returns (issues: nat)
    ensures issues == 0 <==> CaseIsBound(m, c)
  {
    issues := 0;
    if m.evalId.Some? && c.evalId.Some? && c.evalId != m.evalId {
      issues := issues + 1;
    }
    if c.targetType.Some? && c.targetType.value != m.targetType {
      issues := issues + 1;
    }
    if CaseEvalId(m, c).Some? && c.golden.evalId != CaseEvalId(m, c).value {
      issues := issues + 1;
    }
    if TargetType(c.golden.targetRef) != CaseTargetType(m, c) {
      issues := issues + 1;
    }
  }

  predicate Matches(m: Manifest, c: DatasetCase, evalId: string, targetType: string, caseId: Option<string>) {
    && (caseId.Some? ==> c.id == caseId.value)
    && CaseEvalId(m, c) == Some(evalId) && CaseTargetType(m, c) == targetType
  }

  function FindFrom(m: Manifest, i: nat, evalId: string, targetType: string, caseId: Option<string>): (r: Option<DatasetCase>)
    requires i <= |m.cases|
    ensures r.Some? ==> r.value in m.cases && Matches(m, r.value, evalId, targetType, caseId)
    ensures r.None? ==> forall k :: i <= k < |m.cases| ==> !Matches(m, m.cases[k], evalId, targetType, caseId)
    decreases |m.cases| - i
  {
    if i == |m.cases| then None
    else if Matches(m, m.cases[i], evalId, targetType, caseId) then Some(m.cases[i])
    else FindFrom(m, i + 1, evalId, targetType, caseId)
  }

  // -------------------------------------------------------------------- regression

  datatype RegressionStatus = Regressed | NoRegression | GoldenMissing | BindingMismatch | DecisionHashDefect

  /** `sameType` says whether a golden verdict, if there is one, has the target type in question. */
  function Classify(recomputed: Result<string, HashError>, current: Verdict, golden: Option<Verdict>,
                    sameType: bool): RegressionStatus {
    if recomputed.Err? then DecisionHashDefect
    else if golden.None? then GoldenMissing
    else if golden.value.evalId != current.evalId || golden.value.targetRef != current.targetRef || !sameType
    then BindingMismatch
    else if golden.value.status.Pass? && current.status.Fail? then Regressed
    else NoRegression
  }

  function GoldenFor(current: Verdict, m: Manifest, caseId: Option<string>): Option<Verdict> {
    var found := FindFrom(m, 0, current.evalId, TargetType(current.targetRef), caseId);
    if found.Some? then Some(found.value.golden) else None
  }

  /** `regressionForVerdict` on a dataset. */
  function RegressionFor(recomputed: Result<string, HashError>, current: Verdict, m: Manifest,
                         caseId: Option<string>): RegressionStatus {
    var golden := GoldenFor(current, m, caseId);
    Classify(recomputed, current, golden,
             golden.Some? && TargetType(golden.value.targetRef) == TargetType(current.targetRef))
  }

  lemma GoldenIsBound(current: Verdict, m: Manifest, caseId: Option<string>)
    requires WellBound(m) && GoldenFor(current, m, caseId).Some?
    ensures var golden := GoldenFor(current, m, caseId).value;
      golden.evalId == current.evalId && TargetType(golden.targetRef) == TargetType(current.targetRef)
  {
    var found := FindFrom(m, 0, current.evalId, TargetType(current.targetRef), caseId).value;
    var k :| 0 <= k < |m.cases| && m.cases[k] == found;
    assert CasesBound(m, |m.cases|) && CaseIsBound(m, m.cases[k]);
  }

  /** When each regression status is reported, given a golden verdict of the right eval and target type. */
  predicate ExactStatus(status: RegressionStatus, recomputed: Result<string, HashError>, current: Verdict, golden: Option<Verdict>) {
    && (status == DecisionHashDefect <==> recomputed.Err?)
    && (status == GoldenMissing <==> recomputed.Ok? && golden.None?)
    && (status == BindingMismatch <==> recomputed.Ok? && golden.Some? && golden.value.targetRef != current.targetRef)
    && (status == Regressed <==>
          && recomputed.Ok? && golden.Some? && golden.value.targetRef == current.targetRef
          && golden.value.status.Pass? && current.status.Fail?)
  }

  lemma ClassifyExactly(recomputed: Result<string, HashError>, current: Verdict, golden: Option<Verdict>, sameType: bool)
    requires golden.Some? ==> golden.value.evalId == current.evalId && sameType
    ensures ExactStatus(Classify(recomputed, current, golden, sameType), recomputed, current, golden)
  {
  }

  /** With a dataset the schema accepts, each status is reported under its exact condition. */
  lemma RegressionStatusExactly(recomputed: Result<string, HashError>, current: Verdict, m: Manifest, caseId: Option<string>)
    requires WellBound(m)
    ensures ExactStatus(RegressionFor(recomputed, current, m, caseId), recomputed, current, GoldenFor(current, m, caseId))
  {
    var golden := GoldenFor(current, m, caseId);
    assert golden.Some? ==>
        golden.value.evalId == current.evalId && TargetType(golden.value.targetRef) == TargetType(current.targetRef) by {
      if golden.Some? {
        GoldenIsBound(current, m, caseId);
      }
    }
    ClassifyExactly(recomputed, current, golden, golden.Some?);
  }

  /** A verdict fresh from `buildVerdict` is never reported as a hash defect. */
  lemma FreshVerdictHasNoDefect(sha: Sha, input: VerdictInput, reason: string, m: Manifest, caseId: Option<string>)
    requires HexOutput(sha)
    ensures var current := BuildVerdict(sha, input, reason);
      RegressionFor(Recompute(sha, current, None), current, m, caseId) != DecisionHashDefect
  {
    var current := BuildVerdict(sha, input, reason);
    var recomputed := Recompute(sha, current, None);
    assert recomputed.Ok? by {
      BuiltVerdictRecomputes(sha, input, reason);
    }
    OnlyErrorsAreDefects(recomputed, current, m, caseId);
  }

  lemma OnlyErrorsAreDefects(recomputed: Result<string, HashError>, current: Verdict, m: Manifest, caseId: Option<string>)
    ensures RegressionFor(recomputed, current, m, caseId) == DecisionHashDefect <==> recomputed.Err?
  {
  }

  /** Hashes supplied by the caller are a defect unless they are the verdict's own, or collide with them. */
  lemma SuppliedHashesRecompute(sha: Sha, v: Verdict, given: InputHashes)
    requires Recompute(sha, v, None).Ok?
    ensures var own := InputHashesFromVerdict(v).value;
      && (given == own ==> Recompute(sha, v, Some(given)).Ok?)
      && (Recompute(sha, v, Some(given)).Ok? ==>
            given == own || Collision(sha, DecisionText(v, given), DecisionText(v, own)))
  {
    if Recompute(sha, v, Some(given)).Ok? {
      DecisionHashBinds(sha, v, v, Some(given), None);
    }
  }

  const DEFECT_CODE := "eval.regression.decision_hash_mismatch"
  const BINDING_CODE := "eval.regression.golden_binding_mismatch"

  /** The failing verdict that replaces one whose regression analysis is not sound. */
  function DefectVerdict(sha: Sha, verdict: Verdict, verdictJson: Json, code: string,
                         evaluatorRef: string, reason: string): Verdict {
    var context := DecisionContext(verdictJson, JUndefined, JObj([Field("defect", JStr(DEFECT_CODE))]), None,
                                   [CheckResult(None, Some("regression"), Fail, Some(code), None)]);
    BuildVerdict(sha, VerdictInput(verdict.evalId, verdict.targetRef, Fail, Blocking, [Finding(code, reason)],
                                   verdict.evidenceRefs, evaluatorRef, None, None, None, None, context), reason)
  }

  /** The part of `runEvalWithRegression` after the dataset is resolved and the eval has run. */
  function WithRegression(sha: Sha, verdict: Verdict, verdictJson: Json, m: Manifest, caseId: Option<string>,
                          given: Option<InputHashes>, evaluatorRef: string, reason: string): Verdict {
    match RegressionFor(Recompute(sha, verdict, given), verdict, m, caseId)
    case DecisionHashDefect => DefectVerdict(sha, verdict, verdictJson, DEFECT_CODE, evaluatorRef, reason)
    case BindingMismatch => DefectVerdict(sha, verdict, verdictJson, BINDING_CODE, evaluatorRef, reason)
    case _ => verdict
  }

  lemma DefectVerdictRecomputes(sha: Sha, verdict: Verdict, verdictJson: Json, code: string, evaluatorRef: string, reason: string)
    requires HexOutput(sha)
    ensures var v := DefectVerdict(sha, verdict, verdictJson, code, evaluatorRef, reason);
      Recompute(sha, v, None).Ok? && v.status == Fail && v.severity == Blocking
  {
    var context := DecisionContext(verdictJson, JUndefined, JObj([Field("defect", JStr(DEFECT_CODE))]), None,
                                   [CheckResult(None, Some("regression"), Fail, Some(code), None)]);
    var input := VerdictInput(verdict.evalId, verdict.targetRef, Fail, Blocking, [Finding(code, reason)],
                              verdict.evidenceRefs, evaluatorRef, None, None, None, None, context);
    BuiltVerdictRecomputes(sha, input, reason);
    BuiltStatus(sha, input, reason);
  }

  /**
   Whatever verdict comes out of a regression run recomputes, from its own hashes or from the
   supplied ones; a replaced one is a blocking failure and recomputes from its own.
   */
  lemma RegressionRunRecomputes(sha: Sha, verdict: Verdict, verdictJson: Json, m: Manifest, caseId: Option<string>,
                                given: Option<InputHashes>, evaluatorRef: string, reason: string)
    requires HexOutput(sha)
    ensures var v := WithRegression(sha, verdict, verdictJson, m, caseId, given, evaluatorRef, reason);
      || (v == verdict && Recompute(sha, v, given).Ok?)
      || (v.status == Fail && v.severity == Blocking && Recompute(sha, v, None).Ok?)
  {
    DefectVerdictRecomputes(sha, verdict, verdictJson, DEFECT_CODE, evaluatorRef, reason);
    DefectVerdictRecomputes(sha, verdict, verdictJson, BINDING_CODE, evaluatorRef, reason);
    OnlyErrorsAreDefects(Recompute(sha, verdict, given), verdict, m, caseId);
  }
}
