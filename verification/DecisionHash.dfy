/**
 Decision hashes of the eval runner: the four input hashes, their storage among the
 causation ids of a verdict, the decision hash that binds a verdict to them, and its
 recomputation.
 */
module DecisionHash {
  import opened Wrappers
  import opened JsText
  import opened Json
  import opened CanonicalText
  import opened Hashing
  import opened VerdictTerms

  datatype InputHashes = InputHashes(
    targetContent: string, evidenceSnapshot: string, definition: string, checkResults: string)

  /** The fields of `hashes` while causation ids are being read. */
  datatype PartialHashes = PartialHashes(
    targetContent: Option<string>, evidenceSnapshot: Option<string>,
    definition: Option<string>, checkResults: Option<string>)

  datatype HashError =
    | NotADigest
    | MissingProvenance
    | MissingDecisionHash
    | DecisionHashMismatch

  datatype Status = Pass | Fail | NeedsReview | Skipped

  datatype Finding = Finding(code: string, message: string)

  datatype ProducedBy = ProducedBy(kind: string, ref: string)

  datatype Provenance = Provenance(
    runId: Option<string>, phase: Option<string>, traceId: Option<string>,
    decisionHash: Option<string>, causationIds: Option<seq<string>>)

  datatype Verdict = Verdict(
    evalId: string, targetRef: string, status: Status, severity: Severity,
    findings: seq<Finding>, evidenceRefs: seq<string>,
    producedBy: ProducedBy, provenance: Option<Provenance>)

  datatype CheckResult = CheckResult(
    checkId: Option<string>, kind: Option<string>, status: Status,
    code: Option<string>, path: Option<string>)

  /** What a verdict was decided from. */
  datatype DecisionContext = DecisionContext(
    targetContent: Json, evidenceSnapshot: Json, definition: Json,
    definitionHash: Option<string>, checkResults: seq<CheckResult>)

  function StatusText(s: Status): string {
    match s
    case Pass => "pass"
    case Fail => "fail"
    case NeedsReview => "needs_review"
    case Skipped => "skipped"
  }

  // --------------------------------------------------------------- input hashes

  const ABSENT_SENTINEL := "specwright.eval-runner.absent-input.v1"
  const UNRESOLVED_SENTINEL := "specwright.eval-runner.unresolved-input.v1"

  function AbsentSentinel(input: string): Json {
    JObj([Field("kind", JStr("absent")), Field("input", JStr(input)), Field("sentinel", JStr(ABSENT_SENTINEL))])
  }

  function UnresolvedSentinel(input: string, reason: string): Json {
    JObj([Field("kind", JStr("unresolved")), Field("input", JStr(input)),
          Field("reason", JStr(reason)), Field("sentinel", JStr(UNRESOLVED_SENTINEL))])
  }

  function OrAbsent(value: Json, input: string): Json {
    if value.JUndefined? then AbsentSentinel(input) else value
  }

  function CheckResultJson(c: CheckResult): Json {
    JObj([Field("checkId", OptionalText(c.checkId)), Field("type", OptionalText(c.kind)),
          Field("status", JStr(StatusText(c.status))), Field("code", OptionalText(c.code)),
          Field("path", OptionalText(c.path))])
  }

  function CheckResultsJson(results: seq<CheckResult>): Json {
    JArr(seq(|results|, i requires 0 <= i < |results| => CheckResultJson(results[i])))
  }

  function EnsureDigest(value: Option<string>): Result<string, HashError> {
    if value.Some? && IsDigest(value.value) then Ok(value.value) else Err(NotADigest)
  }

  /** `hashResolvedInputs`: None where hashing throws a decision-hash error. */
  function HashResolvedInputs(sha: Sha, c: DecisionContext): Option<InputHashes> {
    var target := HashValue(sha, OrAbsent(c.targetContent, "targetContent"));
    var evidence := HashValue(sha, OrAbsent(c.evidenceSnapshot, "evidenceSnapshot"));
    var definition := if c.definitionHash.Some?
      then (if IsDigest(c.definitionHash.value) then c.definitionHash else None)
      else HashValue(sha, OrAbsent(c.definition, "definition"));
    var checks := HashValue(sha, CheckResultsJson(c.checkResults));
    if target.Some? && evidence.Some? && definition.Some? && checks.Some?
    then Some(InputHashes(target.value, evidence.value, definition.value, checks.value))
    else None
  }

  function UnresolvedInputHashes(sha: Sha, reason: string): InputHashes {
    InputHashes(
      Digest(sha, StableText(UnresolvedSentinel("targetContent", reason))),
      Digest(sha, StableText(UnresolvedSentinel("evidenceSnapshot", reason))),
      Digest(sha, StableText(UnresolvedSentinel("definition", reason))),
      Digest(sha, StableText(UnresolvedSentinel("checkResults", reason))))
  }

  predicate AllDigests(h: InputHashes) {
    IsDigest(h.targetContent) && IsDigest(h.evidenceSnapshot) && IsDigest(h.definition) && IsDigest(h.checkResults)
  }

  // -------------------------------------------------------------- causation ids

  const PREFIX := "specwright.eval-runner.input-hash"

  datatype HashKey = TargetContent | EvidenceSnapshot | Definition | CheckResults

  function KeyText(k: HashKey): string {
    PREFIX + match k
      case TargetContent => ".targetContentHash"
      case EvidenceSnapshot => ".evidenceSnapshotHash"
      case Definition => ".definitionHash"
      case CheckResults => ".checkResultsHash"
  }

  function Recognize(key: string): Option<HashKey> {
    if key == KeyText(TargetContent) then Some(TargetContent)
    else if key == KeyText(EvidenceSnapshot) then Some(EvidenceSnapshot)
    else if key == KeyText(Definition) then Some(Definition)
    else if key == KeyText(CheckResults) then Some(CheckResults)
    else None
  }

  function EncodeId(k: HashKey, digest: string): string {
    KeyText(k) + "=" + digest
  }

  function EncodeIds(h: InputHashes): seq<string> {
    [EncodeId(TargetContent, h.targetContent), EncodeId(EvidenceSnapshot, h.evidenceSnapshot),
     EncodeId(Definition, h.definition), EncodeId(CheckResults, h.checkResults)]
  }

  function KeyOf(id: string): string {
    Split(id, '=')[0]
  }

  /** The text between the first and the second equals sign. */
  function ValueOf(id: string): Option<string> {
    var pieces := Split(id, '=');
    if |pieces| > 1 then Some(pieces[1]) else None
  }

  predicate IsReserved(id: string) {
    Recognize(KeyOf(id)).Some?
  }

  function Store(acc: PartialHashes, k: HashKey, digest: string): PartialHashes {
    match k
    case TargetContent => acc.(targetContent := Some(digest))
    case EvidenceSnapshot => acc.(evidenceSnapshot := Some(digest))
    case Definition => acc.(definition := Some(digest))
    case CheckResults => acc.(checkResults := Some(digest))
  }

  function ReadId(id: string, acc: PartialHashes): Result<PartialHashes, HashError> {
    match Recognize(KeyOf(id))
    case None => Ok(acc)
    case Some(k) =>
      var digest :- EnsureDigest(ValueOf(id));
      Ok(Store(acc, k, digest))
  }

  function ReadIds(ids: seq<string>, acc: PartialHashes): Result<PartialHashes, HashError> {
    if ids == [] then Ok(acc)
    else
      var next :- ReadId(ids[0], acc);
      ReadIds(ids[1..], next)
  }

  const NO_HASHES := PartialHashes(None, None, None, None)

  method InputHashesFromCausationIds(ids: seq<string>) returns (r: Result<PartialHashes, HashError>)
    ensures r == ReadIds(ids, NO_HASHES)
  {
    var hashes := NO_HASHES;
    for i := 0 to |ids|
      invariant ReadIds(ids, NO_HASHES) == ReadIds(ids[i..], hashes)
    {
      var next := ReadId(ids[i], hashes);
      assert ids[i..][1..] == ids[i + 1..];
      if next.Err? {
        return Err(next.error);
      }
      hashes := next.value;
    }
    return Ok(hashes);
  }

  function AllPresent(p: PartialHashes): Result<InputHashes, HashError> {
    var target :- EnsureDigest(p.targetContent);
    var evidence :- EnsureDigest(p.evidenceSnapshot);
    var definition :- EnsureDigest(p.definition);
    var checks :- EnsureDigest(p.checkResults);
    Ok(InputHashes(target, evidence, definition, checks))
  }

  function DecodeIds(ids: seq<string>): Result<InputHashes, HashError> {
    var p :- ReadIds(ids, NO_HASHES);
    AllPresent(p)
  }

  /** `inputHashesFromVerdict` */
  function InputHashesFromVerdict(v: Verdict): Result<InputHashes, HashError> {
    if v.provenance.None? then Err(MissingProvenance)
    else DecodeIds(v.provenance.value.causationIds.GetOr([]))
  }

  // -------------------------------------------------------------- decision hash

  function DecisionJson(evalId: string, targetRef: string, status: Status, severity: Severity,
                        producedByRef: string, h: InputHashes): Json {
    JObj([Field("evalId", JStr(evalId)), Field("targetRef", JStr(targetRef)),
          Field("status", JStr(StatusText(status))), Field("severity", JStr(SeverityText(severity))),
          Field("producedByRef", JStr(producedByRef)),
          Field("targetContentHash", JStr(h.targetContent)),
          Field("evidenceSnapshotHash", JStr(h.evidenceSnapshot)),
          Field("definitionHash", JStr(h.definition)),
          Field("checkResultsHash", JStr(h.checkResults))])
  }

  /** The text that a verdict's decision hash is the hash of. */
  function DecisionText(v: Verdict, h: InputHashes): string {
    StableText(DecisionJson(v.evalId, v.targetRef, v.status, v.severity, v.producedBy.ref, h))
  }

  /** `recomputeDecisionHash`, with the hashes read from the verdict unless they are given. */
  function Recompute(sha: Sha, v: Verdict, given: Option<InputHashes>): Result<string, HashError> {
    var h :- if given.Some? then Ok(given.value) else InputHashesFromVerdict(v);
    var stored := if v.provenance.Some? then v.provenance.value.decisionHash else None;
    if stored.None? || !IsDigest(stored.value) then Err(MissingDecisionHash)
    else
      var recomputed := Digest(sha, DecisionText(v, h));
      if recomputed == stored.value then Ok(recomputed) else Err(DecisionHashMismatch)
  }

  const FAIL_CLOSED_CODE := "eval.decision_hash.unresolved"

  datatype VerdictInput = VerdictInput(
    evalId: string, targetRef: string, status: Status, severity: Severity,
    findings: seq<Finding>, evidenceRefs: seq<string>, evaluatorRef: string,
    producedBy: Option<ProducedBy>,
    runId: Option<string>, phase: Option<string>, traceId: Option<string>,
    context: DecisionContext)

  function Unique(values: seq<string>): seq<string> {
    if values == [] then []
    else
      var earlier := Unique(values[..|values| - 1]);
      if values[|values| - 1] in earlier then earlier else earlier + [values[|values| - 1]]
  }

  function Bind(sha: Sha, v: Verdict, h: InputHashes, input: VerdictInput): Verdict {
    v.(provenance := Some(Provenance(input.runId, input.phase, input.traceId,
       Some(Digest(sha, DecisionText(v, h))), Some(EncodeIds(h)))))
  }

  /**
   `buildVerdict`: a verdict bound to its hashed inputs or, when an input has no
   canonical text, a blocking failure bound to placeholders that name the reason.
   */
  function BuildVerdict(sha: Sha, input: VerdictInput, reason: string): Verdict {
    var producedBy := input.producedBy.GetOr(ProducedBy("deterministic", input.evaluatorRef));
    match HashResolvedInputs(sha, input.context)
    case Some(h) =>
      Bind(sha, Verdict(input.evalId, input.targetRef, input.status, input.severity,
                        input.findings, Unique(input.evidenceRefs), producedBy, None), h, input)
    case None =>
      Bind(sha, Verdict(input.evalId, input.targetRef, Fail, Blocking,
                        [Finding(FAIL_CLOSED_CODE, reason)], [], producedBy, None),
           UnresolvedInputHashes(sha, reason), input)
  }
}
