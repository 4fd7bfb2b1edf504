/**
 Eval definitions, the lint that a registry applies to them, and the registry that decides
 which definition an eval runs with.
 */
module EvalRegistry {
  import opened Wrappers
  import opened Json
  import opened CanonicalText
  import opened Hashing
  import opened Concatenation
  import opened EvalKinds
  import opened VerdictTerms
  import DecisionHash
  import Decimal

  datatype Check = Check(
    id: Option<string>, kindName: Option<string>, path: Option<string>, evidenceRefs: seq<string>,
    requiredFields: seq<string>, requiredSections: seq<string>, sectionsPath: Option<string>,
    claimsPath: Option<string>, importantLevels: seq<string>)

  /** An entry of a definition's list of checks. */
  datatype RawCheck = IsRecord(check: Check) | NotARecord

  datatype Grader = Grader(name: string, modelTool: string, maxTokens: int, failOnInvalid: bool, blocking: bool)

  /** A grader manifest, by whether its golden regression run passed. */
  datatype GraderManifest = GraderManifest(goldenPassed: bool)

  /**
   What lint and runner read of a definition.  `declaredKinds` holds the six properties
   that may name the kind, in order, empty where missing.
   */
  datatype EvalDefinition = EvalDefinition(
    id: string, declaredKinds: seq<string>, checks: Option<seq<RawCheck>>,
    requiredFields: seq<string>, schemaRequired: seq<string>, path: Option<string>,
    requiredSections: seq<string>, sectionsPath: Option<string>, claimsPath: Option<string>,
    targets: seq<string>, skipped: bool,
    severity: Option<Severity>, blocking: Option<bool>, required: Option<bool>,
    unsupportedStatus: Option<DecisionHash.Status>, grader: Option<Grader>, graderManifest: Option<GraderManifest>)

  function FirstNonEmpty(names: seq<string>): Option<string> {
    if names == [] then None else if names[0] != "" then Some(names[0]) else FirstNonEmpty(names[1..])
  }

  predicate Includes(s: string, part: string) {
    part <= s || (s != "" && Includes(s[1..], part))
  }

  /** `evalKind` */
  function EvalKind(d: EvalDefinition): Kind {
    var explicit := FirstNonEmpty(d.declaredKinds);
    if explicit.Some? && KindOf(explicit.value) != Deterministic then KindOf(explicit.value)
    else if d.checks.Some? && d.checks.value != [] then Deterministic
    else if d.requiredFields != [] || d.schemaRequired != [] then Schema
    else if d.requiredSections != [] || Includes(d.id, "completeness") then Completeness
    else if d.claimsPath.Some? || Includes(d.id, "source_fidelity") then SourceFidelity
    else Deterministic
  }

  /** A check with the kind it is evaluated as. */
  datatype TypedCheck = TypedCheck(kind: Kind, check: Check)

  /** `normalizeCheck`: the id and the kind of a declared check, or the ones it gets by default. */
  function NormalizeCheck(check: Check, definitionId: string, kind: Kind, index: nat): TypedCheck {
    TypedCheck(if check.kindName.Some? && check.kindName.value != "" then KindOf(check.kindName.value) else kind,
               if check.id.Some? && check.id.value != "" then check
               else check.(id := Some(definitionId + ".check." + Decimal.NatText(index + 1))))
  }

  function DeclaredChecks(raw: seq<RawCheck>, definitionId: string, kind: Kind, index: nat): seq<TypedCheck> {
    if raw == [] then []
    else match raw[0]
      case NotARecord => DeclaredChecks(raw[1..], definitionId, kind, index)
      case IsRecord(check) =>
        [NormalizeCheck(check, definitionId, kind, index)] + DeclaredChecks(raw[1..], definitionId, kind, index + 1)
  }

  /** The one that a definition of a checkable kind has when it declares none. */
  function DefaultChecks(d: EvalDefinition, kind: Kind): seq<TypedCheck> {
    var blank := Check(None, None, None, [], [], [], None, None, []);
    match kind
    case Schema | Presence | ArtifactSchema =>
      [TypedCheck(Schema, blank.(id := Some(d.id + ".schema"), path := d.path,
                                 requiredFields := DecisionHash.Unique(d.requiredFields + d.schemaRequired)))]
    case SourceFidelity =>
      [TypedCheck(SourceFidelity, blank.(id := Some(d.id + ".source_fidelity"), claimsPath := d.claimsPath))]
    case Completeness =>
      [TypedCheck(Completeness, blank.(id := Some(d.id + ".completeness"), requiredSections := d.requiredSections,
                                       sectionsPath := d.sectionsPath))]
    case _ => []
  }

  /** `checksForDefinition` */
  function ChecksFor(d: EvalDefinition, kind: Kind): seq<TypedCheck> {
    var declared := DeclaredChecks(d.checks.GetOr([]), d.id, kind, 0);
    if declared != [] then declared else DefaultChecks(d, kind)
  }

  // ------------------------------------------------------------------------ lint

  datatype LintIssue =
    | KindUnknown(kind: Kind)
    | TargetUnresolvable
    | NoChecks
    | CheckUnsupported(kind: Kind)
    | CheckRouted(kind: Kind)

  function TypeIssues(k: Kind): seq<LintIssue> {
    (if KnownCheckKind(k) then [] else [CheckUnsupported(k)]) + (if Routed(k) then [CheckRouted(k)] else [])
  }

  function EachTypeIssues(checks: seq<TypedCheck>): seq<seq<LintIssue>> {
    seq(|checks|, i requires 0 <= i < |checks| => TypeIssues(checks[i].kind))
  }

  function CheckIssues(checks: seq<TypedCheck>): seq<LintIssue> {
    (if checks == [] then [NoChecks] else []) + Flat(EachTypeIssues(checks))
  }

  function KindAndTargetIssues(kind: Kind, targets: seq<string>): seq<LintIssue> {
    (if kind.Other? then [KindUnknown(kind)] else []) + (if targets == [] then [TargetUnresolvable] else [])
  }

  function IssuesOf(kind: Kind, targets: seq<string>, checks: seq<TypedCheck>): seq<LintIssue> {
    KindAndTargetIssues(kind, targets) + (if Routed(kind) then [] else CheckIssues(checks))
  }

  function Lint(d: EvalDefinition): seq<LintIssue> {
    IssuesOf(EvalKind(d), d.targets, ChecksFor(d, EvalKind(d)))
  }

  method LintKindAndTargets(kind: Kind, targets: seq<string>) returns (issues: seq<LintIssue>)
    ensures issues == KindAndTargetIssues(kind, targets)
  {
    issues := [];
    if kind.Other? {
      issues := issues + [KindUnknown(kind)];
    }
    if targets == [] {
      issues := issues + [TargetUnresolvable];
    }
  }

  /** `lintEvalDefinition`, once the kind and the checks of the definition are known. */
  method LintEvalDefinition(kind: Kind, targets: seq<string>, checks: seq<TypedCheck>) returns (issues: seq<LintIssue>)
    ensures issues == IssuesOf(kind, targets, checks)
  {
    issues := LintKindAndTargets(kind, targets);
    if !Routed(kind) {
      issues := LintChecks(checks, issues);
    } else {
      assert issues + [] == issues;
    }
  }

  method LintChecks(checks: seq<TypedCheck>, before: seq<LintIssue>) returns (issues: seq<LintIssue>)
    ensures issues == before + CheckIssues(checks)
  {
    issues := before;
    if checks == [] {
      issues := issues + [NoChecks];
    }
    ghost var start, parts := issues, EachTypeIssues(checks);
    var i := 0;
    while i < |checks|
      invariant i <= |checks| == |parts|
      invariant issues == start + Flat(parts[..i])
    {
      FlatNext(parts, i);
      var kind := checks[i].kind;
      if !KnownCheckKind(kind) {
        issues := issues + [CheckUnsupported(kind)];
      }
      if Routed(kind) {
        issues := issues + [CheckRouted(kind)];
      }
      i := i + 1;
    }
    FlatAll(parts);
  }

  /** Lint finds nothing wrong with the checks exactly when there are some and the runner has an evaluator for each. */
  lemma CheckIssuesExactly(checks: seq<TypedCheck>)
    ensures CheckIssues(checks) == [] <==> checks != [] && forall i :: 0 <= i < |checks| ==> Supported(checks[i].kind)
  {
    var parts := EachTypeIssues(checks);
    FlatEmpty(parts);
    assert forall i :: 0 <= i < |checks| ==> (parts[i] == [] <==> Supported(checks[i].kind));
  }

  // -------------------------------------------------------------------- registry

  datatype Entry = Entry(definitionId: string, harnessPackageId: string, contentHash: string, definition: Json)

  datatype Registry = Registry(harnessPackageId: string, entries: seq<Entry>)

  datatype RegistryError = LintFailed(definitionId: string, issues: seq<LintIssue>) | DuplicateId

  function ContentHash(sha: Sha, definition: Json): string {
    Digest(sha, StableText(definition))
  }

  function Entries(sha: Sha, packageId: string, definitions: seq<Json>, view: Json -> EvalDefinition): seq<Entry> {
    seq(|definitions|, i requires 0 <= i < |definitions| =>
      Entry(view(definitions[i]).id, packageId, ContentHash(sha, definitions[i]), definitions[i]))
  }

  predicate DistinctEntries(entries: seq<Entry>) {
    forall i, j :: 0 <= i < j < |entries| ==> entries[i].definitionId != entries[j].definitionId
  }

  /** The index of the first list that is not empty. */
  function FirstNonEmptyList(lists: seq<seq<LintIssue>>): (i: nat)
    ensures i <= |lists|
    ensures i < |lists| ==> lists[i] != []
    ensures i == |lists| <==> forall k :: 0 <= k < |lists| ==> lists[k] == []
  {
    if lists == [] then 0
    else if lists[0] != [] then 0
    else
      var rest := FirstNonEmptyList(lists[1..]);
      assert forall k :: 0 < k < |lists| ==> lists[k] == lists[1..][k - 1];
      rest + 1
  }

  function EachLint(definitions: seq<Json>, view: Json -> EvalDefinition): seq<seq<LintIssue>> {
    seq(|definitions|, i requires 0 <= i < |definitions| => Lint(view(definitions[i])))
  }

  function FirstLintFailure(definitions: seq<Json>, view: Json -> EvalDefinition): Option<RegistryError> {
    var issues := EachLint(definitions, view);
    var i := FirstNonEmptyList(issues);
    if i == |issues| then None else Some(LintFailed(view(definitions[i]).id, issues[i]))
  }

  /** `buildEvalRegistry`; `view` is what the engine reads of a definition. */
  function BuildRegistry(sha: Sha, packageId: string, definitions: seq<Json>, view: Json -> EvalDefinition)
    : Result<Registry, RegistryError>
  {
    var entries := Entries(sha, packageId, definitions, view);
    match FirstLintFailure(definitions, view)
    case Some(error) => Err(error)
    case None => if DistinctEntries(entries) then Ok(Registry(packageId, entries)) else Err(DuplicateId)
  }

  datatype Resolution =
    | Resolved(definitionId: string, contentHash: string, definition: Json)
    | Missing(definitionId: string)
    | Untrusted(definitionId: string, registeredContentHash: string, suppliedContentHash: string)

  function FindEntry(entries: seq<Entry>, id: string): Option<Entry> {
    if entries == [] then None else if entries[0].definitionId == id then Some(entries[0]) else FindEntry(entries[1..], id)
  }

  /** `resolveFromRegistry` */
  function ResolveFromRegistry(sha: Sha, registry: Registry, packageId: string, id: string,
                               supplied: Option<Json>, view: Json -> EvalDefinition): Resolution
  {
    if registry.harnessPackageId != packageId then Missing(id)
    else match FindEntry(registry.entries, id)
      case None => Missing(id)
      case Some(entry) =>
        if supplied.Some? && (view(supplied.value).id != entry.definitionId || ContentHash(sha, supplied.value) != entry.contentHash)
        then Untrusted(id, entry.contentHash, ContentHash(sha, supplied.value))
        else Resolved(entry.definitionId, entry.contentHash, entry.definition)
  }

  lemma NoLintFailure(definitions: seq<Json>, view: Json -> EvalDefinition)
    ensures FirstLintFailure(definitions, view).None? <==>
      forall i :: 0 <= i < |definitions| ==> Lint(view(definitions[i])) == []
  {
    var issues := EachLint(definitions, view);
    assert forall i :: 0 <= i < |definitions| ==> issues[i] == Lint(view(definitions[i]));
  }

  lemma {:induction false} FoundEntry(entries: seq<Entry>, id: string)
    requires FindEntry(entries, id).Some?
    ensures FindEntry(entries, id).value in entries && FindEntry(entries, id).value.definitionId == id
  {
    if entries[0].definitionId != id {
      FoundEntry(entries[1..], id);
    }
  }

  /**
   A registry is built exactly from definitions that all pass lint and have distinct ids,
   and what it resolves is one of them, registered under the id that was asked for.
   */
  lemma RegistryResolvesLinted(sha: Sha, packageId: string, definitions: seq<Json>, view: Json -> EvalDefinition)
    ensures var built := BuildRegistry(sha, packageId, definitions, view);
      && (built.Ok? <==> (forall i :: 0 <= i < |definitions| ==> Lint(view(definitions[i])) == [])
                         && DistinctEntries(Entries(sha, packageId, definitions, view)))
      && (built.Ok? ==> forall asked: string, id: string, supplied: Option<Json> ::
            var r := ResolveFromRegistry(sha, built.value, asked, id, supplied, view);
            r.Resolved? ==> r.definition in definitions && view(r.definition).id == id && Lint(view(r.definition)) == [])
  {
    NoLintFailure(definitions, view);
    var built := BuildRegistry(sha, packageId, definitions, view);
    if built.Ok? {
      forall asked: string, id: string, supplied: Option<Json>
        ensures var r := ResolveFromRegistry(sha, built.value, asked, id, supplied, view);
          r.Resolved? ==> r.definition in definitions && view(r.definition).id == id && Lint(view(r.definition)) == []
      {
        if ResolveFromRegistry(sha, built.value, asked, id, supplied, view).Resolved? {
          FoundEntry(built.value.entries, id);
        }
      }
    }
  }

  /**
   A definition that a caller supplies is used only if it means what the registered one
   means, unless SHA-256 collides on their texts.
   */
  lemma SuppliedMeansRegistered(sha: Sha, packageId: string, definitions: seq<Json>, view: Json -> EvalDefinition,
                                asked: string, id: string, supplied: Json)
    requires BuildRegistry(sha, packageId, definitions, view).Ok?
    requires Canonical(supplied) && !supplied.JUndefined?
    requires forall d :: d in definitions ==> Canonical(d) && !d.JUndefined?
    ensures var r := ResolveFromRegistry(sha, BuildRegistry(sha, packageId, definitions, view).value, asked, id, Some(supplied), view);
      r.Resolved? ==>
        Denote(supplied) == Denote(r.definition) || Collision(sha, StableText(supplied), StableText(r.definition))
  {
    var registry := BuildRegistry(sha, packageId, definitions, view).value;
    var r := ResolveFromRegistry(sha, registry, asked, id, Some(supplied), view);
    if r.Resolved? {
      FoundEntry(registry.entries, id);
      SameHashSameMeaning(sha, supplied, r.definition);
    }
  }
}
