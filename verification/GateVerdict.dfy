/**
 Gate verdicts, the decision hash that every verdict carries, and what that hash binds.
 */
module GateVerdict {
  import opened Wrappers
  import opened Json
  import opened CanonicalText
  import opened Hashing
  import opened VerdictTerms
  import KeyOrder

  datatype Status = Pass | Fail | NeedsReview

  datatype Action = Repair | Clarify | Approve | FailTheRun

  datatype EvaluatorKind = Deterministic | ModelAssisted

  datatype Finding = Finding(
    id: string, severity: Severity, message: string, evidenceRefs: seq<string>,
    targetRef: Option<string>, repairHint: Option<string>)

  datatype Evaluator = Evaluator(kind: EvaluatorKind, ref: string)

  /** A verdict before it is hashed. */
  datatype Body = Body(
    gateId: string, phase: string, status: Status, severity: Severity,
    requiredAction: Option<Action>, findings: seq<Finding>, reasons: seq<string>,
    evidenceRefs: seq<string>, obligations: seq<Json>, evaluatedAt: string, evaluator: Evaluator)

  datatype Verdict = Verdict(body: Body, decisionHash: string)

  function StatusText(s: Status): string {
    match s
    case Pass => "pass"
    case Fail => "fail"
    case NeedsReview => "needs_review"
  }

  function ActionText(a: Action): string {
    match a
    case Repair => "repair"
    case Clarify => "clarify"
    case Approve => "approve"
    case FailTheRun => "fail_run"
  }

  function KindText(k: EvaluatorKind): string {
    match k
    case Deterministic => "deterministic"
    case ModelAssisted => "model_assisted"
  }

  function Texts(s: seq<string>): Json {
    JArr(seq(|s|, i requires 0 <= i < |s| => JStr(s[i])))
  }

  function FindingJson(f: Finding): Json {
    JObj([Field("id", JStr(f.id)), Field("severity", JStr(SeverityText(f.severity))),
          Field("message", JStr(f.message)), Field("evidenceRefs", Texts(f.evidenceRefs)),
          Field("targetRef", OptionalText(f.targetRef)), Field("repairHint", OptionalText(f.repairHint))])
  }

  function FindingsJson(fs: seq<Finding>): Json {
    JArr(seq(|fs|, i requires 0 <= i < |fs| => FindingJson(fs[i])))
  }

  function EvaluatorJson(e: Evaluator): Json {
    JObj([Field("kind", JStr(KindText(e.kind))), Field("ref", JStr(e.ref))])
  }

  /** `gateDecisionHashInput` */
  function HashInput(b: Body): Json {
    JObj([Field("gateId", JStr(b.gateId)), Field("phase", JStr(b.phase)),
          Field("status", JStr(StatusText(b.status))), Field("severity", JStr(SeverityText(b.severity))),
          Field("findings", FindingsJson(b.findings)), Field("reasons", Texts(b.reasons)),
          Field("evidenceRefs", Texts(b.evidenceRefs)), Field("obligations", JArr(b.obligations)),
          Field("evaluatedAt", JStr(b.evaluatedAt)), Field("evaluator", EvaluatorJson(b.evaluator)),
          Field("requiredAction", if b.requiredAction.Some? then JStr(ActionText(b.requiredAction.value)) else JUndefined)])
  }

  function HashJson(sha: Sha, j: Json): string {
    Digest(sha, Print(Normalize(KeyOrder.Properties, j)))
  }

  function DecisionHash(sha: Sha, b: Body): string {
    HashJson(sha, HashInput(b))
  }

  /** `compactVerdict` */
  function Hashed(sha: Sha, b: Body): Verdict {
    Verdict(b, DecisionHash(sha, b))
  }

  predicate Recomputes(sha: Sha, v: Verdict) {
    v.decisionHash == DecisionHash(sha, v.body)
  }

  // ------------------------------------------------------------- what is bound

  /** Obligations have canonical texts. */
  predicate CanonicalBody(b: Body) {
    forall i :: 0 <= i < |b.obligations| ==> Canonical(b.obligations[i])
  }

  /** The two bodies differ at most in how their obligations order object keys. */
  predicate SameBody(b: Body, c: Body) {
    b.(obligations := []) == c.(obligations := []) && DenoteItems(b.obligations) == DenoteItems(c.obligations)
  }

  const FINDING_KEYS := ["id", "severity", "message", "evidenceRefs", "targetRef", "repairHint"]

  const HASH_KEYS := ["gateId", "phase", "status", "severity", "findings", "reasons",
    "evidenceRefs", "obligations", "evaluatedAt", "evaluator", "requiredAction"]

  lemma FindingKeysDiffer(i: nat, j: nat)
    requires i < j < 6
    ensures FINDING_KEYS[i] != FINDING_KEYS[j]
  {
    var a, b := FINDING_KEYS[i], FINDING_KEYS[j];
    assert |a| != |b|;
  }

  lemma HashKeysDiffer(i: nat, j: nat)
    requires i < j < 11
    ensures HASH_KEYS[i] != HASH_KEYS[j]
  {
    var a, b := HASH_KEYS[i], HASH_KEYS[j];
    assert |a| != |b| || a[0] != b[0];
  }

  lemma FindingFields(f: Finding)
    ensures |FindingJson(f).fields| == 6 && DistinctKeys(FindingJson(f).fields)
    ensures forall i :: 0 <= i < 6 ==> FindingJson(f).fields[i].key == FINDING_KEYS[i]
  {
    forall i, j | 0 <= i < j < 6
      ensures FINDING_KEYS[i] != FINDING_KEYS[j]
    {
      FindingKeysDiffer(i, j);
    }
  }

  lemma HashFields(b: Body)
    ensures |HashInput(b).fields| == 11 && DistinctKeys(HashInput(b).fields)
    ensures forall i :: 0 <= i < 11 ==> HashInput(b).fields[i].key == HASH_KEYS[i]
  {
    forall i, j | 0 <= i < j < 11
      ensures HASH_KEYS[i] != HASH_KEYS[j]
    {
      HashKeysDiffer(i, j);
    }
  }

  lemma FindingCanonical(f: Finding)
    ensures Canonical(FindingJson(f))
  {
    FindingFields(f);
    var fields := FindingJson(f).fields;
    forall i | 0 <= i < 6
      ensures Proper(fields[i].value) && Hashable(fields[i].value)
    {
    }
  }

  lemma EvaluatorCanonical(e: Evaluator)
    ensures Canonical(EvaluatorJson(e)) && DistinctKeys(EvaluatorJson(e).fields)
  {
    var fields := EvaluatorJson(e).fields;
    assert |fields| == 2 && fields[0].key[0] != fields[1].key[0];
  }

  lemma HashInputCanonical(b: Body)
    requires CanonicalBody(b)
    ensures Canonical(HashInput(b))
  {
    HashFields(b);
    EvaluatorCanonical(b.evaluator);
    forall i | 0 <= i < |b.findings|
      ensures Canonical(FindingJson(b.findings[i]))
    {
      FindingCanonical(b.findings[i]);
    }
    var fields := HashInput(b).fields;
    assert Canonical(fields[4].value);
    assert Canonical(fields[7].value);
    forall i | 0 <= i < 11
      ensures Proper(fields[i].value) && Hashable(fields[i].value)
    {
    }
  }

  lemma {:induction false} ItemsMeaning(items: seq<Json>)
    ensures |DenoteItems(items)| == |items|
    ensures forall i :: 0 <= i < |items| ==> DenoteItems(items)[i] == Denote(items[i])
  {
    if items != [] {
      ItemsMeaning(items[1..]);
    }
  }

  lemma SameTexts(s: seq<string>, t: seq<string>)
    requires Denote(Texts(s)) == Denote(Texts(t))
    ensures s == t
  {
    ItemsMeaning(Texts(s).items);
    ItemsMeaning(Texts(t).items);
    forall i | 0 <= i < |s|
      ensures s[i] == t[i]
    {
      assert Denote(Texts(s).items[i]) == Denote(Texts(t).items[i]);
    }
  }

  lemma ActionTextInjective(s: Action, t: Action)
    requires ActionText(s) == ActionText(t)
    ensures s == t
  {
    assert ActionText(s)[0] == ActionText(t)[0];
  }

  lemma FindingPart(f: Finding, g: Finding, i: nat)
    requires Denote(FindingJson(f)) == Denote(FindingJson(g)) && i < 6
    ensures var fs, gs := FindingJson(f).fields, FindingJson(g).fields;
      (fs[i].value.JUndefined? <==> gs[i].value.JUndefined?) && Denote(fs[i].value) == Denote(gs[i].value)
  {
    FindingFields(f);
    FindingFields(g);
    SameKeysSameFields(FindingJson(f).fields, FindingJson(g).fields);
  }

  lemma FindingParts(f: Finding, g: Finding)
    requires Denote(FindingJson(f)) == Denote(FindingJson(g))
    ensures f.id == g.id && f.message == g.message && SeverityText(f.severity) == SeverityText(g.severity)
    ensures Denote(Texts(f.evidenceRefs)) == Denote(Texts(g.evidenceRefs))
    ensures f.targetRef == g.targetRef && f.repairHint == g.repairHint
  {
    FindingPart(f, g, 0);
    FindingPart(f, g, 1);
    FindingPart(f, g, 2);
    FindingPart(f, g, 3);
    FindingPart(f, g, 4);
    FindingPart(f, g, 5);
    SameOptional(f.targetRef, g.targetRef);
    SameOptional(f.repairHint, g.repairHint);
  }

  lemma SameFinding(f: Finding, g: Finding)
    requires Denote(FindingJson(f)) == Denote(FindingJson(g))
    ensures f == g
  {
    FindingParts(f, g);
    SeverityTextInjective(f.severity, g.severity);
    SameTexts(f.evidenceRefs, g.evidenceRefs);
  }

  lemma SameFindings(fs: seq<Finding>, gs: seq<Finding>)
    requires Denote(FindingsJson(fs)) == Denote(FindingsJson(gs))
    ensures fs == gs
  {
    ItemsMeaning(FindingsJson(fs).items);
    ItemsMeaning(FindingsJson(gs).items);
    forall i | 0 <= i < |fs|
      ensures fs[i] == gs[i]
    {
      assert Denote(FindingsJson(fs).items[i]) == Denote(FindingsJson(gs).items[i]);
      SameFinding(fs[i], gs[i]);
    }
  }

  lemma SameEvaluator(e: Evaluator, f: Evaluator)
    requires Denote(EvaluatorJson(e)) == Denote(EvaluatorJson(f))
    ensures e == f
  {
    var fs, gs := EvaluatorJson(e).fields, EvaluatorJson(f).fields;
    EvaluatorCanonical(e);
    EvaluatorCanonical(f);
    SameKeysSameFields(fs, gs);
    assert Denote(fs[0].value) == Denote(gs[0].value) && Denote(fs[1].value) == Denote(gs[1].value);
    assert KindText(e.kind)[0] == KindText(f.kind)[0];
  }

  lemma HashInputParts(b: Body, c: Body, i: nat)
    requires Denote(HashInput(b)) == Denote(HashInput(c)) && i < 11
    ensures var fs, gs := HashInput(b).fields, HashInput(c).fields;
      (fs[i].value.JUndefined? <==> gs[i].value.JUndefined?) && Denote(fs[i].value) == Denote(gs[i].value)
  {
    HashFields(b);
    HashFields(c);
    SameKeysSameFields(HashInput(b).fields, HashInput(c).fields);
  }

  lemma SameHashTexts(b: Body, c: Body)
    requires Denote(HashInput(b)) == Denote(HashInput(c))
    ensures b.gateId == c.gateId && b.phase == c.phase && b.evaluatedAt == c.evaluatedAt
    ensures b.status == c.status && b.severity == c.severity
  {
    HashInputParts(b, c, 0);
    HashInputParts(b, c, 1);
    HashInputParts(b, c, 2);
    HashInputParts(b, c, 3);
    HashInputParts(b, c, 8);
    assert StatusText(b.status)[0] == StatusText(c.status)[0];
    SeverityTextInjective(b.severity, c.severity);
  }

  lemma SameHashLists(b: Body, c: Body)
    requires Denote(HashInput(b)) == Denote(HashInput(c))
    ensures b.findings == c.findings && b.reasons == c.reasons && b.evidenceRefs == c.evidenceRefs
    ensures DenoteItems(b.obligations) == DenoteItems(c.obligations)
  {
    HashInputParts(b, c, 4);
    HashInputParts(b, c, 5);
    HashInputParts(b, c, 6);
    HashInputParts(b, c, 7);
    SameFindings(b.findings, c.findings);
    SameTexts(b.reasons, c.reasons);
    SameTexts(b.evidenceRefs, c.evidenceRefs);
  }

  lemma SameHashRest(b: Body, c: Body)
    requires Denote(HashInput(b)) == Denote(HashInput(c))
    ensures b.evaluator == c.evaluator && b.requiredAction == c.requiredAction
  {
    HashInputParts(b, c, 9);
    HashInputParts(b, c, 10);
    SameEvaluator(b.evaluator, c.evaluator);
    if b.requiredAction.Some? {
      ActionTextInjective(b.requiredAction.value, c.requiredAction.value);
    }
  }

  /** The hash input says everything about a verdict except the order of keys in its obligations. */
  lemma SameHashInput(b: Body, c: Body)
    requires Denote(HashInput(b)) == Denote(HashInput(c))
    ensures SameBody(b, c)
  {
    SameHashTexts(b, c);
    SameHashLists(b, c);
    SameHashRest(b, c);
  }

  lemma SameBodyMeans(b: Body, c: Body)
    requires SameBody(b, c)
    ensures Denote(HashInput(b)) == Denote(HashInput(c))
  {
    HashFields(b);
    HashFields(c);
    var fs, gs := HashInput(b).fields, HashInput(c).fields;
    forall i | 0 <= i < 11
      ensures (fs[i].value.JUndefined? <==> gs[i].value.JUndefined?) && Denote(fs[i].value) == Denote(gs[i].value)
    {
      OnlyObligationsDiffer(b, c, i);
    }
    SameFieldsSameObject(fs, gs);
  }

  lemma OnlyObligationsDiffer(b: Body, c: Body, i: nat)
    requires SameBody(b, c) && i < 11
    ensures i != 7 ==> HashInput(b).fields[i] == HashInput(c).fields[i]
    ensures Denote(HashInput(b).fields[7].value) == Denote(HashInput(c).fields[7].value)
    ensures HashInput(b).fields[7].value.JArr? && HashInput(c).fields[7].value.JArr?
  {
    var bare, other := b.(obligations := []), c.(obligations := []);
    assert i != 7 ==> HashInput(b).fields[i] == HashInput(bare).fields[i];
    assert i != 7 ==> HashInput(c).fields[i] == HashInput(other).fields[i];
  }

  /** Two verdict bodies have one hash exactly when they are the same, or their texts collide. */
  lemma SameHashExactly(sha: Sha, b: Body, c: Body)
    requires CanonicalBody(b) && CanonicalBody(c)
    ensures DecisionHash(sha, b) == DecisionHash(sha, c) <==>
      SameBody(b, c) || Collision(sha, StableText(HashInput(b)), StableText(HashInput(c)))
  {
    HashInputCanonical(b);
    HashInputCanonical(c);
    SameHashSameMeaning(sha, HashInput(b), HashInput(c));
    if SameBody(b, c) {
      SameBodyMeans(b, c);
    }
    if DecisionHash(sha, b) == DecisionHash(sha, c) && Denote(HashInput(b)) == Denote(HashInput(c)) {
      SameHashInput(b, c);
    }
  }

  /**
   A decision hash binds every field of its verdict: two verdicts that both recompute have
   one hash exactly when they have the same body, or SHA-256 collides on their texts.
   */
  lemma DecisionHashBinds(sha: Sha, v: Verdict, w: Verdict)
    requires CanonicalBody(v.body) && CanonicalBody(w.body)
    requires Recomputes(sha, v) && Recomputes(sha, w)
    ensures v.decisionHash == w.decisionHash <==>
      SameBody(v.body, w.body) || Collision(sha, StableText(HashInput(v.body)), StableText(HashInput(w.body)))
  {
    SameHashExactly(sha, v.body, w.body);
  }
}
