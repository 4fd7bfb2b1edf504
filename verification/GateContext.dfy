/**
 The context that a model-assisted gate check sends: each allowed reference reads the input
 of the evaluation along a path or by name, and what it finds is sanitized and put at the
 place that the reference names.
 */
module GateContext {
  import opened Wrappers
  import opened JsText
  import opened Json
  import opened Sanitizing
  import opened ContextPuts
  import opened ContextContent

  // -------------------------------------------------------------- sanitizing

  /** `redactForModel` */
  method RedactForModel(p: Policy, value: Json) returns (redacted: Json)
    ensures redacted == Sanitize(p, value)
    decreases value
  {
    match value
    case JArr(items) =>
      var kept := [];
      var i := 0;
      assert items[0..] == items;
      while i < |items|
        invariant 0 <= i <= |items|
        invariant SanitizeItems(p, items) == kept + SanitizeItems(p, items[i..])
      {
        NextItemKept(p, items, i, kept);
        var entry := RedactForModel(p, items[i]);
        if entry != JUndefined {
          kept := kept + [entry];
        }
        i := i + 1;
      }
      redacted := JArr(kept);
    case JObj(fields) =>
      if Restricted(p, fields) {
        return JUndefined;
      }
      var kept := [];
      var i := 0;
      assert fields[0..] == fields;
      while i < |fields|
        invariant 0 <= i <= |fields|
        invariant SanitizeFields(p, fields) == kept + SanitizeFields(p, fields[i..])
      {
        NextFieldKept(p, fields, i, kept);
        kept := RedactProperty(p, fields[i], kept);
        i := i + 1;
      }
      redacted := JObj(kept);
    case _ => return value;
  }

  /** One turn of the loop over the properties of a record. */
  method RedactProperty(p: Policy, f: Field, before: seq<Field>) returns (kept: seq<Field>)
    ensures kept == before + SanitizeField(p, f)
    decreases f
  {
    kept := before;
    if !p.secretKey(f.key) {
      var entry := RedactForModel(p, f.value);
      if entry != JUndefined && !(p.dropEmpty && entry == JObj([])) {
        kept := kept + [Field(f.key, entry)];
      }
    }
  }

  // --------------------------------------------------------------- the input

  /** The input of an evaluation; a part that is not given is undefined. */
  datatype GateInput = GateInput(
    runId: Option<string>, phase: Option<string>, repairLoopIterations: Option<int>,
    runInput: Json, data: Json, artifacts: Json, evidence: Json, evals: Json, decisions: Json, policy: Json)

  const NO_INPUT := GateInput(None, None, None, JUndefined, JUndefined, JUndefined, JUndefined, JUndefined, JUndefined, JUndefined)

  /** The parts that `run_input`, `runInput`, `evidence` and the other aliases stand for. */
  function Part(i: GateInput, name: string): Json {
    if name == "runInput" then i.runInput
    else if name == "data" then i.data
    else if name == "artifacts" then i.artifacts
    else if name == "evidence" then i.evidence
    else if name == "evals" then i.evals
    else if name == "decisions" then i.decisions
    else if name == "policy" then i.policy
    else if name == "runId" then OptionalText(i.runId)
    else if name == "phase" then OptionalText(i.phase)
    else JUndefined
  }

  const PARTS := ["runInput", "data", "artifacts", "evidence", "evals", "decisions", "policy", "runId", "phase"]

  function PartFields(i: GateInput, names: seq<string>): seq<Field> {
    seq(|names|, k requires 0 <= k < |names| => Field(names[k], Part(i, names[k])))
  }

  /** The one record that every reference reads from. */
  function InputRecord(i: GateInput): Json {
    JObj(PartFields(i, PARTS))
  }

  lemma {:induction false} FindPart(i: GateInput, names: seq<string>, name: string)
    ensures Find(PartFields(i, names), name) == if name in names then Some(Part(i, name)) else None
  {
    if names != [] {
      FindPart(i, names[1..], name);
      assert PartFields(i, names)[1..] == PartFields(i, names[1..]);
    }
  }

  lemma PartIsRead(i: GateInput, name: string)
    ensures Lookup(InputRecord(i).fields, name) == Part(i, name)
  {
    FindPart(i, PARTS, name);
    assert PARTS[0] == "runInput" && PARTS[1] == "data" && PARTS[2] == "artifacts" && PARTS[3] == "evidence"
        && PARTS[4] == "evals" && PARTS[5] == "decisions" && PARTS[6] == "policy" && PARTS[7] == "runId" && PARTS[8] == "phase";
  }

  // --------------------------------------------------------- reading by a path

  predicate Wildcard(segment: string) {
    EndsWith(segment, "[*]")
  }

  function SegmentKey(segment: string): string {
    if Wildcard(segment) then segment[..|segment| - 3] else segment
  }

  /** What one segment leads to from one value. */
  function Children(value: Json, segment: string): seq<Json> {
    if !value.JObj? then []
    else
      var child := Lookup(value.fields, SegmentKey(segment));
      if !Wildcard(segment) then [child] else if child.JArr? then child.items else []
  }

  function AllChildren(values: seq<Json>, segment: string): seq<Json> {
    if values == [] then [] else AllChildren(values[..|values| - 1], segment) + Children(values[|values| - 1], segment)
  }

  function ValuesAlong(values: seq<Json>, segments: seq<string>): seq<Json>
    decreases |segments|
  {
    if segments == [] then values else ValuesAlong(AllChildren(values, segments[0]), segments[1..])
  }

  function PathValues(root: Json, path: string): seq<Json> {
    if path == "$" then [root]
    else if !StartsWith(path, "$.") then []
    else ValuesAlong([root], Split(path[2..], '.'))
  }

  method ReadPathValues(root: Json, path: string) returns (values: seq<Json>)
    ensures values == PathValues(root, path)
  {
    if path == "$" {
      return [root];
    }
    if !StartsWith(path, "$.") {
      return [];
    }
    var segments := Split(path[2..], '.');
    values := [root];
    var i := 0;
    assert segments[0..] == segments;
    while i < |segments|
      invariant 0 <= i <= |segments|
      invariant ValuesAlong([root], segments) == ValuesAlong(values, segments[i..])
    {
      values := NextValues(values, segments[i]);
      assert segments[i..][1..] == segments[i + 1..];
      i := i + 1;
    }
  }

  method NextValues(currentValues: seq<Json>, segment: string) returns (nextValues: seq<Json>)
    ensures nextValues == AllChildren(currentValues, segment)
  {
    var wildcard, key := EndsWith(segment, "[*]"), SegmentKey(segment);
    nextValues := [];
    var i := 0;
    while i < |currentValues|
      invariant 0 <= i <= |currentValues|
      invariant nextValues == AllChildren(currentValues[..i], segment)
    {
      assert currentValues[..i + 1][..i] == currentValues[..i];
      var value := currentValues[i];
      if value.JObj? {
        var child := Lookup(value.fields, key);
        if wildcard {
          if child.JArr? {
            nextValues := nextValues + child.items;
          }
        } else {
          nextValues := nextValues + [child];
        }
      }
      i := i + 1;
    }
    assert currentValues[..|currentValues|] == currentValues;
  }

  function Overridden(fields: seq<Field>, names: seq<string>, get: string -> Json): seq<Field>
    decreases |names|
  {
    if names == [] then fields else Overridden(SetField(fields, names[0], get(names[0])), names[1..], get)
  }

  const SCOPE_NAMES := ["runId", "phase", "runInput", "run_input", "artifacts", "evidence", "evidence_graph", "evals",
                        "decisions", "policy"]

  /** The part of the input that a property of the scope takes its value from, if it is not one of the data. */
  function PartOfScope(name: string): string {
    if name == "run_input" then "runInput" else if name == "evidence_graph" then "evidence" else name
  }

  /** `evaluationScope`: the data, with the named parts over them. */
  function Scope(i: GateInput): Json {
    JObj(Overridden(if i.data.JObj? then i.data.fields else [], SCOPE_NAMES, (name: string) => Part(i, PartOfScope(name))))
  }

  lemma {:induction false} LookupOverridden(fields: seq<Field>, names: seq<string>, get: string -> Json, name: string)
    ensures Lookup(Overridden(fields, names, get), name) == if name in names then get(name) else Lookup(fields, name)
    decreases |names|
  {
    if names != [] {
      LookupOverridden(SetField(fields, names[0], get(names[0])), names[1..], get, name);
      LookupAfterSet(fields, names[0], get(names[0]), name);
    }
  }

  // ---------------------------------------------------------- reading by a name

  /** `v?.[name]` */
  function Property(v: Json, name: string): Json {
    if v.JObj? then Lookup(v.fields, name) else JUndefined
  }

  predicate VerdictMatches(verdict: Json, id: string) {
    Property(verdict, "id") == JStr(id) || Property(verdict, "policyId") == JStr(id) || Property(verdict, "requestId") == JStr(id)
  }

  function FirstMatch(verdicts: seq<Json>, id: string): Option<nat> {
    if verdicts == [] then None
    else if VerdictMatches(verdicts[0], id) then Some(0)
    else match FirstMatch(verdicts[1..], id)
      case None => None
      case Some(k) => Some(k + 1)
  }

  /** `findPolicyVerdict` */
  function PolicyVerdict(policy: Json, id: string): Json {
    match policy
    case JArr(verdicts) => (match FirstMatch(verdicts, id) case None => JUndefined case Some(k) => Element(verdicts, k))
    case JObj(fields) =>
      if Lookup(fields, "status").JStr? then (if VerdictMatches(policy, id) then policy else JUndefined)
      else Lookup(fields, id)
    case _ => JUndefined
  }

  function Element(items: seq<Json>, k: nat): Json {
    if k < |items| then items[k] else JUndefined
  }

  /** `a ?? b` */
  function Or(a: Json, b: Json): Json {
    if Nullish(a) then b else a
  }

  const ALIASES := ["runInput", "evidence", "artifacts", "evals", "decisions", "policy"]

  /** The first of the data, artifacts, evals, decisions and policy verdicts that has a value under a name. */
  function LookedUp(i: GateInput, name: string): Json {
    Or(Property(i.data, name), Or(Property(i.artifacts, name), Or(Property(i.evals, name),
       Or(Property(i.decisions, name), PolicyVerdict(i.policy, name)))))
  }

  /** `inputValueByName` */
  function NamedValue(i: GateInput, name: string): Json {
    if name == "run_input" then Or(i.runInput, Property(i.data, "run_input"))
    else if name == "evidence_graph" then Or(i.evidence, Property(i.data, "evidence_graph"))
    else if name in ALIASES then Part(i, name)
    else LookedUp(i, name)
  }

  // ---------------------------------------------------------------- projection

  function First(values: seq<Json>): Json {
    Element(values, 0)
  }

  predicate IsPath(ref: string) {
    StartsWith(ref, "$.")
  }

  /** What a reference reads. */
  function RefValue(i: GateInput, ref: string): Json {
    if IsPath(ref) then First(PathValues(Scope(i), ref)) else NamedValue(i, ref)
  }

  function SegmentKeys(segments: seq<string>): seq<string> {
    seq(|segments|, k requires 0 <= k < |segments| => SegmentKey(segments[k]))
  }

  /** Where a reference puts it. */
  function RefPath(ref: string): (path: seq<string>)
    ensures path != []
  {
    if IsPath(ref) then SegmentKeys(Split(ref[2..], '.')) else [ref]
  }

  /** One turn of the loop: nothing is put for a blank reference, or if nothing is left of what it reads. */
  function After(p: Policy, before: seq<Field>, ref: string, value: Json): seq<Field> {
    var redacted := Sanitize(p, value);
    if !NonBlank(ref) || redacted.JUndefined? then before else Put(before, RefPath(ref), redacted)
  }

  /** The properties of the projected context after a list of references. */
  function Projected(p: Policy, refs: seq<string>, i: GateInput): seq<Field> {
    if refs == [] then []
    else
      After(p, Projected(p, refs[..|refs| - 1], i), refs[|refs| - 1], RefValue(i, refs[|refs| - 1]))
  }

  method ReadReference(i: GateInput, ref: string) returns (value: Json)
    ensures value == RefValue(i, ref)
  {
    if !IsPath(ref) {
      return NamedValue(i, ref);
    }
    var values := ReadPathValues(Scope(i), ref);
    value := First(values);
  }

  method ProjectReference(p: Policy, ref: string, i: GateInput, before: seq<Field>) returns (context: seq<Field>)
    ensures context == After(p, before, ref, RefValue(i, ref))
  {
    context := before;
    if NonBlank(ref) {
      var value := ReadReference(i, ref);
      var redacted := RedactForModel(p, value);
      if redacted != JUndefined {
        context := Put(context, RefPath(ref), redacted);
      }
    }
  }

  method ProjectModelContext(p: Policy, refs: seq<string>, i: GateInput) returns (context: seq<Field>)
    ensures context == Projected(p, refs, i)
  {
    context := [];
    var k := 0;
    while k < |refs|
      invariant 0 <= k <= |refs|
      invariant context == Projected(p, refs[..k], i)
    {
      assert refs[..k + 1][..k] == refs[..k];
      context := ProjectReference(p, refs[k], i, context);
      k := k + 1;
    }
    assert refs[..|refs|] == refs;
  }
}
