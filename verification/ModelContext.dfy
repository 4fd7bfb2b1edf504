/**
 The context that a model-assisted grader sends: each allowed reference is read from the
 target or the evidence, sanitized, and put at its own place in a fresh record.
 */
module ModelContext {
  import opened Wrappers
  import opened JsText
  import opened Decimal
  import opened Json
  import opened Sanitizing
  import opened ContextPuts
  import opened ContextContent

  // ------------------------------------------------------------- removed paths

  function StepText(step: Step): string {
    match step
    case Key(name) => "." + name
    case Index(i) => "[" + NatText(i) + "]"
  }

  function Render(path: string, at: Position): string
    decreases |at|
  {
    if at == [] then path else Render(path + StepText(at[0]), at[1..])
  }

  function Texts(path: string, positions: seq<Position>): seq<string> {
    seq(|positions|, i requires 0 <= i < |positions| => Render(path, positions[i]))
  }

  lemma TextsOfSum(path: string, a: seq<Position>, b: seq<Position>)
    ensures Texts(path, a + b) == Texts(path, a) + Texts(path, b)
  {
  }

  lemma TextsUnder(path: string, step: Step, positions: seq<Position>)
    ensures Texts(path, Under(step, positions)) == Texts(path + StepText(step), positions)
  {
    forall i | 0 <= i < |positions|
      ensures Render(path, [step] + positions[i]) == Render(path + StepText(step), positions[i])
    {
      assert ([step] + positions[i])[1..] == positions[i];
    }
  }

  lemma NextItemTexts(p: Policy, path: string, items: seq<Json>, i: nat)
    requires i < |items|
    ensures Texts(path, ItemRedactions(p, items[i..], i)) ==
      Texts(path + StepText(Index(i)), Redactions(p, items[i])) + Texts(path, ItemRedactions(p, items[i + 1..], i + 1))
  {
    assert items[i..][0] == items[i] && items[i..][1..] == items[i + 1..];
    TextsOfSum(path, Under(Index(i), Redactions(p, items[i])), ItemRedactions(p, items[i + 1..], i + 1));
    TextsUnder(path, Index(i), Redactions(p, items[i]));
  }

  lemma NextFieldTexts(p: Policy, path: string, fields: seq<Field>, i: nat)
    requires i < |fields|
    ensures Texts(path, FieldRedactions(p, fields[i..])) ==
      Texts(path, OneFieldRedactions(p, fields[i])) + Texts(path, FieldRedactions(p, fields[i + 1..]))
  {
    var f := fields[i];
    assert fields[i..][0] == f && fields[i..][1..] == fields[i + 1..];
    TextsOfSum(path, OneFieldRedactions(p, f), FieldRedactions(p, fields[i + 1..]));
  }

  lemma OneFieldTexts(p: Policy, path: string, f: Field)
    ensures Texts(path, OneFieldRedactions(p, f)) ==
      if p.secretKey(f.key) then [path + StepText(Key(f.key))]
      else Texts(path + StepText(Key(f.key)), Redactions(p, f.value))
  {
    TextsUnder(path, Key(f.key), Redactions(p, f.value));
    assert Render(path, [Key(f.key)]) == Render(path + StepText(Key(f.key)), [Key(f.key)][1..]);
  }

  /** Sanitizes a value and adds the paths of what it removes to those removed so far. */
  method SanitizeForModel(p: Policy, value: Json, path: string, redactedPaths: seq<string>)
    returns (result: Json, paths: seq<string>)
    requires !p.dropEmpty
    ensures result == Sanitize(p, value)
    ensures paths == redactedPaths + Texts(path, Redactions(p, value))
    decreases value
  {
    match value
    case JArr(items) =>
      var sanitized;
      sanitized, paths := SanitizeArray(p, items, path, redactedPaths);
      result := JArr(sanitized);
    case JObj(fields) =>
      if Restricted(p, fields) {
        return JUndefined, redactedPaths + [path];
      }
      var output;
      output, paths := SanitizeRecord(p, fields, path, redactedPaths);
      result := JObj(output);
    case _ => return value, redactedPaths;
  }

  ghost predicate ItemsDone(p: Policy, items: seq<Json>, path: string, before: seq<string>,
                            i: nat, sanitized: seq<Json>, paths: seq<string>)
    requires i <= |items|
  {
    && SanitizeItems(p, items) == sanitized + SanitizeItems(p, items[i..])
    && before + Texts(path, ItemRedactions(p, items, 0)) == paths + Texts(path, ItemRedactions(p, items[i..], i))
  }

  lemma NextItemDone(p: Policy, items: seq<Json>, path: string, before: seq<string>,
                     i: nat, sanitized: seq<Json>, paths: seq<string>)
    requires i < |items| && ItemsDone(p, items, path, before, i, sanitized, paths)
    ensures var item := Sanitize(p, items[i]);
      ItemsDone(p, items, path, before, i + 1, if item.JUndefined? then sanitized else sanitized + [item],
                paths + Texts(path + StepText(Index(i)), Redactions(p, items[i])))
  {
    var here := Texts(path + StepText(Index(i)), Redactions(p, items[i]));
    var rest := Texts(path, ItemRedactions(p, items[i + 1..], i + 1));
    assert paths + Texts(path, ItemRedactions(p, items[i..], i)) == (paths + here) + rest by {
      NextItemTexts(p, path, items, i);
      assert paths + (here + rest) == (paths + here) + rest;
    }
    NextItemKept(p, items, i, sanitized);
  }

  method SanitizeArray(p: Policy, items: seq<Json>, path: string, redactedPaths: seq<string>)
    returns (sanitized: seq<Json>, paths: seq<string>)
    requires !p.dropEmpty
    ensures sanitized == SanitizeItems(p, items)
    ensures paths == redactedPaths + Texts(path, ItemRedactions(p, items, 0))
    decreases items
  {
    sanitized, paths := [], redactedPaths;
    var i := 0;
    assert items[0..] == items;
    while i < |items|
      invariant 0 <= i <= |items|
      invariant ItemsDone(p, items, path, redactedPaths, i, sanitized, paths)
    {
      NextItemDone(p, items, path, redactedPaths, i, sanitized, paths);
      var item;
      item, paths := SanitizeForModel(p, items[i], path + StepText(Index(i)), paths);
      if item != JUndefined {
        sanitized := sanitized + [item];
      }
      i := i + 1;
    }
  }

  ghost predicate FieldsDone(p: Policy, fields: seq<Field>, path: string, before: seq<string>,
                             i: nat, output: seq<Field>, paths: seq<string>)
    requires i <= |fields|
  {
    && SanitizeFields(p, fields) == output + SanitizeFields(p, fields[i..])
    && before + Texts(path, FieldRedactions(p, fields)) == paths + Texts(path, FieldRedactions(p, fields[i..]))
  }

  lemma NextFieldDone(p: Policy, fields: seq<Field>, path: string, before: seq<string>,
                      i: nat, output: seq<Field>, paths: seq<string>)
    requires i < |fields| && FieldsDone(p, fields, path, before, i, output, paths)
    ensures FieldsDone(p, fields, path, before, i + 1, output + SanitizeField(p, fields[i]),
                       paths + Texts(path, OneFieldRedactions(p, fields[i])))
  {
    var here := Texts(path, OneFieldRedactions(p, fields[i]));
    var rest := Texts(path, FieldRedactions(p, fields[i + 1..]));
    NextFieldTexts(p, path, fields, i);
    assert paths + (here + rest) == (paths + here) + rest;
    NextFieldKept(p, fields, i, output);
  }

  method SanitizeRecord(p: Policy, fields: seq<Field>, path: string, redactedPaths: seq<string>)
    returns (output: seq<Field>, paths: seq<string>)
    requires !p.dropEmpty
    ensures output == SanitizeFields(p, fields)
    ensures paths == redactedPaths + Texts(path, FieldRedactions(p, fields))
    decreases fields
  {
    output, paths := [], redactedPaths;
    var i := 0;
    assert fields[0..] == fields;
    while i < |fields|
      invariant 0 <= i <= |fields|
      invariant FieldsDone(p, fields, path, redactedPaths, i, output, paths)
    {
      NextFieldDone(p, fields, path, redactedPaths, i, output, paths);
      output, paths := SanitizeProperty(p, fields[i], path, output, paths);
      i := i + 1;
    }
  }

  /** One turn of the loop over the properties of a record. */
  method SanitizeProperty(p: Policy, f: Field, path: string, before: seq<Field>, redactedPaths: seq<string>)
    returns (output: seq<Field>, paths: seq<string>)
    requires !p.dropEmpty
    ensures output == before + SanitizeField(p, f)
    ensures paths == redactedPaths + Texts(path, OneFieldRedactions(p, f))
    decreases f
  {
    output := before;
    OneFieldTexts(p, path, f);
    var childPath := path + StepText(Key(f.key));
    if p.secretKey(f.key) {
      paths := redactedPaths + [childPath];
    } else {
      var sanitized;
      sanitized, paths := SanitizeForModel(p, f.value, childPath, redactedPaths);
      if sanitized != JUndefined {
        output := output + [Field(f.key, sanitized)];
      }
    }
  }

  // ------------------------------------------------------------ the references

  method ReadPathValue(root: Json, path: string) returns (current: Json)
    ensures current == ReadPath(root, Split(path, '.'))
  {
    var segments := Split(path, '.');
    current := root;
    var i := 0;
    while i < |segments|
      invariant 0 <= i <= |segments|
      invariant ReadPath(root, segments) == ReadPath(current, segments[i..])
    {
      if !current.JObj? {
        return JUndefined;
      }
      current := Lookup(current.fields, segments[i]);
      i := i + 1;
    }
  }

  datatype Target = Target(ref: string, content: Json, evidenceRefs: seq<string>, metadata: Json)

  function Strings(s: seq<string>): Json {
    JArr(seq(|s|, i requires 0 <= i < |s| => JStr(s[i])))
  }

  function TargetRecord(target: Option<Target>): Json {
    match target
    case None => JUndefined
    case Some(t) => JObj([Field("ref", JStr(t.ref)), Field("content", t.content),
                          Field("evidenceRefs", Strings(t.evidenceRefs)), Field("metadata", t.metadata)])
  }

  function TargetField(target: Option<Target>, get: Target -> Json): Json {
    if target.None? then JUndefined else get(target.value)
  }

  /** `valueForContextRef` */
  function ValueFor(ref: string, target: Option<Target>, evidence: Json): Json {
    if ref == "target" then TargetRecord(target)
    else if ref == "target.ref" then TargetField(target, (t: Target) => JStr(t.ref))
    else if ref == "target.content" then TargetField(target, (t: Target) => t.content)
    else if StartsWith(ref, "target.content.") then
      ReadPath(TargetField(target, (t: Target) => t.content), Split(ref[15..], '.'))
    else if ref == "target.evidenceRefs" then TargetField(target, (t: Target) => Strings(t.evidenceRefs))
    else if ref == "target.metadata" then TargetField(target, (t: Target) => t.metadata)
    else if StartsWith(ref, "target.metadata.") then
      ReadPath(TargetField(target, (t: Target) => t.metadata), Split(ref[16..], '.'))
    else if ref == "evidence" then evidence
    else if StartsWith(ref, "evidence.") then ReadPath(evidence, Split(ref[9..], '.'))
    else JUndefined
  }

  /** The one record that every reference reads from. */
  function Source(target: Option<Target>, evidence: Json): Json {
    JObj([Field("target", TargetRecord(target)), Field("evidence", evidence)])
  }

  /** A text starts with a segment, a dot and `more` exactly when its first segment is that one. */
  lemma FirstSegment(s: string, segment: string, more: string)
    requires '.' !in segment
    ensures StartsWith(s, segment + "." + more) <==>
      IndexOf(s, '.') == |segment| && s[..|segment|] == segment && StartsWith(s[|segment| + 1..], more)
  {
    var n := |segment|;
    var prefix := segment + "." + more;
    if StartsWith(s, prefix) {
      assert s[..n] == prefix[..n] == segment;
      assert s[n] == prefix[n];
      IndexOfIs(s, '.', n);
      assert s[n + 1..][..|more|] == s[..|prefix|][n + 1..] == more;
    }
    if IndexOf(s, '.') == n && s[..n] == segment && StartsWith(s[n + 1..], more) {
      IndexOfFinds(s, '.');
      assert s == segment + "." + s[n + 1..];
      assert s == prefix + s[n + 1..][|more|..];
    }
  }

  /** Reading below the target, by what follows the first dot. */
  function BelowTarget(rest: string, target: Option<Target>): Json {
    if rest == "ref" then TargetField(target, (t: Target) => JStr(t.ref))
    else if rest == "content" then TargetField(target, (t: Target) => t.content)
    else if StartsWith(rest, "content.") then
      ReadPath(TargetField(target, (t: Target) => t.content), Split(rest[8..], '.'))
    else if rest == "evidenceRefs" then TargetField(target, (t: Target) => Strings(t.evidenceRefs))
    else if rest == "metadata" then TargetField(target, (t: Target) => t.metadata)
    else if StartsWith(rest, "metadata.") then
      ReadPath(TargetField(target, (t: Target) => t.metadata), Split(rest[9..], '.'))
    else JUndefined
  }

  lemma SplitAtDot(s: string)
    ensures IndexOf(s, '.') == NOT_FOUND ==> Split(s, '.') == [s]
    ensures IndexOf(s, '.') != NOT_FOUND ==>
      Split(s, '.') == [s[..IndexOf(s, '.')]] + Split(s[IndexOf(s, '.') + 1..], '.')
  {
  }

  lemma ReadScalar(root: Json, path: string)
    requires !root.JObj?
    ensures ReadPath(root, Split(path, '.')) == JUndefined
  {
  }

  /** The property of the target record that a name stands for. */
  function TargetProperty(target: Option<Target>, name: string): Json {
    if name == "ref" then TargetField(target, (t: Target) => JStr(t.ref))
    else if name == "content" then TargetField(target, (t: Target) => t.content)
    else if name == "evidenceRefs" then TargetField(target, (t: Target) => Strings(t.evidenceRefs))
    else if name == "metadata" then TargetField(target, (t: Target) => t.metadata)
    else JUndefined
  }

  lemma TargetPropertyIsLookup(t: Target, name: string)
    ensures Lookup(TargetRecord(Some(t)).fields, name) == TargetProperty(Some(t), name)
  {
    var a, b, c, d := Field("ref", JStr(t.ref)), Field("content", t.content),
      Field("evidenceRefs", Strings(t.evidenceRefs)), Field("metadata", t.metadata);
    FindFirst(a, [b, c, d], name);
    FindFirst(b, [c, d], name);
    FindFirst(c, [d], name);
    FindFirst(d, [], name);
    assert [a] + [b, c, d] == TargetRecord(Some(t)).fields && [b] + [c, d] == [b, c, d] && [c] + [d] == [c, d] && [d] + [] == [d];
  }

  lemma ReadTarget(target: Option<Target>, first: string, rest: seq<string>)
    ensures ReadPath(TargetRecord(target), [first] + rest) == ReadPath(TargetProperty(target, first), rest)
  {
    ReadFirst(TargetRecord(target), first, rest);
    if target.Some? {
      TargetPropertyIsLookup(target.value, first);
    }
  }

  lemma DotOfPrefix(s: string, prefix: string)
    requires '.' in prefix
    ensures StartsWith(s, prefix) ==> '.' in s
  {
    var k :| 0 <= k < |prefix| && prefix[k] == '.';
    assert StartsWith(s, prefix) ==> s[k] == prefix[k];
  }

  lemma SameHead(head: string, rest: string, x: string)
    ensures head + rest == head + x <==> rest == x
    ensures StartsWith(head + rest, head + x) <==> StartsWith(rest, x)
  {
    assert (head + rest)[|head|..] == rest && (head + x)[|head|..] == x;
    if StartsWith(head + rest, head + x) {
      assert (head + rest)[..|head + x|][|head|..] == rest[..|x|];
    }
    if StartsWith(rest, x) {
      assert head + rest == head + x + rest[|x|..];
    }
  }

  lemma BelowTargetWithoutDot(rest: string, target: Option<Target>)
    requires '.' !in rest
    ensures BelowTarget(rest, target) == TargetProperty(target, rest)
  {
    assert "content."[7] == '.' && "metadata."[8] == '.';
    DotOfPrefix(rest, "content.");
    DotOfPrefix(rest, "metadata.");
  }

  lemma BelowTargetTests(rest: string)
    requires IndexOf(rest, '.') != NOT_FOUND
    ensures rest != "ref" && rest != "content" && rest != "evidenceRefs" && rest != "metadata"
    ensures StartsWith(rest, "content.") <==> rest[..IndexOf(rest, '.')] == "content"
    ensures StartsWith(rest, "metadata.") <==> rest[..IndexOf(rest, '.')] == "metadata"
  {
    assert '.' !in "ref" && '.' !in "content" && '.' !in "evidenceRefs" && '.' !in "metadata";
    IndexOfFinds(rest, '.');
    FirstSegment(rest, "content", "");
    FirstSegment(rest, "metadata", "");
    assert "content" + "." + "" == "content." && "metadata" + "." + "" == "metadata.";
  }

  lemma OnlyTwoHaveParts(target: Option<Target>, name: string)
    requires name != "content" && name != "metadata"
    ensures !TargetProperty(target, name).JObj?
  {
  }

  lemma BelowTargetWithDot(rest: string, target: Option<Target>)
    requires IndexOf(rest, '.') != NOT_FOUND
    ensures var i := IndexOf(rest, '.');
      BelowTarget(rest, target) == ReadPath(TargetProperty(target, rest[..i]), Split(rest[i + 1..], '.'))
  {
    BelowTargetTests(rest);
    var i := IndexOf(rest, '.');
    var name, more := rest[..i], rest[i + 1..];
    assert |name| == i;
    if name == "content" {
      assert rest[8..] == more;
    } else if name == "metadata" {
      assert rest[9..] == more;
    } else {
      OnlyTwoHaveParts(target, name);
      ReadScalar(TargetProperty(target, name), more);
      assert BelowTarget(rest, target) == JUndefined;
    }
  }

  lemma BelowTargetReads(rest: string, target: Option<Target>)
    ensures BelowTarget(rest, target) == ReadPath(TargetRecord(target), Split(rest, '.'))
  {
    SplitAtDot(rest);
    var i := IndexOf(rest, '.');
    IndexOfFinds(rest, '.');
    if i == NOT_FOUND {
      BelowTargetWithoutDot(rest, target);
      ReadTarget(target, rest, []);
      assert [rest] + [] == [rest];
    } else {
      BelowTargetWithDot(rest, target);
      ReadTarget(target, rest[..i], Split(rest[i + 1..], '.'));
    }
  }

  lemma ReadSource(target: Option<Target>, evidence: Json, first: string, rest: seq<string>)
    ensures ReadPath(Source(target, evidence), [first] + rest) ==
      if first == "target" then ReadPath(TargetRecord(target), rest)
      else if first == "evidence" then ReadPath(evidence, rest)
      else ReadPath(JUndefined, rest)
  {
    ReadFirst(Source(target, evidence), first, rest);
    var a, b := Field("target", TargetRecord(target)), Field("evidence", evidence);
    FindFirst(a, [b], first);
    FindFirst(b, [], first);
    assert [a] + [b] == [a, b] && [b] + [] == [b];
  }

  lemma SourceWithoutDot(ref: string, target: Option<Target>, evidence: Json)
    requires '.' !in ref
    ensures ValueFor(ref, target, evidence) ==
      if ref == "target" then TargetRecord(target) else if ref == "evidence" then evidence else JUndefined
  {
    assert '.' in "target.ref" && '.' in "target.content" && '.' in "target.evidenceRefs" && '.' in "target.metadata" by {
      assert "target.ref"[6] == '.' && "target.content"[6] == '.' && "target.evidenceRefs"[6] == '.' && "target.metadata"[6] == '.';
    }
    assert "target.content."[6] == '.' && "target.metadata."[6] == '.' && "evidence."[8] == '.';
    DotOfPrefix(ref, "target.content.");
    DotOfPrefix(ref, "target.metadata.");
    DotOfPrefix(ref, "evidence.");
  }

  lemma ReadWithoutDot(ref: string, target: Option<Target>, evidence: Json)
    requires IndexOf(ref, '.') == NOT_FOUND
    ensures ValueFor(ref, target, evidence) == ReadPath(Source(target, evidence), Split(ref, '.'))
  {
    IndexOfFinds(ref, '.');
    SplitAtDot(ref);
    SourceWithoutDot(ref, target, evidence);
    ReadSource(target, evidence, ref, []);
    assert [ref] + [] == [ref];
  }

  /** Reading from the record of target and evidence, by the first segment. */
  function SourceByFirst(first: string, more: string, target: Option<Target>, evidence: Json): Json {
    if first == "target" then BelowTarget(more, target)
    else if first == "evidence" then ReadPath(evidence, Split(more, '.'))
    else JUndefined
  }

  lemma SourceByFirstReads(first: string, more: string, target: Option<Target>, evidence: Json)
    ensures ReadPath(Source(target, evidence), [first] + Split(more, '.')) == SourceByFirst(first, more, target, evidence)
  {
    ReadSource(target, evidence, first, Split(more, '.'));
    if first == "target" {
      BelowTargetReads(more, target);
    } else if first != "evidence" {
      ReadScalar(JUndefined, more);
    }
  }

  lemma ReadAtDot(ref: string, target: Option<Target>, evidence: Json)
    requires IndexOf(ref, '.') != NOT_FOUND
    ensures var i := IndexOf(ref, '.');
      ReadPath(Source(target, evidence), Split(ref, '.')) == SourceByFirst(ref[..i], ref[i + 1..], target, evidence)
  {
    var i := IndexOf(ref, '.');
    SplitAtDot(ref);
    SourceByFirstReads(ref[..i], ref[i + 1..], target, evidence);
  }

  lemma ReadWithDot(ref: string, target: Option<Target>, evidence: Json)
    requires IndexOf(ref, '.') != NOT_FOUND
    ensures ValueFor(ref, target, evidence) == ReadPath(Source(target, evidence), Split(ref, '.'))
  {
    ReadAtDot(ref, target, evidence);
    SourceWithDot(ref, target, evidence);
  }

  /** The dispatch on reference texts is one path reading from one record. */
  lemma ValueForReads(ref: string, target: Option<Target>, evidence: Json)
    ensures ValueFor(ref, target, evidence) == ReadPath(Source(target, evidence), Split(ref, '.'))
  {
    if IndexOf(ref, '.') == NOT_FOUND {
      ReadWithoutDot(ref, target, evidence);
    } else {
      ReadWithDot(ref, target, evidence);
    }
  }

  lemma SourceWithDot(ref: string, target: Option<Target>, evidence: Json)
    requires IndexOf(ref, '.') != NOT_FOUND
    ensures var i := IndexOf(ref, '.');
      ValueFor(ref, target, evidence) == SourceByFirst(ref[..i], ref[i + 1..], target, evidence)
  {
    var i := IndexOf(ref, '.');
    if ref[..i] == "target" {
      UnderTarget(ref, target, evidence);
    } else {
      NotUnderTarget(ref, target, evidence);
      UnderEvidence(ref);
    }
  }

  lemma UnderEvidence(ref: string)
    requires IndexOf(ref, '.') != NOT_FOUND
    ensures var i := IndexOf(ref, '.');
      StartsWith(ref, "evidence.") <==> i == 8 && ref[..i] == "evidence"
  {
    assert '.' !in "evidence";
    FirstSegment(ref, "evidence", "");
    assert "evidence" + "." + "" == "evidence.";
  }

  lemma TargetWord(rest: string, word: string, ref: string)
    requires ref == "target." + word
    ensures "target." + rest == ref <==> rest == word
  {
    SameHead("target.", rest, word);
  }

  lemma UnderTargetEquals(rest: string)
    ensures "target." + rest == "target.ref" <==> rest == "ref"
    ensures "target." + rest == "target.content" <==> rest == "content"
    ensures "target." + rest == "target.evidenceRefs" <==> rest == "evidenceRefs"
    ensures "target." + rest == "target.metadata" <==> rest == "metadata"
  {
    TargetWord(rest, "ref", "target.ref");
    TargetWord(rest, "content", "target.content");
    TargetWord(rest, "evidenceRefs", "target.evidenceRefs");
    TargetWord(rest, "metadata", "target.metadata");
  }

  lemma UnderTargetStarts(rest: string)
    ensures StartsWith("target." + rest, "target.content.") <==> StartsWith(rest, "content.")
    ensures StartsWith("target." + rest, "target.metadata.") <==> StartsWith(rest, "metadata.")
  {
    assert "target." + "content." == "target.content.";
    assert "target." + "metadata." == "target.metadata.";
    SameHead("target.", rest, "content.");
    SameHead("target.", rest, "metadata.");
  }

  lemma UnderTarget(ref: string, target: Option<Target>, evidence: Json)
    requires IndexOf(ref, '.') == 6 && ref[..6] == "target"
    ensures ValueFor(ref, target, evidence) == BelowTarget(ref[7..], target)
  {
    var rest := ref[7..];
    IndexOfFinds(ref, '.');
    assert ref == "target." + rest;
    UnderTargetEquals(rest);
    UnderTargetStarts(rest);
    assert |ref| > 6 && ref != "target" && ref[0] == 't' && ref != "evidence";
    assert !StartsWith(ref, "evidence.") by {
      assert "evidence."[0] == 'e';
    }
    if StartsWith(rest, "content.") {
      assert ref[15..] == rest[8..];
    } else if StartsWith(rest, "metadata.") {
      assert ref[16..] == rest[9..];
    }
  }

  lemma NotUnderTargetSegment(ref: string)
    requires IndexOf(ref, '.') != NOT_FOUND && ref[..IndexOf(ref, '.')] != "target"
    ensures !StartsWith(ref, "target.") && ref != "target" && ref != "evidence"
  {
    IndexOfFinds(ref, '.');
    assert '.' !in "target" && '.' !in "evidence";
    FirstSegment(ref, "target", "");
    assert "target" + "." + "" == "target.";
  }

  lemma NotUnder(ref: string, more: string, whole: string)
    requires !StartsWith(ref, "target.") && whole == "target." + more
    ensures ref != whole && !StartsWith(ref, whole)
  {
    PrefixOfLonger(ref, "target.", more);
  }

  lemma NotUnderTargetTests(ref: string)
    requires IndexOf(ref, '.') != NOT_FOUND && ref[..IndexOf(ref, '.')] != "target"
    ensures ref != "target" && ref != "target.ref" && ref != "target.content" && ref != "target.evidenceRefs"
    ensures ref != "target.metadata" && ref != "evidence"
    ensures !StartsWith(ref, "target.content.") && !StartsWith(ref, "target.metadata.")
  {
    NotUnderTargetSegment(ref);
    NotUnder(ref, "ref", "target.ref");
    NotUnder(ref, "content", "target.content");
    NotUnder(ref, "content.", "target.content.");
    NotUnder(ref, "evidenceRefs", "target.evidenceRefs");
    NotUnder(ref, "metadata", "target.metadata");
    NotUnder(ref, "metadata.", "target.metadata.");
  }

  lemma PrefixOfLonger(s: string, prefix: string, more: string)
    ensures StartsWith(s, prefix + more) ==> StartsWith(s, prefix)
  {
    if StartsWith(s, prefix + more) {
      assert s[..|prefix|] == (prefix + more)[..|prefix|] == prefix;
    }
  }

  lemma NotUnderTarget(ref: string, target: Option<Target>, evidence: Json)
    requires IndexOf(ref, '.') != NOT_FOUND && ref[..IndexOf(ref, '.')] != "target"
    ensures ValueFor(ref, target, evidence) ==
      if StartsWith(ref, "evidence.") then ReadPath(evidence, Split(ref[9..], '.')) else JUndefined
  {
    NotUnderTargetTests(ref);
  }

  // --------------------------------------------------------------- projection

  /** The properties of the projected context after a list of references. */
  function Projected(p: Policy, refs: seq<string>, target: Option<Target>, evidence: Json): seq<Field> {
    if refs == [] then []
    else
      var before, ref := Projected(p, refs[..|refs| - 1], target, evidence), refs[|refs| - 1];
      var sanitized := Sanitize(p, ValueFor(ref, target, evidence));
      if sanitized.JUndefined? then before else Put(before, Split(ref, '.'), sanitized)
  }

  function ProjectedPaths(p: Policy, refs: seq<string>, target: Option<Target>, evidence: Json): seq<string> {
    if refs == [] then []
    else
      var ref := refs[|refs| - 1];
      ProjectedPaths(p, refs[..|refs| - 1], target, evidence) + Texts(ref, Redactions(p, ValueFor(ref, target, evidence)))
  }

  method ProjectGraderContext(p: Policy, refs: seq<string>, target: Option<Target>, evidence: Json)
    returns (context: seq<Field>, redactedPaths: seq<string>)
    requires !p.dropEmpty
    ensures context == Projected(p, refs, target, evidence)
    ensures redactedPaths == ProjectedPaths(p, refs, target, evidence)
  {
    context, redactedPaths := [], [];
    var i := 0;
    while i < |refs|
      invariant 0 <= i <= |refs|
      invariant context == Projected(p, refs[..i], target, evidence)
      invariant redactedPaths == ProjectedPaths(p, refs[..i], target, evidence)
    {
      assert refs[..i + 1][..i] == refs[..i];
      var sanitized;
      sanitized, redactedPaths := SanitizeForModel(p, ValueFor(refs[i], target, evidence), refs[i], redactedPaths);
      if sanitized != JUndefined {
        context := Put(context, Split(refs[i], '.'), sanitized);
      }
      i := i + 1;
    }
    assert refs[..|refs|] == refs;
  }

  predicate PairwiseIncomparable(refs: seq<string>) {
    forall i, j :: 0 <= i < |refs| && 0 <= j < |refs| && i != j ==> Incomparable(Split(refs[i], '.'), Split(refs[j], '.'))
  }

  /** The path is neither at, nor above, nor under any of the references. */
  predicate Apart(refs: seq<string>, path: seq<string>) {
    path != [] && forall i :: 0 <= i < |refs| ==> Incomparable(Split(refs[i], '.'), path)
  }

  lemma {:induction false} NothingElsewhere(p: Policy, refs: seq<string>, target: Option<Target>, evidence: Json, path: seq<string>)
    requires Apart(refs, path)
    ensures ReadPath(JObj(Projected(p, refs, target, evidence)), path) == JUndefined
  {
    if refs == [] {
      NothingInEmpty(path);
    } else {
      var n := |refs| - 1;
      NothingElsewhere(p, refs[..n], target, evidence, path);
      var sanitized := Sanitize(p, ValueFor(refs[n], target, evidence));
      PutFrame(Projected(p, refs[..n], target, evidence), Split(refs[n], '.'), sanitized, path);
    }
  }

  /** The last reference fills its own place, which was empty. */
  lemma ProjectLast(p: Policy, refs: seq<string>, target: Option<Target>, evidence: Json)
    requires refs != [] && PairwiseIncomparable(refs)
    ensures var ref := refs[|refs| - 1];
      ReadPath(JObj(Projected(p, refs, target, evidence)), Split(ref, '.')) == Sanitize(p, ValueFor(ref, target, evidence))
  {
    var n := |refs| - 1;
    var here, sanitized := Split(refs[n], '.'), Sanitize(p, ValueFor(refs[n], target, evidence));
    PutGet(Projected(p, refs[..n], target, evidence), here, sanitized);
    NothingElsewhere(p, refs[..n], target, evidence, here);
  }

  /** The last reference leaves the places of the others as they are. */
  lemma ProjectEarlier(p: Policy, refs: seq<string>, target: Option<Target>, evidence: Json, path: seq<string>)
    requires refs != [] && Incomparable(Split(refs[|refs| - 1], '.'), path)
    ensures ReadPath(JObj(Projected(p, refs, target, evidence)), path) ==
      ReadPath(JObj(Projected(p, refs[..|refs| - 1], target, evidence)), path)
  {
    var n := |refs| - 1;
    var sanitized := Sanitize(p, ValueFor(refs[n], target, evidence));
    PutFrame(Projected(p, refs[..n], target, evidence), Split(refs[n], '.'), sanitized, path);
  }

  lemma EarlierAreIncomparable(refs: seq<string>)
    requires refs != [] && PairwiseIncomparable(refs)
    ensures PairwiseIncomparable(refs[..|refs| - 1])
  {
  }

  lemma TwoAreIncomparable(refs: seq<string>, i: nat, j: nat)
    requires PairwiseIncomparable(refs) && i < j < |refs|
    ensures Incomparable(Split(refs[j], '.'), Split(refs[i], '.'))
  {
  }

  lemma {:induction false} EachIsProjected(p: Policy, refs: seq<string>, target: Option<Target>, evidence: Json, i: nat)
    requires PairwiseIncomparable(refs) && i < |refs|
    ensures ReadPath(JObj(Projected(p, refs, target, evidence)), Split(refs[i], '.')) ==
      Sanitize(p, ValueFor(refs[i], target, evidence))
    decreases |refs|
  {
    var n := |refs| - 1;
    if i == n {
      ProjectLast(p, refs, target, evidence);
    } else {
      TwoAreIncomparable(refs, i, n);
      ProjectEarlier(p, refs, target, evidence, Split(refs[i], '.'));
      EarlierAreIncomparable(refs);
      assert refs[..n][i] == refs[i];
      EachIsProjected(p, refs[..n], target, evidence, i);
    }
  }

  /**
   Projecting references none of which is at or under another leaves at each exactly the
   sanitized source value, or nothing if that is undefined, and nothing anywhere else.
   */
  lemma ProjectionIsFaithful(p: Policy, refs: seq<string>, target: Option<Target>, evidence: Json)
    requires PairwiseIncomparable(refs)
    ensures forall i :: 0 <= i < |refs| ==>
      ReadPath(JObj(Projected(p, refs, target, evidence)), Split(refs[i], '.')) ==
        Sanitize(p, ReadPath(Source(target, evidence), Split(refs[i], '.')))
    ensures forall path: seq<string> :: Apart(refs, path) ==>
      ReadPath(JObj(Projected(p, refs, target, evidence)), path) == JUndefined
  {
    forall i | 0 <= i < |refs|
      ensures ReadPath(JObj(Projected(p, refs, target, evidence)), Split(refs[i], '.')) ==
        Sanitize(p, ReadPath(Source(target, evidence), Split(refs[i], '.')))
    {
      EachIsProjected(p, refs, target, evidence, i);
      ValueForReads(refs[i], target, evidence);
    }
    forall path: seq<string> | Apart(refs, path)
      ensures ReadPath(JObj(Projected(p, refs, target, evidence)), path) == JUndefined
    {
      NothingElsewhere(p, refs, target, evidence, path);
    }
  }

  // -------------------------------------------------------- what it may not hold

  /** The reference puts something into the context. */
  predicate Contributes(p: Policy, ref: string, target: Option<Target>, evidence: Json) {
    !Sanitize(p, ValueFor(ref, target, evidence)).JUndefined?
  }

  function Contributor(p: Policy, target: Option<Target>, evidence: Json): string -> bool {
    (ref: string) => Contributes(p, ref, target, evidence)
  }

  function PutOf(p: Policy, target: Option<Target>, evidence: Json): string -> Placed {
    (ref: string) => Placed(Split(ref, '.'), KeySteps(Split(ref, '.')), Sanitize(p, ValueFor(ref, target, evidence)))
  }

  /** The puts of the references that contribute something, each at the path at which it reads. */
  function Puts(p: Policy, refs: seq<string>, target: Option<Target>, evidence: Json): seq<Placed> {
    PutsOf(refs, Contributor(p, target, evidence), PutOf(p, target, evidence))
  }

  lemma PutOfTakes(p: Policy, ref: string, target: Option<Target>, evidence: Json)
    ensures var put := PutOf(p, target, evidence)(ref);
      put.value == Sanitize(p, ValueAt(Source(target, evidence), put.from))
  {
    ValueForReads(ref, target, evidence);
    ReadsAtKeys(Source(target, evidence), Split(ref, '.'));
  }

  lemma PutsAreInPlace(p: Policy, refs: seq<string>, target: Option<Target>, evidence: Json)
    ensures Placeable(Puts(p, refs, target, evidence)) && InPlace(Puts(p, refs, target, evidence))
  {
    var good := (put: Placed) => put.path != [] && put.from == KeySteps(put.path);
    PutsAreChosen(refs, Contributor(p, target, evidence), PutOf(p, target, evidence), good);
    assert forall i :: 0 <= i < |Puts(p, refs, target, evidence)| ==> good(Puts(p, refs, target, evidence)[i]);
  }

  lemma {:induction false} PutsMakeTheContext(p: Policy, refs: seq<string>, target: Option<Target>, evidence: Json)
    requires Placeable(Puts(p, refs, target, evidence))
    ensures Assembled(Puts(p, refs, target, evidence)) == Projected(p, refs, target, evidence)
  {
    if refs != [] {
      var n := |refs| - 1;
      PutsAreInPlace(p, refs[..n], target, evidence);
      PutsMakeTheContext(p, refs[..n], target, evidence);
      AssembledWithLast(Puts(p, refs[..n], target, evidence), PutOf(p, target, evidence)(refs[n]));
    }
  }

  lemma PutsAre(p: Policy, refs: seq<string>, target: Option<Target>, evidence: Json)
    ensures var puts := Puts(p, refs, target, evidence);
      && TakenFrom(p, Source(target, evidence), puts) && InPlace(puts)
      && Context(puts) == JObj(Projected(p, refs, target, evidence))
  {
    PutsAreInPlace(p, refs, target, evidence);
    PutsMakeTheContext(p, refs, target, evidence);
    forall ref
      ensures var put := PutOf(p, target, evidence)(ref); put.value == Sanitize(p, ValueAt(Source(target, evidence), put.from))
    {
      PutOfTakes(p, ref, target, evidence);
    }
    PutsAreTaken(p, Source(target, evidence), refs, Contributor(p, target, evidence), PutOf(p, target, evidence));
  }

  lemma IncomparableRefsAreApart(p: Policy, refs: seq<string>, target: Option<Target>, evidence: Json)
    requires PairwiseIncomparable(refs)
    ensures Disjoint(Puts(p, refs, target, evidence))
  {
    PutsAreDisjoint(refs, Contributor(p, target, evidence), PutOf(p, target, evidence));
  }

  /** Everything that the references put into the context is such a put. */
  predicate AllContributions(p: Policy, refs: seq<string>, target: Option<Target>, evidence: Json, good: Placed -> bool) {
    AllChosen(refs, Contributor(p, target, evidence), PutOf(p, target, evidence), good)
  }

  /** Every reference that puts something into the context has plain segments only. */
  predicate PlainContributions(p: Policy, refs: seq<string>, target: Option<Target>, evidence: Json) {
    AllContributions(p, refs, target, evidence, PlainPath(p))
  }

  /**
   Sanitizing looks below a reference, never at the reference itself: the context is free of
   secret keys when no reference that contributes something has a secret segment, and only
   then if none of the references is at or under another.
   */
  lemma SecretKeysComeFromRefs(p: Policy, refs: seq<string>, target: Option<Target>, evidence: Json)
    ensures PlainContributions(p, refs, target, evidence) ==> NoSecretKeys(p, JObj(Projected(p, refs, target, evidence)))
    ensures PairwiseIncomparable(refs) ==>
      (NoSecretKeys(p, JObj(Projected(p, refs, target, evidence))) <==> PlainContributions(p, refs, target, evidence))
  {
    PutsAre(p, refs, target, evidence);
    PutsAreChosen(refs, Contributor(p, target, evidence), PutOf(p, target, evidence), PlainPath(p));
    PlainPathsGiveNoSecrets(p, Source(target, evidence), Puts(p, refs, target, evidence));
    if PairwiseIncomparable(refs) {
      IncomparableRefsAreApart(p, refs, target, evidence);
    }
  }

  /**
   For any references, overlapping ones too, the context is free of secret keys exactly when
   no path that ends in one is left by the put of a reference that runs through it: what was
   sanitized never brings in another.
   */
  lemma SecretKeysExactly(p: Policy, refs: seq<string>, target: Option<Target>, evidence: Json)
    ensures NoSecretKeys(p, JObj(Projected(p, refs, target, evidence))) <==>
      forall path: seq<string> :: EndsInSecret(p, path) ==> !LeavesPath(Paths(Puts(p, refs, target, evidence)), path)
  {
    PutsAre(p, refs, target, evidence);
    ContextContent.SecretKeysExactly(p, Source(target, evidence), Puts(p, refs, target, evidence));
  }

  /**
   For any references, the context holds a restricted record exactly when a reference names a
   property that marks its record, puts a marking scalar there, and no later one touches it.
   */
  lemma RestrictedExactly(p: Policy, refs: seq<string>, target: Option<Target>, evidence: Json)
    ensures var puts := Puts(p, refs, target, evidence);
      Placeable(puts) &&
      (NoRestricted(p, JObj(Projected(p, refs, target, evidence))) <==> forall i :: 0 <= i < |puts| ==> !PutsMark(p, puts, i))
  {
    PutsAre(p, refs, target, evidence);
    ContextContent.RestrictedExactly(p, Source(target, evidence), Puts(p, refs, target, evidence));
  }

  /** No reference that contributes something runs through a secret key or a restricted record of the source. */
  predicate OpenContributions(p: Policy, refs: seq<string>, target: Option<Target>, evidence: Json) {
    AllContributions(p, refs, target, evidence, OpenPath(p, Source(target, evidence)))
  }

  /**
   Nothing that is hidden in the target and the evidence is read in the context when no
   reference that contributes something runs through a secret key or a restricted record
   there, and only then if none of the references is at or under another.
   */
  lemma HiddenComesFromRefs(p: Policy, refs: seq<string>, target: Option<Target>, evidence: Json)
    requires Proper(Source(target, evidence))
    ensures OpenContributions(p, refs, target, evidence) ==>
      ReadsNothingHidden(p, Source(target, evidence), JObj(Projected(p, refs, target, evidence)))
    ensures PairwiseIncomparable(refs) ==>
      (OpenContributions(p, refs, target, evidence) <==>
       ReadsNothingHidden(p, Source(target, evidence), JObj(Projected(p, refs, target, evidence))))
  {
    PutsAre(p, refs, target, evidence);
    PutsAreChosen(refs, Contributor(p, target, evidence), PutOf(p, target, evidence), OpenPath(p, Source(target, evidence)));
    OpenPathsShowNothing(p, Source(target, evidence), Puts(p, refs, target, evidence));
    if PairwiseIncomparable(refs) {
      IncomparableRefsAreApart(p, refs, target, evidence);
    }
  }

  /**
   For any references, overlapping ones too, nothing that is hidden in the target and the
   evidence is read in the context exactly when no hidden path is left by the put of a
   reference that runs through it.
   */
  lemma HiddenExactly(p: Policy, refs: seq<string>, target: Option<Target>, evidence: Json)
    requires Proper(Source(target, evidence))
    ensures ReadsNothingHidden(p, Source(target, evidence), JObj(Projected(p, refs, target, evidence))) <==>
      forall path: seq<string> :: HiddenPath(p, Source(target, evidence), path) ==>
        !LeavesPath(Paths(Puts(p, refs, target, evidence)), path)
  {
    PutsAre(p, refs, target, evidence);
    HiddenPathsExactly(p, Source(target, evidence), Puts(p, refs, target, evidence));
  }

  // ------------------------------------------------------------ failing inputs

  lemma EvidenceRefReads(p: Policy, name: string, value: string)
    requires '.' !in name
    ensures var evidence := JObj([Field(name, JStr(value))]);
      ReadPath(JObj(Projected(p, ["evidence." + name], None, evidence)), ["evidence", name]) == JStr(value)
  {
    var refs, evidence := ["evidence." + name], JObj([Field(name, JStr(value))]);
    EvidenceRefSplits(name);
    assert PairwiseIncomparable(refs);
    EachIsProjected(p, refs, None, evidence, 0);
    ValueForReads(refs[0], None, evidence);
    SourceReads(name, value);
  }

  /** A single reference to a secret property of the evidence is read, and its key is in the context. */
  lemma SecretRefIsProjected(p: Policy, name: string, value: string)
    requires p.secretKey(name) && '.' !in name
    ensures var refs, evidence := ["evidence." + name], JObj([Field(name, JStr(value))]);
      var context := JObj(Projected(p, refs, None, evidence));
      ReadPath(context, ["evidence", name]) == JStr(value) && !NoSecretKeys(p, context)
  {
    EvidenceRefReads(p, name, value);
    var context := JObj(Projected(p, ["evidence." + name], None, JObj([Field(name, JStr(value))])));
    if NoSecretKeys(p, context) {
      NoFieldReads(SecretField(p), context, ["evidence", name]);
    }
  }

  lemma EvidenceRefSplits(name: string)
    requires '.' !in name
    ensures Split("evidence." + name, '.') == ["evidence", name]
  {
    SplitOfSegment("evidence", name, '.');
    SplitWithout(name, '.');
    assert "evidence" + "." + name == "evidence." + name;
  }

  lemma SourceReads(name: string, value: string)
    ensures ReadPath(Source(None, JObj([Field(name, JStr(value))])), ["evidence", name]) == JStr(value)
  {
    var evidence := JObj([Field(name, JStr(value))]);
    ReadSource(None, evidence, "evidence", [name]);
    ReadFirst(evidence, name, []);
    assert ["evidence"] + [name] == ["evidence", name] && [name] + [] == [name];
    assert "evidence" != "target";
  }

  /** Evidence with one record. */
  function RecordEvidence(fields: seq<Field>): Json {
    JObj([Field("rec", JObj(fields))])
  }

  /** `evidence.rec.<name>` */
  function RecordRef(name: string): string {
    "evidence" + "." + ("rec" + "." + name)
  }

  lemma RecordSplits(name: string)
    requires '.' !in name
    ensures Split(RecordRef(name), '.') == ["evidence", "rec", name]
  {
    SplitOfSegment("evidence", "rec" + "." + name, '.');
    SplitOfSegment("rec", name, '.');
    SplitWithout(name, '.');
  }

  lemma RecordReads(fields: seq<Field>, name: string)
    ensures ReadPath(Source(None, RecordEvidence(fields)), ["evidence", "rec", name]) == Lookup(fields, name)
  {
    ReadSource(None, RecordEvidence(fields), "evidence", ["rec", name]);
    ReadFirst(RecordEvidence(fields), "rec", [name]);
    FindFirst(Field("rec", JObj(fields)), [], "rec");
    ReadFirst(JObj(fields), name, []);
    assert ["evidence"] + ["rec", name] == ["evidence", "rec", name] && ["rec"] + [name] == ["rec", name] && [name] + [] == [name];
    assert [Field("rec", JObj(fields))] + [] == [Field("rec", JObj(fields))] && "evidence" != "target";
  }

  /** A single reference below a record of the evidence reads it, whatever marks the record. */
  lemma RecordRefIsProjected(p: Policy, fields: seq<Field>, name: string)
    requires '.' !in name
    ensures ReadPath(JObj(Projected(p, [RecordRef(name)], None, RecordEvidence(fields))), ["evidence", "rec", name]) ==
      Sanitize(p, Lookup(fields, name))
  {
    var refs := [RecordRef(name)];
    RecordSplits(name);
    assert PairwiseIncomparable(refs);
    EachIsProjected(p, refs, None, RecordEvidence(fields), 0);
    ValueForReads(refs[0], None, RecordEvidence(fields));
    RecordReads(fields, name);
  }

  lemma RestrictedRecordVanishes(p: Policy, fields: seq<Field>, i: nat)
    requires i < |fields| && p.marks(fields[i]) && !fields[i].value.JArr? && !fields[i].value.JObj?
    ensures Sanitize(p, RecordEvidence(fields)) == JObj([])
  {
    assert Sanitize(p, JObj(fields)) == JUndefined;
    assert SanitizeFields(p, [Field("rec", JObj(fields))]) == SanitizeField(p, Field("rec", JObj(fields))) + [];
  }

  /**
   No name is secret and the only record of the evidence is marked as redacted, so nothing is
   left of it when it is sanitized; a reference to one of its properties puts that property
   into the context all the same.
   */
  lemma RedactedContentIsProjected(secretKey: string -> bool, secretClass: string -> bool, value: string)
    requires forall name :: !secretKey(name)
    ensures var p := EvalPolicy(secretKey, secretClass);
      var evidence := RecordEvidence([Field("redacted", JBool(true)), Field("value", JStr(value))]);
      && Sanitize(p, evidence) == JObj([])
      && ReadPath(JObj(Projected(p, [RecordRef("value")], None, evidence)), ["evidence", "rec", "value"]) == JStr(value)
  {
    var p := EvalPolicy(secretKey, secretClass);
    var mark, content := Field("redacted", JBool(true)), Field("value", JStr(value));
    RestrictedRecordVanishes(p, [mark, content], 0);
    FindFirst(mark, [content], "value");
    FindFirst(content, [], "value");
    assert [mark] + [content] == [mark, content] && [content] + [] == [content];
    RecordRefIsProjected(p, [mark, content], "value");
  }

  /** A reference to the mark itself makes a context that holds a restricted record. */
  lemma MarkIsProjected(secretKey: string -> bool, secretClass: string -> bool)
    ensures var p := EvalPolicy(secretKey, secretClass);
      var evidence := RecordEvidence([Field("redacted", JBool(true))]);
      !NoRestricted(p, JObj(Projected(p, [RecordRef("redacted")], None, evidence)))
  {
    var p := EvalPolicy(secretKey, secretClass);
    var mark := Field("redacted", JBool(true));
    FindFirst(mark, [], "redacted");
    assert [mark] + [] == [mark];
    RecordRefIsProjected(p, [mark], "redacted");
    var context := JObj(Projected(p, [RecordRef("redacted")], None, RecordEvidence([mark])));
    RestrictedHasMark(p, context);
    if NoField(MarkedField(p), context) {
      NoFieldReads(MarkedField(p), context, ["evidence", "rec", "redacted"]);
    }
  }
}
