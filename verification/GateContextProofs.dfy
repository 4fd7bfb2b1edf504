/**
 Where in the input of an evaluation each part of a projected gate context comes from, and
 exactly when the context holds a secret key, a restricted record or hidden content.
 */
module GateContextProofs {
  import opened Wrappers
  import opened JsText
  import opened Json
  import opened Sanitizing
  import opened ContextPuts
  import opened ContextContent
  import opened GateContext

  // ------------------------------------------------- positions along a path

  function ValuesOf(root: Json, spots: seq<Position>): seq<Json> {
    seq(|spots|, k requires 0 <= k < |spots| => ValueAt(root, spots[k]))
  }

  function ItemSpots(at: Position, count: nat): seq<Position> {
    seq(count, k requires 0 <= k < count => at + [Index(k)])
  }

  /** The positions of what one segment leads to from one position. */
  function ChildSpots(root: Json, at: Position, segment: string): seq<Position> {
    var value := ValueAt(root, at);
    if !value.JObj? then []
    else
      var child := Lookup(value.fields, SegmentKey(segment));
      var below := at + [Key(SegmentKey(segment))];
      if !Wildcard(segment) then [below] else if child.JArr? then ItemSpots(below, |child.items|) else []
  }

  function AllChildSpots(root: Json, spots: seq<Position>, segment: string): seq<Position> {
    if spots == [] then []
    else AllChildSpots(root, spots[..|spots| - 1], segment) + ChildSpots(root, spots[|spots| - 1], segment)
  }

  function SpotsAlong(root: Json, spots: seq<Position>, segments: seq<string>): seq<Position>
    decreases |segments|
  {
    if segments == [] then spots else SpotsAlong(root, AllChildSpots(root, spots, segments[0]), segments[1..])
  }

  lemma KeyBelow(root: Json, at: Position, key: string)
    requires ValueAt(root, at).JObj?
    ensures ValueAt(root, at + [Key(key)]) == Lookup(ValueAt(root, at).fields, key)
  {
    PresentIsDefined(root, at);
    ValueAtSum(root, at, [Key(key)]);
    var v := ValueAt(root, at);
    assert [Key(key)][1..] == [];
  }

  lemma ItemsBelow(root: Json, at: Position)
    requires ValueAt(root, at).JArr?
    ensures ValuesOf(root, ItemSpots(at, |ValueAt(root, at).items|)) == ValueAt(root, at).items
  {
    var items := ValueAt(root, at).items;
    forall k | 0 <= k < |items|
      ensures ValueAt(root, at + [Index(k)]) == items[k]
    {
      PresentIsDefined(root, at);
      ValueAtSum(root, at, [Index(k)]);
      assert [Index(k)][1..] == [];
    }
  }

  lemma ChildrenAreAtSpots(root: Json, at: Position, segment: string)
    ensures ValuesOf(root, ChildSpots(root, at, segment)) == Children(ValueAt(root, at), segment)
  {
    if ValueAt(root, at).JObj? {
      var below := at + [Key(SegmentKey(segment))];
      KeyBelow(root, at, SegmentKey(segment));
      if Wildcard(segment) && ValueAt(root, below).JArr? {
        ItemsBelow(root, below);
      }
    }
  }

  lemma ValuesOfSum(root: Json, a: seq<Position>, b: seq<Position>)
    ensures ValuesOf(root, a + b) == ValuesOf(root, a) + ValuesOf(root, b)
  {
  }

  lemma {:induction false} AllChildrenAreAtSpots(root: Json, spots: seq<Position>, segment: string)
    ensures ValuesOf(root, AllChildSpots(root, spots, segment)) == AllChildren(ValuesOf(root, spots), segment)
  {
    if spots != [] {
      var n := |spots| - 1;
      AllChildrenAreAtSpots(root, spots[..n], segment);
      ChildrenAreAtSpots(root, spots[n], segment);
      assert ValuesOf(root, spots)[..n] == ValuesOf(root, spots[..n]);
      ValuesOfSum(root, AllChildSpots(root, spots[..n], segment), ChildSpots(root, spots[n], segment));
    }
  }

  lemma {:induction false} ValuesAreAtSpots(root: Json, spots: seq<Position>, segments: seq<string>)
    ensures ValuesOf(root, SpotsAlong(root, spots, segments)) == ValuesAlong(ValuesOf(root, spots), segments)
    decreases |segments|
  {
    if segments != [] {
      AllChildrenAreAtSpots(root, spots, segments[0]);
      ValuesAreAtSpots(root, AllChildSpots(root, spots, segments[0]), segments[1..]);
    }
  }

  /** A position inside a record, that is one that starts with a key. */
  predicate Inside(at: Position) {
    at != [] && at[0].Key?
  }

  predicate AllInside(spots: seq<Position>) {
    forall k :: 0 <= k < |spots| ==> Inside(spots[k])
  }

  lemma {:induction false} ChildrenStayInside(root: Json, spots: seq<Position>, segment: string)
    requires AllInside(spots)
    ensures AllInside(AllChildSpots(root, spots, segment))
  {
    if spots != [] {
      ChildrenStayInside(root, spots[..|spots| - 1], segment);
      assert Inside(spots[|spots| - 1]);
    }
  }

  lemma {:induction false} StaysInside(root: Json, spots: seq<Position>, segments: seq<string>)
    requires AllInside(spots)
    ensures AllInside(SpotsAlong(root, spots, segments))
    decreases |segments|
  {
    if segments != [] {
      ChildrenStayInside(root, spots, segments[0]);
      StaysInside(root, AllChildSpots(root, spots, segments[0]), segments[1..]);
    }
  }

  lemma PathGoesInside(root: Json, segments: seq<string>)
    requires segments != []
    ensures AllInside(SpotsAlong(root, [[]], segments))
  {
    var first := AllChildSpots(root, [[]], segments[0]);
    assert first == AllChildSpots(root, [], segments[0]) + ChildSpots(root, [], segments[0]);
    assert AllInside(first);
    StaysInside(root, first, segments[1..]);
  }

  // ------------------------------------------------ positions in the input

  /** The position in the input of a property of the scope. */
  function ScopeAt(name: string): Position {
    if name in SCOPE_NAMES then [Key(PartOfScope(name))] else [Key("data"), Key(name)]
  }

  /** The position in the input of a position in the scope. */
  function Home(at: Position): Position
    requires Inside(at)
  {
    ScopeAt(at[0].name) + at[1..]
  }

  lemma ReadKeyFirst(v: Json, key: string, rest: Position)
    ensures ValueAt(v, [Key(key)] + rest) == ValueAt(Property(v, key), rest)
  {
    assert ([Key(key)] + rest)[1..] == rest;
    NothingBelowUndefined(rest);
  }

  lemma NothingBelowUndefined(at: Position)
    ensures ValueAt(JUndefined, at) == JUndefined
  {
  }

  lemma PartAt(i: GateInput, part: string, rest: Position)
    ensures ValueAt(InputRecord(i), [Key(part)] + rest) == ValueAt(Part(i, part), rest)
  {
    ReadKeyFirst(InputRecord(i), part, rest);
    PartIsRead(i, part);
  }

  lemma PropertyAt(i: GateInput, part: string, name: string)
    ensures ValueAt(InputRecord(i), [Key(part), Key(name)]) == Property(Part(i, part), name)
  {
    PartAt(i, part, [Key(name)]);
    ReadKeyFirst(Part(i, part), name, []);
    assert [Key(part)] + [Key(name)] == [Key(part), Key(name)] && [Key(name)] + [] == [Key(name)];
  }

  lemma AliasAt(i: GateInput, part: string)
    ensures ValueAt(InputRecord(i), [Key(part)]) == Part(i, part)
  {
    PartAt(i, part, []);
    assert [Key(part)] + [] == [Key(part)];
  }

  lemma ScopeProperty(i: GateInput, name: string)
    ensures Property(Scope(i), name) == if name in SCOPE_NAMES then Part(i, PartOfScope(name)) else Property(i.data, name)
  {
    LookupOverridden(if i.data.JObj? then i.data.fields else [], SCOPE_NAMES, (n: string) => Part(i, PartOfScope(n)), name);
  }

  lemma ScopeIsAt(i: GateInput, name: string)
    ensures Property(Scope(i), name) == ValueAt(InputRecord(i), ScopeAt(name))
  {
    ScopeProperty(i, name);
    if name in SCOPE_NAMES {
      AliasAt(i, PartOfScope(name));
    } else {
      PropertyAt(i, "data", name);
    }
  }

  lemma {:induction false} ReadBelow(v: Json, a: Position, b: Position)
    ensures ValueAt(v, a + b) == ValueAt(ValueAt(v, a), b)
  {
    if Present(v, a) {
      ValueAtSum(v, a, b);
    } else {
      NothingBelowUndefined(b);
      if !ValueAt(v, a).JUndefined? {
        PresentIsDefined(v, a);
      }
      AbsentBelow(v, a, b);
    }
  }

  lemma {:induction false} AbsentBelow(v: Json, a: Position, b: Position)
    requires !Present(v, a)
    ensures ValueAt(v, a + b) == JUndefined
    decreases |a|
  {
    assert (a + b)[1..] == a[1..] + b;
    if Child(v, a[0]).Some? {
      AbsentBelow(Child(v, a[0]).value, a[1..], b);
    }
  }

  lemma HomeReads(i: GateInput, at: Position)
    requires Inside(at)
    ensures ValueAt(Scope(i), at) == ValueAt(InputRecord(i), Home(at))
  {
    assert at == [Key(at[0].name)] + at[1..];
    ReadKeyFirst(Scope(i), at[0].name, at[1..]);
    ScopeIsAt(i, at[0].name);
    ReadBelow(InputRecord(i), ScopeAt(at[0].name), at[1..]);
  }

  /** Where in the input a path is read first, if anywhere. */
  function PathAt(i: GateInput, ref: string): Option<Position>
    requires IsPath(ref)
  {
    var spots := SpotsAlong(Scope(i), [[]], Split(ref[2..], '.'));
    PathGoesInside(Scope(i), Split(ref[2..], '.'));
    if spots == [] then None else Some(Home(spots[0]))
  }

  /** Where in the policy snapshot the verdict of a name is. */
  function VerdictAt(policy: Json, id: string): Option<Position> {
    match policy
    case JArr(verdicts) => (match FirstMatch(verdicts, id) case None => None case Some(k) => Some([Index(k)]))
    case JObj(fields) =>
      if !Lookup(fields, "status").JStr? then Some([Key(id)])
      else if VerdictMatches(policy, id) then Some([])
      else None
    case _ => None
  }

  function LookedUpAt(i: GateInput, name: string): Option<Position> {
    if !Nullish(Property(i.data, name)) then Some([Key("data"), Key(name)])
    else if !Nullish(Property(i.artifacts, name)) then Some([Key("artifacts"), Key(name)])
    else if !Nullish(Property(i.evals, name)) then Some([Key("evals"), Key(name)])
    else if !Nullish(Property(i.decisions, name)) then Some([Key("decisions"), Key(name)])
    else match VerdictAt(i.policy, name)
      case None => None
      case Some(at) => Some([Key("policy")] + at)
  }

  /** Where in the input a name is read, if anywhere. */
  function NameAt(i: GateInput, name: string): Option<Position> {
    if name == "run_input" then Some(if Nullish(i.runInput) then [Key("data"), Key(name)] else [Key("runInput")])
    else if name == "evidence_graph" then Some(if Nullish(i.evidence) then [Key("data"), Key(name)] else [Key("evidence")])
    else if name in ALIASES then Some([Key(name)])
    else LookedUpAt(i, name)
  }

  function RefAt(i: GateInput, ref: string): Option<Position> {
    if IsPath(ref) then PathAt(i, ref) else NameAt(i, ref)
  }

  /** What is at a position, or undefined if there is none. */
  function ReadAt(i: GateInput, at: Option<Position>): Json {
    match at
    case None => JUndefined
    case Some(position) => ValueAt(InputRecord(i), position)
  }

  lemma {:induction false} FirstMatchIs(verdicts: seq<Json>, id: string)
    ensures var k := FirstMatch(verdicts, id);
      if k.None? then forall j :: 0 <= j < |verdicts| ==> !VerdictMatches(verdicts[j], id)
      else k.value < |verdicts| && VerdictMatches(verdicts[k.value], id)
           && forall j :: 0 <= j < k.value ==> !VerdictMatches(verdicts[j], id)
  {
    if verdicts != [] {
      FirstMatchIs(verdicts[1..], id);
      assert forall j :: 1 <= j < |verdicts| ==> verdicts[j] == verdicts[1..][j - 1];
    }
  }

  lemma VerdictIsAt(policy: Json, id: string)
    ensures PolicyVerdict(policy, id) ==
      match VerdictAt(policy, id) case None => JUndefined case Some(at) => ValueAt(policy, at)
  {
    if policy.JArr? {
      FirstMatchIs(policy.items, id);
      if FirstMatch(policy.items, id).Some? {
        assert [Index(FirstMatch(policy.items, id).value)][1..] == [];
      }
    } else if policy.JObj? {
      ReadKeyFirst(policy, id, []);
      assert [Key(id)] + [] == [Key(id)];
    }
  }

  lemma LookedUpReads(i: GateInput, name: string)
    ensures LookedUp(i, name) == ReadAt(i, LookedUpAt(i, name))
  {
    PropertyAt(i, "data", name);
    PropertyAt(i, "artifacts", name);
    PropertyAt(i, "evals", name);
    PropertyAt(i, "decisions", name);
    VerdictIsAt(i.policy, name);
    if VerdictAt(i.policy, name).Some? {
      PartAt(i, "policy", VerdictAt(i.policy, name).value);
    }
  }

  lemma NameReads(i: GateInput, name: string)
    ensures NamedValue(i, name) == ReadAt(i, NameAt(i, name))
  {
    PropertyAt(i, "data", name);
    AliasAt(i, "runInput");
    AliasAt(i, "evidence");
    AliasAt(i, name);
    LookedUpReads(i, name);
  }

  lemma FirstOf(root: Json, spots: seq<Position>)
    ensures First(ValuesOf(root, spots)) == if spots == [] then JUndefined else ValueAt(root, spots[0])
  {
  }

  lemma PathValuesAre(root: Json, ref: string)
    requires IsPath(ref)
    ensures PathValues(root, ref) == ValuesOf(root, SpotsAlong(root, [[]], Split(ref[2..], '.')))
  {
    assert ref != "$" by {
      assert |ref| >= 2;
    }
    assert ValuesOf(root, [[]]) == [root];
    ValuesAreAtSpots(root, [[]], Split(ref[2..], '.'));
  }

  lemma PathReads(i: GateInput, ref: string)
    requires IsPath(ref)
    ensures First(PathValues(Scope(i), ref)) == ReadAt(i, PathAt(i, ref))
  {
    var spots := SpotsAlong(Scope(i), [[]], Split(ref[2..], '.'));
    PathValuesAre(Scope(i), ref);
    FirstOf(Scope(i), spots);
    PathGoesInside(Scope(i), Split(ref[2..], '.'));
    if spots != [] {
      HomeReads(i, spots[0]);
    }
  }

  /** Every reference, by path or by name, is one reading from one record. */
  lemma RefReads(i: GateInput, ref: string)
    ensures RefValue(i, ref) == ReadAt(i, RefAt(i, ref))
  {
    if IsPath(ref) {
      PathReads(i, ref);
    } else {
      NameReads(i, ref);
    }
  }

  // --------------------------------------------------------- what the context holds

  /** The reference puts something into the context. */
  predicate Contributes(p: Policy, ref: string, i: GateInput) {
    NonBlank(ref) && !Sanitize(p, RefValue(i, ref)).JUndefined?
  }

  function Contributor(p: Policy, i: GateInput): string -> bool {
    (ref: string) => Contributes(p, ref, i)
  }

  function PutOf(p: Policy, i: GateInput): string -> Placed {
    (ref: string) => Placed(RefPath(ref), RefAt(i, ref).GetOr([]), Sanitize(p, RefValue(i, ref)))
  }

  /** The puts of the references that contribute something, in order. */
  function Puts(p: Policy, refs: seq<string>, i: GateInput): seq<Placed> {
    PutsOf(refs, Contributor(p, i), PutOf(p, i))
  }

  lemma PutOfTakes(p: Policy, ref: string, i: GateInput)
    requires Contributes(p, ref, i)
    ensures var put := PutOf(p, i)(ref); put.value == Sanitize(p, ValueAt(InputRecord(i), put.from))
  {
    RefReads(i, ref);
  }

  lemma {:induction false} PutsMakeTheContext(p: Policy, refs: seq<string>, i: GateInput)
    ensures Placeable(Puts(p, refs, i)) && Assembled(Puts(p, refs, i)) == Projected(p, refs, i)
  {
    if refs != [] {
      var n := |refs| - 1;
      PutsMakeTheContext(p, refs[..n], i);
      AssembledWithLast(Puts(p, refs[..n], i), PutOf(p, i)(refs[n]));
    }
  }

  lemma PutsAre(p: Policy, refs: seq<string>, i: GateInput)
    ensures TakenFrom(p, InputRecord(i), Puts(p, refs, i)) && Context(Puts(p, refs, i)) == JObj(Projected(p, refs, i))
  {
    PutsMakeTheContext(p, refs, i);
    forall ref | Contributor(p, i)(ref)
      ensures var put := PutOf(p, i)(ref); put.value == Sanitize(p, ValueAt(InputRecord(i), put.from))
    {
      PutOfTakes(p, ref, i);
    }
    PutsAreTaken(p, InputRecord(i), refs, Contributor(p, i), PutOf(p, i));
  }

  /**
   The context is free of secret keys exactly when no path that ends in one is left by the put
   of a reference that runs through it.
   */
  lemma SecretKeysExactly(p: Policy, refs: seq<string>, i: GateInput)
    ensures NoSecretKeys(p, JObj(Projected(p, refs, i))) <==>
      forall path: seq<string> :: EndsInSecret(p, path) ==> !LeavesPath(Paths(Puts(p, refs, i)), path)
  {
    PutsAre(p, refs, i);
    ContextContent.SecretKeysExactly(p, InputRecord(i), Puts(p, refs, i));
  }

  /**
   The context holds a restricted record exactly when a reference names a property that marks
   its record, puts a marking scalar there, and no later one touches it.
   */
  lemma RestrictedExactly(p: Policy, refs: seq<string>, i: GateInput)
    ensures var puts := Puts(p, refs, i);
      Placeable(puts) &&
      (NoRestricted(p, JObj(Projected(p, refs, i))) <==> forall k :: 0 <= k < |puts| ==> !PutsMark(p, puts, k))
  {
    PutsAre(p, refs, i);
    ContextContent.RestrictedExactly(p, InputRecord(i), Puts(p, refs, i));
  }

  /**
   Nothing that is hidden in the input is shown exactly when no reference of which something is
   left reads at a hidden position, that is through a secret key or a restricted record.
   */
  lemma HiddenExactly(p: Policy, refs: seq<string>, i: GateInput)
    requires Proper(InputRecord(i))
    ensures ShowsNothingHidden(p, InputRecord(i), Puts(p, refs, i)) <==>
      forall k: nat :: Lasts(Puts(p, refs, i), k) ==> !Hidden(p, InputRecord(i), Puts(p, refs, i)[k].from)
  {
    PutsAre(p, refs, i);
    ContextContent.HiddenExactly(p, InputRecord(i), Puts(p, refs, i));
  }

  /** No reference puts anything at or under the place of another. */
  predicate PairwiseIncomparable(refs: seq<string>) {
    forall j, k :: 0 <= j < |refs| && 0 <= k < |refs| && j != k ==> Incomparable(RefPath(refs[j]), RefPath(refs[k]))
  }

  /** No reference that contributes something has a secret segment or name. */
  predicate PlainContributions(p: Policy, refs: seq<string>, i: GateInput) {
    forall k :: 0 <= k < |refs| && Contributes(p, refs[k], i) ==> Plain(p, RefPath(refs[k]))
  }

  /** No reference that contributes something reads through a secret key or a restricted record of the input. */
  predicate OpenContributions(p: Policy, refs: seq<string>, i: GateInput) {
    forall k :: 0 <= k < |refs| && Contributes(p, refs[k], i) ==>
      !Hidden(p, InputRecord(i), RefAt(i, refs[k]).GetOr([]))
  }

  lemma IncomparableRefsAreApart(p: Policy, refs: seq<string>, i: GateInput)
    requires PairwiseIncomparable(refs)
    ensures Disjoint(Puts(p, refs, i))
  {
    PutsAreDisjoint(refs, Contributor(p, i), PutOf(p, i));
  }

  /**
   The context is free of secret keys when no reference that contributes something has a
   secret segment or name, and only then if none puts anything at or under the place of another.
   */
  lemma SecretKeysComeFromRefs(p: Policy, refs: seq<string>, i: GateInput)
    ensures PlainContributions(p, refs, i) ==> NoSecretKeys(p, JObj(Projected(p, refs, i)))
    ensures PairwiseIncomparable(refs) ==>
      (NoSecretKeys(p, JObj(Projected(p, refs, i))) <==> PlainContributions(p, refs, i))
  {
    PutsAre(p, refs, i);
    PutsAreChosen(refs, Contributor(p, i), PutOf(p, i), PlainPath(p));
    PlainPathsGiveNoSecrets(p, InputRecord(i), Puts(p, refs, i));
    assert PlainContributions(p, refs, i) <==> AllChosen(refs, Contributor(p, i), PutOf(p, i), PlainPath(p));
    if PairwiseIncomparable(refs) {
      IncomparableRefsAreApart(p, refs, i);
    }
  }

  /**
   Nothing hidden is shown when no reference that contributes something reads through a secret
   key or a restricted record, and only then if none puts anything at or under the place of
   another.
   */
  lemma HiddenComesFromRefs(p: Policy, refs: seq<string>, i: GateInput)
    requires Proper(InputRecord(i))
    ensures OpenContributions(p, refs, i) ==> ShowsNothingHidden(p, InputRecord(i), Puts(p, refs, i))
    ensures PairwiseIncomparable(refs) ==>
      (ShowsNothingHidden(p, InputRecord(i), Puts(p, refs, i)) <==> OpenContributions(p, refs, i))
  {
    PutsAre(p, refs, i);
    PutsAreChosen(refs, Contributor(p, i), PutOf(p, i), OpenFrom(p, InputRecord(i)));
    OpenPutsShowNothing(p, InputRecord(i), Puts(p, refs, i));
    assert OpenContributions(p, refs, i) <==> AllChosen(refs, Contributor(p, i), PutOf(p, i), OpenFrom(p, InputRecord(i)));
    if PairwiseIncomparable(refs) {
      IncomparableRefsAreApart(p, refs, i);
    }
  }

  /**
   Whatever is read in the context, other than a record, is the sanitized value of what the
   input holds at the position of one reference or below it.
   */
  lemma ProjectionIsFaithful(p: Policy, refs: seq<string>, i: GateInput, path: seq<string>)
    requires Proper(InputRecord(i))
    ensures var puts, shown := Puts(p, refs, i), ReadPath(JObj(Projected(p, refs, i)), path);
      !shown.JUndefined? && !shown.JObj? ==> exists k: nat, rest: seq<string> ::
        Owns(puts, k, rest) && path == puts[k].path + rest
        && shown == Sanitize(p, ValueAt(InputRecord(i), puts[k].from + KeySteps(rest)))
  {
    PutsAre(p, refs, i);
    var shown := ReadPath(JObj(Projected(p, refs, i)), path);
    if !shown.JUndefined? && !shown.JObj? {
      var k, rest := ShownIsSanitized(p, InputRecord(i), Puts(p, refs, i), path);
    }
  }

  // ------------------------------------------------------------ failing inputs

  function DataInput(fields: seq<Field>): GateInput {
    NO_INPUT.(data := JObj(fields))
  }

  lemma OneRefProjected(p: Policy, ref: string, i: GateInput)
    requires NonBlank(ref) && !Sanitize(p, RefValue(i, ref)).JUndefined?
    ensures ReadPath(JObj(Projected(p, [ref], i)), RefPath(ref)) == Sanitize(p, RefValue(i, ref))
  {
    assert [ref][..0] == [];
    PutGet([], RefPath(ref), Sanitize(p, RefValue(i, ref)));
  }

  lemma PathIsNotBlank(rest: string)
    ensures NonBlank("$." + rest) && IsPath("$." + rest) && ("$." + rest)[2..] == rest
  {
    TrimBlank("$." + rest);
    assert ("$." + rest)[0] == '$' && !IsSpace('$');
  }

  predicate PlainName(name: string) {
    '.' !in name && !Wildcard(name) && name !in SCOPE_NAMES
  }

  lemma NothingAlong(segments: seq<string>)
    ensures ValuesAlong([], segments) == []
    decreases |segments|
  {
    if segments != [] {
      NothingAlong(segments[1..]);
    }
  }

  /** A path without wildcards is read as a path of plain properties. */
  lemma {:induction false} PlainPathReads(v: Json, segments: seq<string>)
    requires forall k :: 0 <= k < |segments| ==> !Wildcard(segments[k])
    ensures First(ValuesAlong([v], segments)) == ReadPath(v, segments)
    decreases |segments|
  {
    if segments != [] {
      assert [v][..0] == [] && AllChildren([], segments[0]) == [];
      assert AllChildren([v], segments[0]) == Children(v, segments[0]);
      if v.JObj? {
        PlainPathReads(Lookup(v.fields, segments[0]), segments[1..]);
      } else {
        NothingAlong(segments[1..]);
      }
    }
  }

  lemma PlainPathValues(root: Json, rest: string)
    requires forall k :: 0 <= k < |Split(rest, '.')| ==> !Wildcard(Split(rest, '.')[k])
    ensures First(PathValues(root, "$." + rest)) == ReadPath(root, Split(rest, '.'))
  {
    PathIsNotBlank(rest);
    PlainPathReads(root, Split(rest, '.'));
    assert "$." + rest != "$" by {
      assert |"$." + rest| >= 2;
    }
  }

  lemma PlainRefPath(rest: string)
    requires forall k :: 0 <= k < |Split(rest, '.')| ==> !Wildcard(Split(rest, '.')[k])
    ensures RefPath("$." + rest) == Split(rest, '.')
  {
    PathIsNotBlank(rest);
    assert SegmentKeys(Split(rest, '.')) == Split(rest, '.');
  }

  lemma PathRefValue(i: GateInput, rest: string)
    ensures RefValue(i, "$." + rest) == First(PathValues(Scope(i), "$." + rest))
  {
    PathIsNotBlank(rest);
  }

  lemma PlainRefReads(i: GateInput, rest: string, segments: seq<string>)
    requires segments == Split(rest, '.') && forall k :: 0 <= k < |segments| ==> !Wildcard(segments[k])
    ensures RefValue(i, "$." + rest) == ReadPath(Scope(i), segments) && RefPath("$." + rest) == segments
  {
    PathRefValue(i, rest);
    PlainPathValues(Scope(i), rest);
    PlainRefPath(rest);
  }

  lemma DataPropertyReads(fields: seq<Field>, name: string)
    requires PlainName(name)
    ensures RefValue(DataInput(fields), "$." + name) == Lookup(fields, name) && RefPath("$." + name) == [name]
  {
    SplitWithout(name, '.');
    PlainRefReads(DataInput(fields), name, [name]);
    ReadInScope(fields, name, []);
    assert [name] + [] == [name];
  }

  lemma ReadInScope(fields: seq<Field>, name: string, rest: seq<string>)
    requires name !in SCOPE_NAMES
    ensures ReadPath(Scope(DataInput(fields)), [name] + rest) == ReadPath(Lookup(fields, name), rest)
  {
    ReadFirst(Scope(DataInput(fields)), name, rest);
    ScopeProperty(DataInput(fields), name);
  }

  /** A single path to a secret property of the data is read, and its key is in the context. */
  lemma SecretRefIsProjected(p: Policy, name: string, value: string)
    requires p.secretKey(name) && PlainName(name)
    ensures var context := JObj(Projected(p, ["$." + name], DataInput([Field(name, JStr(value))])));
      ReadPath(context, [name]) == JStr(value) && !NoSecretKeys(p, context)
  {
    var i, ref := DataInput([Field(name, JStr(value))]), "$." + name;
    DataPropertyReads([Field(name, JStr(value))], name);
    PathIsNotBlank(name);
    OneRefProjected(p, ref, i);
    var context := JObj(Projected(p, [ref], i));
    if NoSecretKeys(p, context) {
      NoFieldReads(SecretField(p), context, [name]);
    }
  }

  /** Data with one record. */
  function RecordData(fields: seq<Field>): seq<Field> {
    [Field("rec", JObj(fields))]
  }

  /** `$.rec.<name>` */
  function RecordRef(name: string): string {
    "$." + ("rec" + "." + name)
  }

  lemma RecordSplits(name: string)
    requires '.' !in name
    ensures Split("rec" + "." + name, '.') == ["rec", name]
  {
    SplitOfSegment("rec", name, '.');
    SplitWithout(name, '.');
  }

  lemma PlainWords()
    ensures PlainName("rec") && PlainName("value") && PlainName("redaction")
  {
    assert "rec"[2] == 'c' && "value"[4] == 'e' && "redaction"[8] == 'n';
  }

  lemma RecordInScope(fields: seq<Field>, name: string)
    ensures ReadPath(Scope(DataInput(RecordData(fields))), ["rec", name]) == Lookup(fields, name)
  {
    PlainWords();
    ReadInScope(RecordData(fields), "rec", [name]);
    FindFirst(Field("rec", JObj(fields)), [], "rec");
    ReadFirst(JObj(fields), name, []);
    assert [name] + [] == [name] && ["rec"] + [name] == ["rec", name] && RecordData(fields) + [] == RecordData(fields);
  }

  lemma RecordReads(fields: seq<Field>, name: string)
    requires PlainName(name)
    ensures RefValue(DataInput(RecordData(fields)), RecordRef(name)) == Lookup(fields, name)
    ensures RefPath(RecordRef(name)) == ["rec", name]
  {
    PlainWords();
    RecordSplits(name);
    PlainRefReads(DataInput(RecordData(fields)), "rec" + "." + name, ["rec", name]);
    RecordInScope(fields, name);
  }

  lemma RecordRefIsProjected(p: Policy, fields: seq<Field>, name: string, value: string)
    requires PlainName(name) && Lookup(fields, name) == JStr(value)
    ensures ReadPath(JObj(Projected(p, [RecordRef(name)], DataInput(RecordData(fields)))), ["rec", name]) == JStr(value)
  {
    RecordReads(fields, name);
    PathIsNotBlank("rec" + "." + name);
    OneRefProjected(p, RecordRef(name), DataInput(RecordData(fields)));
  }

  lemma RestrictedRecordVanishes(p: Policy, fields: seq<Field>, k: nat)
    requires k < |fields| && p.marks(fields[k]) && !fields[k].value.JArr? && !fields[k].value.JObj?
    ensures Sanitize(p, JObj(RecordData(fields))) == JObj([])
  {
    assert Sanitize(p, JObj(fields)) == JUndefined;
    assert SanitizeFields(p, RecordData(fields)) == SanitizeField(p, Field("rec", JObj(fields))) + [];
  }

  /**
   No name is secret and the only record of the data is marked as secret, so nothing is left of
   it when it is sanitized; a path to one of its properties, or to the mark itself, puts that
   property into the context all the same, and the mark makes a restricted record there.
   */
  lemma RestrictedContentIsProjected(secretKey: string -> bool, value: string)
    requires forall name :: !secretKey(name)
    ensures var p, fields := GatePolicy(secretKey), [Field("redaction", JStr("secret")), Field("value", JStr(value))];
      var i := DataInput(RecordData(fields));
      && Sanitize(p, i.data) == JObj([])
      && ReadPath(JObj(Projected(p, [RecordRef("value")], i)), ["rec", "value"]) == JStr(value)
      && !NoRestricted(p, JObj(Projected(p, [RecordRef("redaction")], i)))
  {
    var p, mark, content := GatePolicy(secretKey), Field("redaction", JStr("secret")), Field("value", JStr(value));
    var fields := [mark, content];
    PlainWords();
    RestrictedRecordVanishes(p, fields, 0);
    LookupInTwo(mark, content, "value");
    LookupInTwo(mark, content, "redaction");
    RecordRefIsProjected(p, fields, "value", value);
    RecordRefIsProjected(p, fields, "redaction", "secret");
    MarkIsRestricted(secretKey, JObj(Projected(p, [RecordRef("redaction")], DataInput(RecordData(fields)))));
  }

  lemma MarkIsRestricted(secretKey: string -> bool, context: Json)
    requires ReadPath(context, ["rec", "redaction"]) == JStr("secret")
    ensures !NoRestricted(GatePolicy(secretKey), context)
  {
    var p := GatePolicy(secretKey);
    RestrictedHasMark(p, context);
    if NoField(MarkedField(p), context) {
      NoFieldReads(MarkedField(p), context, ["rec", "redaction"]);
    }
  }
}
