/**
 What a context holds that is put together from sanitized values, for any puts, overlapping
 ones too: which put each part of it comes from, and exactly when it holds a secret key, a
 restricted record or content that sanitizing the whole source would have removed.
 */
module ContextContent {
  import opened Wrappers
  import opened Json
  import opened Sanitizing
  import opened ContextPuts

  /** A value that was read at a position of the source and put at a path of the context. */
  datatype Placed = Placed(path: seq<string>, from: Position, value: Json)

  predicate Placeable(puts: seq<Placed>) {
    forall i :: 0 <= i < |puts| ==> puts[i].path != []
  }

  /** The properties of the context after these puts. */
  function Assembled(puts: seq<Placed>): seq<Field>
    requires Placeable(puts)
  {
    if puts == [] then []
    else
      var last := puts[|puts| - 1];
      Put(Assembled(puts[..|puts| - 1]), last.path, last.value)
  }

  function Context(puts: seq<Placed>): Json
    requires Placeable(puts)
  {
    JObj(Assembled(puts))
  }

  /** Each value is what sanitizing leaves of what the source holds at its position. */
  predicate TakenFrom(p: Policy, source: Json, puts: seq<Placed>) {
    && Placeable(puts)
    && forall i :: 0 <= i < |puts| ==>
      !puts[i].value.JUndefined? && puts[i].value == Sanitize(p, ValueAt(source, puts[i].from))
  }

  lemma TakenWithLast(p: Policy, source: Json, puts: seq<Placed>, last: Placed)
    requires TakenFrom(p, source, puts) && last.path != []
    requires !last.value.JUndefined? && last.value == Sanitize(p, ValueAt(source, last.from))
    ensures TakenFrom(p, source, puts + [last])
  {
  }

  function Paths(puts: seq<Placed>): seq<seq<string>> {
    seq(|puts|, i requires 0 <= i < |puts| => puts[i].path)
  }

  predicate Disjoint(puts: seq<Placed>) {
    forall i, j :: 0 <= i < |puts| && 0 <= j < |puts| && i != j ==> Incomparable(puts[i].path, puts[j].path)
  }

  // ------------------------------------------------------- puts of references

  /** The puts of the references that are chosen, in order. */
  function PutsOf(refs: seq<string>, chosen: string -> bool, put: string -> Placed): seq<Placed> {
    if refs == [] then []
    else
      var before, ref := PutsOf(refs[..|refs| - 1], chosen, put), refs[|refs| - 1];
      if chosen(ref) then before + [put(ref)] else before
  }

  predicate AllPuts(puts: seq<Placed>, good: Placed -> bool) {
    forall i :: 0 <= i < |puts| ==> good(puts[i])
  }

  predicate AllChosen(refs: seq<string>, chosen: string -> bool, put: string -> Placed, good: Placed -> bool) {
    forall i :: 0 <= i < |refs| && chosen(refs[i]) ==> good(put(refs[i]))
  }

  lemma {:induction false} PutsAreChosen(refs: seq<string>, chosen: string -> bool, put: string -> Placed, good: Placed -> bool)
    ensures AllPuts(PutsOf(refs, chosen, put), good) <==> AllChosen(refs, chosen, put, good)
  {
    if refs != [] {
      var n := |refs| - 1;
      var before, puts := PutsOf(refs[..n], chosen, put), PutsOf(refs, chosen, put);
      PutsAreChosen(refs[..n], chosen, put, good);
      assert forall k :: 0 <= k < n ==> refs[..n][k] == refs[k];
      assert forall k :: 0 <= k < |before| ==> puts[k] == before[k];
      assert AllPuts(puts, good) <==> AllPuts(before, good) && (chosen(refs[n]) ==> good(put(refs[n]))) by {
        assert chosen(refs[n]) ==> puts[|before|] == put(refs[n]);
      }
    }
  }

  /** Each chosen reference puts what sanitizing leaves of what the source holds at its position. */
  ghost predicate Takes(p: Policy, source: Json, chosen: string -> bool, put: string -> Placed) {
    forall ref :: chosen(ref) ==>
      && put(ref).path != [] && !put(ref).value.JUndefined?
      && put(ref).value == Sanitize(p, ValueAt(source, put(ref).from))
  }

  lemma {:induction false} PutsAreTaken(p: Policy, source: Json, refs: seq<string>, chosen: string -> bool, put: string -> Placed)
    requires Takes(p, source, chosen, put)
    ensures TakenFrom(p, source, PutsOf(refs, chosen, put))
  {
    if refs != [] {
      var n := |refs| - 1;
      PutsAreTaken(p, source, refs[..n], chosen, put);
      if chosen(refs[n]) {
        TakenWithLast(p, source, PutsOf(refs[..n], chosen, put), put(refs[n]));
      }
    }
  }

  lemma AssembledWithLast(puts: seq<Placed>, last: Placed)
    requires Placeable(puts) && last.path != []
    ensures Placeable(puts + [last]) && Assembled(puts + [last]) == Put(Assembled(puts), last.path, last.value)
  {
    assert (puts + [last])[..|puts|] == puts;
  }

  /** No reference puts anything at or under the path of another. */
  predicate RefsApart(refs: seq<string>, put: string -> Placed) {
    forall i, j :: 0 <= i < |refs| && 0 <= j < |refs| && i != j ==> Incomparable(put(refs[i]).path, put(refs[j]).path)
  }

  function ApartFrom(path: seq<string>): Placed -> bool {
    (other: Placed) => Incomparable(other.path, path)
  }

  lemma DisjointWithLast(puts: seq<Placed>, last: Placed)
    requires Disjoint(puts) && AllPuts(puts, ApartFrom(last.path))
    ensures Disjoint(puts + [last])
  {
    var all := puts + [last];
    assert all[|puts|] == last && forall i :: 0 <= i < |puts| ==> all[i] == puts[i];
    assert forall i :: 0 <= i < |puts| ==> ApartFrom(last.path)(puts[i]);
  }

  lemma {:induction false} PutsAreDisjoint(refs: seq<string>, chosen: string -> bool, put: string -> Placed)
    requires RefsApart(refs, put)
    ensures Disjoint(PutsOf(refs, chosen, put))
  {
    if refs != [] {
      var n := |refs| - 1;
      PutsAreDisjoint(refs[..n], chosen, put);
      assert AllChosen(refs[..n], chosen, put, ApartFrom(put(refs[n]).path));
      PutsAreChosen(refs[..n], chosen, put, ApartFrom(put(refs[n]).path));
      DisjointWithLast(PutsOf(refs[..n], chosen, put), put(refs[n]));
    }
  }

  // ------------------------------------------------- which put a part comes from

  /** No later put touches the path: none is at it, above it or below it. */
  predicate Untouched(puts: seq<Placed>, i: nat, path: seq<string>) {
    forall k :: i < k < |puts| ==> Incomparable(puts[k].path, path)
  }

  /** What the `i`-th value holds at `rest` is left as it is by the later puts. */
  predicate Owns(puts: seq<Placed>, i: nat, rest: seq<string>) {
    i < |puts| && !ReadPath(puts[i].value, rest).JUndefined? && Untouched(puts, i, puts[i].path + rest)
  }

  /** Something of the `i`-th value is left. */
  ghost predicate Lasts(puts: seq<Placed>, i: nat) {
    exists rest :: Owns(puts, i, rest)
  }

  lemma {:induction false} OwnsReads(puts: seq<Placed>, i: nat, rest: seq<string>)
    requires Placeable(puts) && Owns(puts, i, rest)
    ensures ReadPath(Context(puts), puts[i].path + rest) == ReadPath(puts[i].value, rest)
    decreases |puts|
  {
    var n := |puts| - 1;
    var last, before := puts[n], puts[..n];
    if i == n {
      PutUnder(Assembled(before), last.path, last.value, rest);
    } else {
      assert before[i] == puts[i];
      OwnsReads(before, i, rest);
      PutFrame(Assembled(before), last.path, last.value, puts[i].path + rest);
    }
  }

  /** Whatever is read in the context, other than a record, was left there by one put. */
  lemma {:induction false} Owner(puts: seq<Placed>, path: seq<string>) returns (i: nat, rest: seq<string>)
    requires Placeable(puts)
    requires !ReadPath(Context(puts), path).JUndefined? && !ReadPath(Context(puts), path).JObj?
    ensures Owns(puts, i, rest) && path == puts[i].path + rest
    ensures ReadPath(Context(puts), path) == ReadPath(puts[i].value, rest)
    decreases |puts|
  {
    if puts == [] {
      NothingInEmpty(path);
    }
    var n := |puts| - 1;
    var last, before := puts[n], puts[..n];
    if last.path <= path {
      i, rest := n, path[|last.path|..];
      assert path == last.path + rest;
      PutUnder(Assembled(before), last.path, last.value, rest);
    } else {
      if path < last.path {
        PutOnTheWay(Assembled(before), last.path, last.value, path);
      }
      PutFrame(Assembled(before), last.path, last.value, path);
      i, rest := Owner(before, path);
      assert before[i] == puts[i];
    }
  }

  // --------------------------------------------------------- fields of some kind

  /** The property at the end of this path is one of which this holds. */
  predicate HoldsAt(holds: Field -> bool, v: Json, path: seq<string>) {
    path != [] && !ReadPath(v, path).JUndefined? && holds(Field(path[|path| - 1], ReadPath(v, path)))
  }

  lemma {:induction false} NoFieldReads(holds: Field -> bool, v: Json, path: seq<string>)
    requires NoField(holds, v)
    ensures !HoldsAt(holds, v, path)
    decreases |path|
  {
    if path != [] && v.JObj? {
      if Find(v.fields, path[0]).Some? {
        var k := FoundAt(v.fields, path[0]);
        assert path == [path[0]] + path[1..];
        NoFieldReads(holds, v.fields[k].value, path[1..]);
        assert path[1..] != [] ==> path[1..][|path[1..]| - 1] == path[|path| - 1];
        assert path[1..] == [] ==> ReadPath(v, path) == v.fields[k].value && Field(path[0], v.fields[k].value) == v.fields[k];
      } else {
        UndefinedStays(path[1..]);
      }
    }
  }

  predicate FieldIsFree(holds: Field -> bool, f: Field) {
    !holds(f) && NoField(holds, f.value)
  }

  predicate IsFirst(fields: seq<Field>, i: nat)
    requires i < |fields|
  {
    forall h :: 0 <= h < i ==> fields[h].key != fields[i].key
  }

  /** Every such field in the value can be read along a path. */
  predicate Traceable(holds: Field -> bool, v: Json) {
    NoField(holds, v) ||
    (v.JObj? && forall i :: 0 <= i < |v.fields| ==>
      FieldIsFree(holds, v.fields[i])
      || (IsFirst(v.fields, i) && !v.fields[i].value.JUndefined? && Traceable(holds, v.fields[i].value)))
  }

  lemma {:induction false} FirstIsFound(fields: seq<Field>, i: nat)
    requires i < |fields| && IsFirst(fields, i)
    ensures Lookup(fields, fields[i].key) == fields[i].value
  {
    if i > 0 {
      assert fields[0].key != fields[i].key;
      forall h | 0 <= h < i - 1
        ensures fields[1..][h].key != fields[i].key
      {
        assert fields[1..][h] == fields[h + 1];
      }
      FirstIsFound(fields[1..], i - 1);
    }
  }

  lemma {:induction false} TraceableReads(holds: Field -> bool, v: Json) returns (path: seq<string>)
    requires Traceable(holds, v) && !NoField(holds, v)
    ensures HoldsAt(holds, v, path)
    decreases v
  {
    var i :| 0 <= i < |v.fields| && !FieldIsFree(holds, v.fields[i]);
    var f := v.fields[i];
    FirstIsFound(v.fields, i);
    if holds(f) {
      path := [f.key];
      ReadFirst(v, f.key, []);
      assert [f.key] + [] == [f.key] && Field(f.key, f.value) == f;
    } else {
      var below := TraceableReads(holds, f.value);
      path := [f.key] + below;
      ReadFirst(v, f.key, below);
    }
  }

  lemma {:induction false} SetFieldAt(fields: seq<Field>, key: string, value: Json, i: nat)
    requires i < |SetField(fields, key, value)|
    ensures |fields| <= |SetField(fields, key, value)| <= |fields| + 1
    ensures var after := SetField(fields, key, value);
      if i < |fields| then
        after[i].key == fields[i].key &&
        (after[i] == fields[i] || (after[i] == Field(key, value) && fields[i].key == key && IsFirst(fields, i)))
      else after[i] == Field(key, value) && forall h :: 0 <= h < |fields| ==> fields[h].key != key
    ensures i < |fields| && fields[i].key == key && IsFirst(fields, i) ==> SetField(fields, key, value)[i] == Field(key, value)
  {
    if fields != [] && fields[0].key != key {
      if i > 0 {
        SetFieldAt(fields[1..], key, value, i - 1);
        assert forall h :: 0 <= h < |fields[1..]| ==> fields[1..][h] == fields[h + 1];
        if i < |fields| && IsFirst(fields, i) {
          assert IsFirst(fields[1..], i - 1);
        }
        if i < |fields| && IsFirst(fields[1..], i - 1) && fields[i].key == key {
          assert forall h :: 1 <= h < i ==> fields[h].key == fields[1..][h - 1].key;
        }
      } else {
        assert |SetField(fields[1..], key, value)| > 0;
        SetFieldAt(fields[1..], key, value, 0);
      }
    }
  }

  lemma SetFieldIsTraceable(holds: Field -> bool, fields: seq<Field>, key: string, value: Json)
    requires Traceable(holds, JObj(fields)) && Traceable(holds, value) && !value.JUndefined?
    ensures Traceable(holds, JObj(SetField(fields, key, value)))
  {
    var after := SetField(fields, key, value);
    forall i | 0 <= i < |after| && !FieldIsFree(holds, after[i])
      ensures IsFirst(after, i) && !after[i].value.JUndefined? && Traceable(holds, after[i].value)
    {
      SetFieldAt(fields, key, value, i);
      forall h | 0 <= h < i
        ensures after[h].key != after[i].key
      {
        SetFieldAt(fields, key, value, h);
      }
    }
  }

  lemma {:induction false} FoundIsTraceable(holds: Field -> bool, fields: seq<Field>, key: string)
    requires Traceable(holds, JObj(fields))
    ensures Traceable(holds, Lookup(fields, key))
  {
    if Find(fields, key).Some? {
      var k := FoundAt(fields, key);
      assert FieldIsFree(holds, fields[k]) || Traceable(holds, fields[k].value);
    }
  }

  lemma {:induction false} PutIsTraceable(holds: Field -> bool, fields: seq<Field>, segments: seq<string>, value: Json)
    requires segments != [] && Traceable(holds, JObj(fields)) && NoField(holds, value) && !value.JUndefined?
    ensures Traceable(holds, JObj(Put(fields, segments, value)))
    decreases |segments|
  {
    if |segments| == 1 {
      SetFieldIsTraceable(holds, fields, segments[0], value);
    } else {
      var existing := Lookup(fields, segments[0]);
      var inner := if existing.JObj? then existing.fields else [];
      FoundIsTraceable(holds, fields, segments[0]);
      PutIsTraceable(holds, inner, segments[1..], value);
      SetFieldIsTraceable(holds, fields, segments[0], JObj(Put(inner, segments[1..], value)));
    }
  }

  /** No value that is put has such a field. */
  predicate ValuesFree(holds: Field -> bool, puts: seq<Placed>) {
    forall i :: 0 <= i < |puts| ==> !puts[i].value.JUndefined? && NoField(holds, puts[i].value)
  }

  lemma {:induction false} ContextIsTraceable(holds: Field -> bool, puts: seq<Placed>)
    requires Placeable(puts) && ValuesFree(holds, puts)
    ensures Traceable(holds, Context(puts))
  {
    if puts != [] {
      var n := |puts| - 1;
      ContextIsTraceable(holds, puts[..n]);
      PutIsTraceable(holds, Assembled(puts[..n]), puts[n].path, puts[n].value);
    }
  }

  /** If no value has such a field, the context has one exactly when it is read along a path. */
  lemma FieldsAreRead(holds: Field -> bool, puts: seq<Placed>)
    requires Placeable(puts) && ValuesFree(holds, puts)
    ensures NoField(holds, Context(puts)) <==> forall path: seq<string> :: !HoldsAt(holds, Context(puts), path)
  {
    if NoField(holds, Context(puts)) {
      forall path: seq<string>
        ensures !HoldsAt(holds, Context(puts), path)
      {
        NoFieldReads(holds, Context(puts), path);
      }
    } else {
      ContextIsTraceable(holds, puts);
      var path := TraceableReads(holds, Context(puts));
    }
  }

  // ------------------------------------------------------------ paths that stay

  /** The `i`-th put runs through this path, and no later one replaces a record above it. */
  predicate LeavesKey(paths: seq<seq<string>>, path: seq<string>, i: nat) {
    i < |paths| && path <= paths[i] && forall k :: i < k < |paths| ==> !(paths[k] < path)
  }

  predicate LeavesPath(paths: seq<seq<string>>, path: seq<string>) {
    exists i :: 0 <= i < |paths| && LeavesKey(paths, path, i)
  }

  /** The last put replaces what is strictly below it, and leaves what it runs through. */
  lemma LastPutLeaves(paths: seq<seq<string>>, last: seq<string>, path: seq<string>)
    ensures LeavesPath(paths + [last], path) <==> path <= last || (LeavesPath(paths, path) && !(last < path))
  {
    var all, n := paths + [last], |paths|;
    assert all[n] == last && forall k :: 0 <= k < n ==> all[k] == paths[k];
    if path <= last {
      assert LeavesKey(all, path, n);
    }
    if LeavesPath(paths, path) && !(last < path) {
      var i :| 0 <= i < n && LeavesKey(paths, path, i);
      assert LeavesKey(all, path, i);
    }
    if LeavesPath(all, path) && !(path <= last) {
      var i :| 0 <= i < |all| && LeavesKey(all, path, i);
      assert LeavesKey(paths, path, i);
    }
  }

  /** Whatever leaves a path leaves those above it. */
  lemma LeavesAbove(paths: seq<seq<string>>, path: seq<string>, above: seq<string>)
    requires LeavesPath(paths, path) && above <= path
    ensures LeavesPath(paths, above)
  {
    var i :| 0 <= i < |paths| && LeavesKey(paths, path, i);
    forall k | i < k < |paths|
      ensures !(paths[k] < above)
    {
      assert !(paths[k] < path);
    }
    assert LeavesKey(paths, above, i);
  }

  /** No value that is put above this path holds anything at it. */
  predicate NothingUnder(puts: seq<Placed>, path: seq<string>) {
    forall i :: 0 <= i < |puts| && puts[i].path < path ==> ReadPath(puts[i].value, path[|puts[i].path|..]).JUndefined?
  }

  /** What a put leaves to read at a path under which its value holds nothing. */
  lemma ReadAfterPut(fields: seq<Field>, segments: seq<string>, value: Json, path: seq<string>)
    requires segments != [] && !value.JUndefined?
    requires segments < path ==> ReadPath(value, path[|segments|..]).JUndefined?
    ensures !ReadPath(JObj(Put(fields, segments, value)), path).JUndefined? <==>
      path <= segments || (!(segments < path) && !ReadPath(JObj(fields), path).JUndefined?)
  {
    if path == segments {
      PutGet(fields, segments, value);
    } else if path < segments {
      PutOnTheWay(fields, segments, value, path);
    } else if segments < path {
      assert path == segments + path[|segments|..];
      PutUnder(fields, segments, value, path[|segments|..]);
    } else {
      PutFrame(fields, segments, value, path);
    }
  }

  /** Something is read at such a path exactly when a put runs through it and no later one replaces it. */
  lemma {:induction false} ReadsExactly(puts: seq<Placed>, path: seq<string>)
    requires Placeable(puts) && path != [] && NothingUnder(puts, path)
    requires forall i :: 0 <= i < |puts| ==> !puts[i].value.JUndefined?
    ensures !ReadPath(Context(puts), path).JUndefined? <==> LeavesPath(Paths(puts), path)
  {
    if puts == [] {
      NothingInEmpty(path);
    } else {
      var n := |puts| - 1;
      ReadsExactly(puts[..n], path);
      assert Paths(puts) == Paths(puts[..n]) + [puts[n].path];
      LastPutLeaves(Paths(puts[..n]), puts[n].path, path);
      ReadAfterPut(Assembled(puts[..n]), puts[n].path, puts[n].value, path);
    }
  }

  // --------------------------------------------------------------- secret keys

  function SecretField(p: Policy): Field -> bool {
    (f: Field) => p.secretKey(f.key)
  }

  predicate NoSecretKeys(p: Policy, v: Json) {
    NoField(SecretField(p), v)
  }

  predicate Plain(p: Policy, segments: seq<string>) {
    forall i :: 0 <= i < |segments| ==> !p.secretKey(segments[i])
  }

  function PlainPath(p: Policy): Placed -> bool {
    (put: Placed) => Plain(p, put.path)
  }

  predicate EndsInSecret(p: Policy, path: seq<string>) {
    path != [] && p.secretKey(path[|path| - 1])
  }

  lemma TakenValuesAreFree(p: Policy, holds: Field -> bool, source: Json, puts: seq<Placed>)
    requires TakenFrom(p, source, puts)
    requires forall f: Field :: holds(f) ==> p.secretKey(f.key) || (p.marks(f) && !f.value.JArr? && !f.value.JObj?)
    ensures ValuesFree(holds, puts)
  {
    forall i | 0 <= i < |puts|
      ensures NoField(holds, puts[i].value)
    {
      SanitizedIsClean(p, ValueAt(source, puts[i].from));
      CleanHasNoField(p, holds, puts[i].value);
    }
  }

  lemma SecretReadsExactly(p: Policy, source: Json, puts: seq<Placed>, path: seq<string>)
    requires TakenFrom(p, source, puts)
    ensures HoldsAt(SecretField(p), Context(puts), path) <==> EndsInSecret(p, path) && LeavesPath(Paths(puts), path)
  {
    if EndsInSecret(p, path) {
      TakenValuesAreFree(p, SecretField(p), source, puts);
      forall i | 0 <= i < |puts| && puts[i].path < path
        ensures ReadPath(puts[i].value, path[|puts[i].path|..]).JUndefined?
      {
        NoFieldReads(SecretField(p), puts[i].value, path[|puts[i].path|..]);
      }
      ReadsExactly(puts, path);
    }
  }

  /**
   The context is free of secret keys exactly when no path that ends in one is left by a put
   that runs through it: a sanitized value never brings in another.
   */
  lemma SecretKeysExactly(p: Policy, source: Json, puts: seq<Placed>)
    requires TakenFrom(p, source, puts)
    ensures NoSecretKeys(p, Context(puts)) <==>
      forall path: seq<string> :: EndsInSecret(p, path) ==> !LeavesPath(Paths(puts), path)
  {
    TakenValuesAreFree(p, SecretField(p), source, puts);
    FieldsAreRead(SecretField(p), puts);
    forall path: seq<string>
      ensures HoldsAt(SecretField(p), Context(puts), path) <==> EndsInSecret(p, path) && LeavesPath(Paths(puts), path)
    {
      SecretReadsExactly(p, source, puts, path);
    }
  }

  /** Plain paths are enough, and needed if none is at or under another. */
  lemma PlainPathsGiveNoSecrets(p: Policy, source: Json, puts: seq<Placed>)
    requires TakenFrom(p, source, puts)
    ensures AllPuts(puts, PlainPath(p)) ==> NoSecretKeys(p, Context(puts))
    ensures Disjoint(puts) ==> (NoSecretKeys(p, Context(puts)) <==> AllPuts(puts, PlainPath(p)))
  {
    SecretKeysExactly(p, source, puts);
    if AllPuts(puts, PlainPath(p)) {
      forall path: seq<string> | LeavesPath(Paths(puts), path)
        ensures !EndsInSecret(p, path)
      {
        var i :| 0 <= i < |puts| && LeavesKey(Paths(puts), path, i);
        assert PlainPath(p)(puts[i]);
        assert path != [] ==> path[|path| - 1] == puts[i].path[|path| - 1];
      }
    }
    if Disjoint(puts) && NoSecretKeys(p, Context(puts)) {
      forall i, j | 0 <= i < |puts| && 0 <= j < |puts[i].path|
        ensures !p.secretKey(puts[i].path[j])
      {
        LeavesItsOwn(puts, i, puts[i].path[..j + 1]);
        assert !EndsInSecret(p, puts[i].path[..j + 1]);
      }
    }
  }

  lemma LeavesItsOwn(puts: seq<Placed>, i: nat, path: seq<string>)
    requires Disjoint(puts) && i < |puts| && path <= puts[i].path
    ensures LeavesPath(Paths(puts), path)
  {
    var paths := Paths(puts);
    forall k | i < k < |paths|
      ensures !(paths[k] < path)
    {
      assert Incomparable(puts[k].path, puts[i].path);
    }
    assert LeavesKey(paths, path, i);
  }

  // --------------------------------------------------------- restricted records

  function MarkedField(p: Policy): Field -> bool {
    (f: Field) => p.marks(f) && !f.value.JArr? && !f.value.JObj?
  }

  /** No record at any depth is restricted. */
  predicate NoRestricted(p: Policy, v: Json) {
    match v
    case JArr(items) => forall i :: 0 <= i < |items| ==> NoRestricted(p, items[i])
    case JObj(fields) =>
      !Restricted(p, fields) && forall i :: 0 <= i < |fields| ==> NoRestricted(p, fields[i].value)
    case _ => true
  }

  lemma {:induction false} RestrictedHasMark(p: Policy, v: Json)
    ensures NoRestricted(p, v) <==> NoField(MarkedField(p), v)
    decreases v
  {
    match v
    case JArr(items) =>
      forall i | 0 <= i < |items|
        ensures NoRestricted(p, items[i]) <==> NoField(MarkedField(p), items[i])
      {
        RestrictedHasMark(p, items[i]);
      }
    case JObj(fields) =>
      forall i | 0 <= i < |fields|
        ensures NoRestricted(p, fields[i].value) <==> NoField(MarkedField(p), fields[i].value)
      {
        RestrictedHasMark(p, fields[i].value);
      }
      assert Restricted(p, fields) <==> exists i :: 0 <= i < |fields| && MarkedField(p)(fields[i]);
    case _ =>
  }

  /** The `i`-th put names a property that marks its record, gives it such a value, and is not touched later. */
  predicate PutsMark(p: Policy, puts: seq<Placed>, i: nat)
    requires i < |puts| && puts[i].path != []
  {
    MarkedField(p)(Field(puts[i].path[|puts[i].path| - 1], puts[i].value)) && Untouched(puts, i, puts[i].path)
  }

  /**
   The context holds a restricted record exactly when a put names a marking property and puts
   a marking scalar there: a mark that is not named itself is never in a sanitized value.
   */
  lemma RestrictedExactly(p: Policy, source: Json, puts: seq<Placed>)
    requires TakenFrom(p, source, puts)
    ensures NoRestricted(p, Context(puts)) <==> forall i :: 0 <= i < |puts| ==> !PutsMark(p, puts, i)
  {
    RestrictedHasMark(p, Context(puts));
    TakenValuesAreFree(p, MarkedField(p), source, puts);
    FieldsAreRead(MarkedField(p), puts);
    forall i | 0 <= i < |puts| && PutsMark(p, puts, i)
      ensures HoldsAt(MarkedField(p), Context(puts), puts[i].path)
    {
      assert puts[i].path + [] == puts[i].path;
      OwnsReads(puts, i, []);
    }
    forall path: seq<string> | HoldsAt(MarkedField(p), Context(puts), path)
      ensures exists i :: 0 <= i < |puts| && PutsMark(p, puts, i)
    {
      var i, rest := Owner(puts, path);
      if rest != [] {
        assert path[|path| - 1] == rest[|rest| - 1];
        NoFieldReads(MarkedField(p), puts[i].value, rest);
      }
      assert puts[i].path + [] == puts[i].path;
      assert PutsMark(p, puts, i);
    }
  }

  // ------------------------------------------------------------- hidden content

  /** No part that the context keeps of any put comes from a hidden position of the source. */
  ghost predicate ShowsNothingHidden(p: Policy, source: Json, puts: seq<Placed>) {
    forall i: nat, rest :: Owns(puts, i, rest) ==> !Hidden(p, source, puts[i].from + KeySteps(rest))
  }

  /** What a put from a position that is not hidden leaves is the sanitized value of what the source holds there. */
  lemma OwnsSanitized(p: Policy, source: Json, puts: seq<Placed>, i: nat, rest: seq<string>)
    requires Proper(source) && TakenFrom(p, source, puts) && Owns(puts, i, rest)
    ensures var at := puts[i].from + KeySteps(rest);
      && Present(source, at)
      && ReadPath(Context(puts), puts[i].path + rest) == Sanitize(p, ValueAt(source, at))
      && (Hidden(p, source, at) <==> Hidden(p, source, puts[i].from))
  {
    var from := puts[i].from;
    OwnsReads(puts, i, rest);
    ProperAt(source, from);
    SanitizedReads(p, ValueAt(source, from), rest);
    PresentIsDefined(source, from);
    ValueAtSum(source, from, KeySteps(rest));
    PresentIsDefined(source, from + KeySteps(rest));
    HiddenSplit(p, source, from, KeySteps(rest));
  }

  /**
   Nothing hidden is shown exactly when no put of which something is left reads at a hidden
   position: below the position that it reads, nothing gets through.
   */
  lemma HiddenExactly(p: Policy, source: Json, puts: seq<Placed>)
    requires Proper(source) && TakenFrom(p, source, puts)
    ensures ShowsNothingHidden(p, source, puts) <==>
      forall i: nat :: Lasts(puts, i) ==> !Hidden(p, source, puts[i].from)
  {
    forall i: nat, rest | Owns(puts, i, rest)
      ensures Hidden(p, source, puts[i].from + KeySteps(rest)) <==> Hidden(p, source, puts[i].from)
    {
      OwnsSanitized(p, source, puts, i, rest);
    }
  }

  /** Whatever is read in the context, other than a record, is the sanitized value of what the source holds at some position. */
  lemma ShownIsSanitized(p: Policy, source: Json, puts: seq<Placed>, path: seq<string>) returns (i: nat, rest: seq<string>)
    requires Proper(source) && TakenFrom(p, source, puts)
    requires !ReadPath(Context(puts), path).JUndefined? && !ReadPath(Context(puts), path).JObj?
    ensures Owns(puts, i, rest) && path == puts[i].path + rest
    ensures ReadPath(Context(puts), path) == Sanitize(p, ValueAt(source, puts[i].from + KeySteps(rest)))
  {
    i, rest := Owner(puts, path);
    OwnsSanitized(p, source, puts, i, rest);
  }

  /** If no path is at or under another, every put lasts. */
  lemma DisjointPutsLast(puts: seq<Placed>, i: nat)
    requires Disjoint(puts) && i < |puts| && !puts[i].value.JUndefined?
    ensures Lasts(puts, i)
  {
    assert puts[i].path + [] == puts[i].path;
    assert Owns(puts, i, []);
  }

  function OpenFrom(p: Policy, source: Json): Placed -> bool {
    (put: Placed) => !Hidden(p, source, put.from)
  }

  /** No put from a hidden position is enough, and needed if no path is at or under another. */
  lemma OpenPutsShowNothing(p: Policy, source: Json, puts: seq<Placed>)
    requires Proper(source) && TakenFrom(p, source, puts)
    ensures AllPuts(puts, OpenFrom(p, source)) ==> ShowsNothingHidden(p, source, puts)
    ensures Disjoint(puts) ==> (ShowsNothingHidden(p, source, puts) <==> AllPuts(puts, OpenFrom(p, source)))
  {
    HiddenExactly(p, source, puts);
    if AllPuts(puts, OpenFrom(p, source)) {
      forall i: nat | Lasts(puts, i)
        ensures !Hidden(p, source, puts[i].from)
      {
        assert OpenFrom(p, source)(puts[i]);
      }
    }
    if Disjoint(puts) {
      forall i | 0 <= i < |puts|
        ensures Lasts(puts, i)
      {
        DisjointPutsLast(puts, i);
      }
    }
  }

  // -------------------------------------------- hidden paths, read where they are

  /** Every put is at the path at which it was read. */
  predicate InPlace(puts: seq<Placed>) {
    forall i :: 0 <= i < |puts| ==> puts[i].from == KeySteps(puts[i].path)
  }

  predicate HiddenPath(p: Policy, source: Json, path: seq<string>) {
    path != [] && Hidden(p, source, KeySteps(path))
  }

  function OpenPath(p: Policy, source: Json): Placed -> bool {
    (put: Placed) => !HiddenPath(p, source, put.path)
  }

  lemma HiddenBelow(p: Policy, source: Json, path: seq<string>, below: seq<string>)
    requires HiddenPath(p, source, path) && path <= below
    ensures HiddenPath(p, source, below)
  {
    var rest := below[|path|..];
    assert below == path + rest;
    KeyStepsOfSum(path, rest);
    HiddenSplit(p, source, KeySteps(path), KeySteps(rest));
  }

  /** The shortest hidden path on the way to a hidden one. */
  lemma {:induction false} FirstHidden(p: Policy, source: Json, path: seq<string>) returns (first: seq<string>)
    requires HiddenPath(p, source, path)
    ensures first <= path && HiddenPath(p, source, first)
    ensures forall above: seq<string> :: above < first ==> !HiddenPath(p, source, above)
    decreases |path|
  {
    if above: seq<string> :| above < path && HiddenPath(p, source, above) {
      first := FirstHidden(p, source, above);
    } else {
      first := path;
    }
  }

  lemma FirstHiddenReads(p: Policy, source: Json, puts: seq<Placed>, path: seq<string>)
    requires Proper(source) && TakenFrom(p, source, puts) && InPlace(puts) && HiddenPath(p, source, path)
    requires forall above: seq<string> :: above < path ==> !HiddenPath(p, source, above)
    ensures !ReadPath(Context(puts), path).JUndefined? <==> LeavesPath(Paths(puts), path)
  {
    forall i | 0 <= i < |puts| && puts[i].path < path
      ensures ReadPath(puts[i].value, path[|puts[i].path|..]).JUndefined?
    {
      var rest := path[|puts[i].path|..];
      assert path == puts[i].path + rest && !HiddenPath(p, source, puts[i].path);
      KeyStepsOfSum(puts[i].path, rest);
      HiddenSplit(p, source, puts[i].from, KeySteps(rest));
      ProperAt(source, puts[i].from);
      if !ReadPath(puts[i].value, rest).JUndefined? {
        SanitizedReads(p, ValueAt(source, puts[i].from), rest);
      }
    }
    ReadsExactly(puts, path);
  }

  /** Nothing is read in the context at any path that is hidden in the source. */
  ghost predicate ReadsNothingHidden(p: Policy, source: Json, context: Json) {
    forall path: seq<string> :: HiddenPath(p, source, path) ==> ReadPath(context, path).JUndefined?
  }

  lemma ReadsAbove(v: Json, path: seq<string>, above: seq<string>)
    requires above <= path && ReadPath(v, above).JUndefined?
    ensures ReadPath(v, path).JUndefined?
  {
    assert path == above + path[|above|..];
    ReadInSteps(v, above, path[|above|..]);
    UndefinedStays(path[|above|..]);
  }

  /**
   When each value is put where it was read, nothing hidden in the source is read in the
   context exactly when no hidden path is left by a put that runs through it.
   */
  lemma HiddenPathsExactly(p: Policy, source: Json, puts: seq<Placed>)
    requires Proper(source) && TakenFrom(p, source, puts) && InPlace(puts)
    ensures ReadsNothingHidden(p, source, Context(puts)) <==>
      forall path: seq<string> :: HiddenPath(p, source, path) ==> !LeavesPath(Paths(puts), path)
  {
    forall path: seq<string> | HiddenPath(p, source, path)
      ensures exists first: seq<string> ::
        && HiddenPath(p, source, first)
        && (!ReadPath(Context(puts), first).JUndefined? <==> LeavesPath(Paths(puts), first))
        && (!ReadPath(Context(puts), path).JUndefined? ==> !ReadPath(Context(puts), first).JUndefined?)
        && (LeavesPath(Paths(puts), path) ==> LeavesPath(Paths(puts), first))
    {
      var first := FirstHidden(p, source, path);
      FirstHiddenReads(p, source, puts, first);
      if ReadPath(Context(puts), first).JUndefined? {
        ReadsAbove(Context(puts), path, first);
      }
      if LeavesPath(Paths(puts), path) {
        LeavesAbove(Paths(puts), path, first);
      }
    }
  }

  /** No put at a hidden path is enough, and needed if no path is at or under another. */
  lemma OpenPathsShowNothing(p: Policy, source: Json, puts: seq<Placed>)
    requires Proper(source) && TakenFrom(p, source, puts) && InPlace(puts)
    ensures AllPuts(puts, OpenPath(p, source)) ==> ReadsNothingHidden(p, source, Context(puts))
    ensures Disjoint(puts) ==> (ReadsNothingHidden(p, source, Context(puts)) <==> AllPuts(puts, OpenPath(p, source)))
  {
    HiddenPathsExactly(p, source, puts);
    if AllPuts(puts, OpenPath(p, source)) {
      forall path: seq<string> | HiddenPath(p, source, path)
        ensures !LeavesPath(Paths(puts), path)
      {
        forall i | 0 <= i < |puts|
          ensures !LeavesKey(Paths(puts), path, i)
        {
          assert OpenPath(p, source)(puts[i]);
          if path <= puts[i].path {
            HiddenBelow(p, source, path, puts[i].path);
          }
        }
      }
    }
    if Disjoint(puts) {
      forall i | 0 <= i < |puts|
        ensures LeavesPath(Paths(puts), puts[i].path)
      {
        LeavesItsOwn(puts, i, puts[i].path);
      }
    }
  }
}
