/**
 What a model is allowed to see.  Two sanitizers remove secret-named properties and
 restricted records from a value at every depth; the evaluation one also lists what it
 removed.  Both are one function over a policy.
 */
module Sanitizing {
  import opened Wrappers
  import opened Json
  import opened Decimal

  /**
   `secretKey` says which property names are secret.  A record is restricted when one of
   its scalar properties is marked.  The gate drops properties that become empty records.
   */
  datatype Policy = Policy(secretKey: string -> bool, marks: Field -> bool, dropEmpty: bool)

  function EvalPolicy(secretKey: string -> bool, secretClass: string -> bool): Policy {
    Policy(secretKey,
           (f: Field) =>
             || (f.key == "redacted" && f.value == JBool(true))
             || (f.key == "classification" && f.value.JStr? && f.value.s != "" && secretClass(f.value.s)),
           false)
  }

  function GatePolicy(secretKey: string -> bool): Policy {
    Policy(secretKey,
           (f: Field) => (f.key == "redactionClass" || f.key == "redaction")
             && (f.value == JStr("secret") || f.value == JStr("restricted")),
           true)
  }

  predicate Restricted(p: Policy, fields: seq<Field>) {
    exists i :: 0 <= i < |fields| && p.marks(fields[i]) && !fields[i].value.JArr? && !fields[i].value.JObj?
  }

  predicate Dropped(p: Policy, sanitized: Json) {
    sanitized.JUndefined? || (p.dropEmpty && sanitized == JObj([]))
  }

  function Sanitize(p: Policy, v: Json): Json
    decreases v, 1
  {
    match v
    case JArr(items) => JArr(SanitizeItems(p, items))
    case JObj(fields) => if Restricted(p, fields) then JUndefined else JObj(SanitizeFields(p, fields))
    case _ => v
  }

  function SanitizeItems(p: Policy, items: seq<Json>): seq<Json>
    decreases items, 0
  {
    if items == [] then []
    else
      var first := Sanitize(p, items[0]);
      (if first.JUndefined? then [] else [first]) + SanitizeItems(p, items[1..])
  }

  function SanitizeFields(p: Policy, fields: seq<Field>): seq<Field>
    decreases fields, 0
  {
    if fields == [] then [] else SanitizeField(p, fields[0]) + SanitizeFields(p, fields[1..])
  }

  function SanitizeField(p: Policy, f: Field): seq<Field>
    decreases f, 0
  {
    if p.secretKey(f.key) then []
    else
      var value := Sanitize(p, f.value);
      if Dropped(p, value) then [] else [Field(f.key, value)]
  }

  lemma NextItemKept(p: Policy, items: seq<Json>, i: nat, sanitized: seq<Json>)
    requires i < |items|
    ensures var item := Sanitize(p, items[i]);
      sanitized + SanitizeItems(p, items[i..]) ==
        (if item.JUndefined? then sanitized else sanitized + [item]) + SanitizeItems(p, items[i + 1..])
  {
    var item := Sanitize(p, items[i]);
    assert items[i..][0] == items[i] && items[i..][1..] == items[i + 1..];
    var later := SanitizeItems(p, items[i + 1..]);
    assert sanitized + ([item] + later) == (sanitized + [item]) + later && [] + later == later;
  }

  lemma NextFieldKept(p: Policy, fields: seq<Field>, i: nat, output: seq<Field>)
    requires i < |fields|
    ensures output + SanitizeFields(p, fields[i..]) ==
      (output + SanitizeField(p, fields[i])) + SanitizeFields(p, fields[i + 1..])
  {
    assert fields[i..][0] == fields[i] && fields[i..][1..] == fields[i + 1..];
    var later := SanitizeFields(p, fields[i + 1..]);
    assert output + (SanitizeField(p, fields[i]) + later) == (output + SanitizeField(p, fields[i])) + later;
  }

  // --------------------------------------------------------------- clean values

  /** A present value with no secret key, no restricted record and nothing undefined at any depth. */
  predicate Clean(p: Policy, v: Json) {
    match v
    case JUndefined => false
    case JArr(items) => forall i :: 0 <= i < |items| ==> Clean(p, items[i])
    case JObj(fields) =>
      && !Restricted(p, fields)
      && forall i :: 0 <= i < |fields| ==>
        !p.secretKey(fields[i].key) && Clean(p, fields[i].value) && !Dropped(p, fields[i].value)
    case _ => true
  }

  lemma {:induction false} SanitizedIsClean(p: Policy, v: Json)
    ensures Sanitize(p, v).JUndefined? || Clean(p, Sanitize(p, v))
    decreases v, 1
  {
    match v
    case JArr(items) => SanitizedItemsAreClean(p, items);
    case JObj(fields) =>
      if !Restricted(p, fields) {
        SanitizedFieldsAreClean(p, fields);
        StaysUnrestricted(p, fields);
      }
    case _ =>
  }

  lemma {:induction false} SanitizedItemsAreClean(p: Policy, items: seq<Json>)
    ensures forall i :: 0 <= i < |SanitizeItems(p, items)| ==> Clean(p, SanitizeItems(p, items)[i])
    decreases items, 0
  {
    if items != [] {
      SanitizedIsClean(p, items[0]);
      SanitizedItemsAreClean(p, items[1..]);
    }
  }

  lemma {:induction false} SanitizedFieldsAreClean(p: Policy, fields: seq<Field>)
    ensures forall i :: 0 <= i < |SanitizeFields(p, fields)| ==>
      var f := SanitizeFields(p, fields)[i];
      !p.secretKey(f.key) && Clean(p, f.value) && !Dropped(p, f.value)
    decreases fields, 0
  {
    if fields != [] {
      SanitizedIsClean(p, fields[0].value);
      SanitizedFieldsAreClean(p, fields[1..]);
    }
  }

  lemma {:induction false} SanitizedFieldComesFrom(p: Policy, fields: seq<Field>, g: Field)
    requires g in SanitizeFields(p, fields)
    ensures exists i :: 0 <= i < |fields| && g.key == fields[i].key && g.value == Sanitize(p, fields[i].value)
  {
    if g in SanitizeFields(p, fields[1..]) && g !in SanitizeField(p, fields[0]) {
      SanitizedFieldComesFrom(p, fields[1..], g);
      var i :| 0 <= i < |fields[1..]| && g.key == fields[1..][i].key && g.value == Sanitize(p, fields[1..][i].value);
      assert fields[i + 1] == fields[1..][i];
    } else {
      assert g.key == fields[0].key && g.value == Sanitize(p, fields[0].value);
    }
  }

  lemma StaysUnrestricted(p: Policy, fields: seq<Field>)
    requires !Restricted(p, fields)
    ensures !Restricted(p, SanitizeFields(p, fields))
  {
    var out := SanitizeFields(p, fields);
    forall i | 0 <= i < |out| && !out[i].value.JArr? && !out[i].value.JObj?
      ensures !p.marks(out[i])
    {
      PresentFields(p, fields, i);
      SanitizedFieldComesFrom(p, fields, out[i]);
      var k :| 0 <= k < |fields| && out[i].key == fields[k].key && out[i].value == Sanitize(p, fields[k].value);
      assert out[i] == fields[k];
    }
  }

  lemma {:induction false} PresentFields(p: Policy, fields: seq<Field>, i: nat)
    requires i < |SanitizeFields(p, fields)|
    ensures !SanitizeFields(p, fields)[i].value.JUndefined?
  {
    var first := SanitizeField(p, fields[0]);
    if i >= |first| {
      PresentFields(p, fields[1..], i - |first|);
    }
  }

  lemma {:induction false} CleanIsFixed(p: Policy, v: Json)
    requires Clean(p, v)
    ensures Sanitize(p, v) == v
    decreases v, 1
  {
    match v
    case JArr(items) => CleanItemsAreFixed(p, items);
    case JObj(fields) => CleanFieldsAreFixed(p, fields);
    case _ =>
  }

  lemma {:induction false} CleanItemsAreFixed(p: Policy, items: seq<Json>)
    requires forall i :: 0 <= i < |items| ==> Clean(p, items[i])
    ensures SanitizeItems(p, items) == items
    decreases items, 0
  {
    if items != [] {
      CleanIsFixed(p, items[0]);
      CleanItemsAreFixed(p, items[1..]);
    }
  }

  lemma {:induction false} CleanFieldsAreFixed(p: Policy, fields: seq<Field>)
    requires forall i :: 0 <= i < |fields| ==>
      !p.secretKey(fields[i].key) && Clean(p, fields[i].value) && !Dropped(p, fields[i].value)
    ensures SanitizeFields(p, fields) == fields
    decreases fields, 0
  {
    if fields != [] {
      CleanIsFixed(p, fields[0].value);
      CleanFieldsAreFixed(p, fields[1..]);
    }
  }

  /** Sanitizing changes exactly the values that are not clean, and never changes its own output. */
  lemma SanitizeIsIdempotent(p: Policy, v: Json)
    ensures Sanitize(p, Sanitize(p, v)) == Sanitize(p, v)
    ensures Clean(p, v) <==> Sanitize(p, v) == v && !v.JUndefined?
  {
    SanitizedIsClean(p, v);
    if Clean(p, v) {
      CleanIsFixed(p, v);
    }
    if !Sanitize(p, v).JUndefined? {
      CleanIsFixed(p, Sanitize(p, v));
    }
  }

  // ------------------------------------------------------------- the two policies

  /** At no depth does a record have a field of which this holds. */
  predicate NoField(holds: Field -> bool, v: Json) {
    match v
    case JArr(items) => forall i :: 0 <= i < |items| ==> NoField(holds, items[i])
    case JObj(fields) => forall i :: 0 <= i < |fields| ==> !holds(fields[i]) && NoField(holds, fields[i].value)
    case _ => true
  }

  /** A clean value has no marked scalar and no secret key at any depth. */
  lemma {:induction false} CleanHasNoField(p: Policy, holds: Field -> bool, v: Json)
    requires Clean(p, v)
    requires forall f: Field :: holds(f) ==> p.secretKey(f.key) || (p.marks(f) && !f.value.JArr? && !f.value.JObj?)
    ensures NoField(holds, v)
    decreases v
  {
    match v
    case JArr(items) =>
      forall i | 0 <= i < |items|
        ensures NoField(holds, items[i])
      {
        CleanHasNoField(p, holds, items[i]);
      }
    case JObj(fields) =>
      forall i | 0 <= i < |fields|
        ensures !holds(fields[i]) && NoField(holds, fields[i].value)
      {
        CleanHasNoField(p, holds, fields[i].value);
      }
    case _ =>
  }

  /**
   A value that the eval runner has sanitized holds, at any depth, no secret key, no record
   marked as redacted and none with a secret classification.  What that means for the context
   that a grading model sees is said in `ModelContext`.
   */
  lemma EvalSanitizingHides(secretKey: string -> bool, secretClass: string -> bool, v: Json)
    ensures var shown := Sanitize(EvalPolicy(secretKey, secretClass), v);
      && NoField((f: Field) => secretKey(f.key), shown)
      && NoField((f: Field) => f == Field("redacted", JBool(true)), shown)
      && NoField((f: Field) => f.key == "classification" && f.value.JStr? && f.value.s != "" && secretClass(f.value.s), shown)
  {
    var p := EvalPolicy(secretKey, secretClass);
    SanitizedIsClean(p, v);
    var shown := Sanitize(p, v);
    if !shown.JUndefined? {
      CleanHasNoField(p, (f: Field) => secretKey(f.key), shown);
      CleanHasNoField(p, (f: Field) => f == Field("redacted", JBool(true)), shown);
      CleanHasNoField(p, (f: Field) => f.key == "classification" && f.value.JStr? && f.value.s != "" && secretClass(f.value.s), shown);
    }
  }

  /**
   A value that the gate engine has sanitized holds, at any depth, no secret key and no record
   whose redaction class is secret or restricted.  What that means for the context that a
   model sees is said in `GateContext`.
   */
  lemma GateSanitizingHides(secretKey: string -> bool, v: Json)
    ensures var shown := Sanitize(GatePolicy(secretKey), v);
      && NoField((f: Field) => secretKey(f.key), shown)
      && NoField((f: Field) => (f.key == "redactionClass" || f.key == "redaction")
                   && (f.value == JStr("secret") || f.value == JStr("restricted")), shown)
  {
    var p := GatePolicy(secretKey);
    SanitizedIsClean(p, v);
    var shown := Sanitize(p, v);
    if !shown.JUndefined? {
      CleanHasNoField(p, (f: Field) => secretKey(f.key), shown);
      CleanHasNoField(p, p.marks, shown);
    }
  }

  // ----------------------------------------------------------- what was removed

  datatype Step = Key(name: string) | Index(i: nat)

  type Position = seq<Step>

  function Child(v: Json, step: Step): Option<Json> {
    match step
    case Key(name) => if v.JObj? then Find(v.fields, name) else None
    case Index(i) => if v.JArr? && i < |v.items| then Some(v.items[i]) else None
  }

  predicate Present(v: Json, at: Position)
    decreases |at|
  {
    at == [] || (Child(v, at[0]).Some? && Present(Child(v, at[0]).value, at[1..]))
  }

  /** The position is that of a restricted record, comes through a secret key, or lies under one of these. */
  predicate Hidden(p: Policy, v: Json, at: Position)
    decreases |at|
  {
    || (v.JObj? && Restricted(p, v.fields))
    || (at != [] && at[0].Key? && p.secretKey(at[0].name))
    || (at != [] && Child(v, at[0]).Some? && Hidden(p, Child(v, at[0]).value, at[1..]))
  }

  /** A topmost hidden position: its parent may be seen. */
  predicate Removed(p: Policy, v: Json, at: Position) {
    Present(v, at) && Hidden(p, v, at) && (at == [] || !Hidden(p, v, at[..|at| - 1]))
  }

  function Under(step: Step, positions: seq<Position>): seq<Position> {
    seq(|positions|, i requires 0 <= i < |positions| => [step] + positions[i])
  }

  /** The positions that the evaluation sanitizer reports, in the order in which it meets them. */
  function Redactions(p: Policy, v: Json): seq<Position>
    decreases v, 1
  {
    match v
    case JArr(items) => ItemRedactions(p, items, 0)
    case JObj(fields) => if Restricted(p, fields) then [[]] else FieldRedactions(p, fields)
    case _ => []
  }

  function ItemRedactions(p: Policy, items: seq<Json>, i: nat): seq<Position>
    decreases items, 0
  {
    if items == [] then [] else Under(Index(i), Redactions(p, items[0])) + ItemRedactions(p, items[1..], i + 1)
  }

  function FieldRedactions(p: Policy, fields: seq<Field>): seq<Position>
    decreases fields, 0
  {
    if fields == [] then [] else OneFieldRedactions(p, fields[0]) + FieldRedactions(p, fields[1..])
  }

  function OneFieldRedactions(p: Policy, f: Field): seq<Position>
    decreases f, 0
  {
    if p.secretKey(f.key) then [[Key(f.key)]] else Under(Key(f.key), Redactions(p, f.value))
  }

  lemma UnderHas(step: Step, positions: seq<Position>, at: Position)
    ensures at in Under(step, positions) <==> at != [] && at[0] == step && at[1..] in positions
  {
    var all := Under(step, positions);
    if at in all {
      var i :| 0 <= i < |all| && all[i] == at;
      assert at[1..] == positions[i];
    }
    if at != [] && at[0] == step && at[1..] in positions {
      var i :| 0 <= i < |positions| && positions[i] == at[1..];
      assert all[i] == [step] + at[1..] == at;
    }
  }

  lemma RemovedThroughStep(p: Policy, v: Json, at: Position)
    requires at != [] && !(v.JObj? && Restricted(p, v.fields)) && Child(v, at[0]).Some?
    ensures at[0].Key? && p.secretKey(at[0].name) ==> (Removed(p, v, at) <==> |at| == 1)
    ensures !(at[0].Key? && p.secretKey(at[0].name)) ==>
      (Removed(p, v, at) <==> Removed(p, Child(v, at[0]).value, at[1..]))
  {
    var parent := at[..|at| - 1];
    if |at| == 1 {
      assert parent == [] && at[1..] == [] && Present(Child(v, at[0]).value, at[1..]);
      assert !Hidden(p, v, parent);
    } else {
      assert parent[0] == at[0] && parent[1..] == at[1..][..|at[1..]| - 1];
    }
  }

  /** The reported positions are exactly the topmost hidden ones. */
  lemma {:induction false} RedactionsAreTheRemovals(p: Policy, v: Json, at: Position)
    requires Proper(v)
    ensures at in Redactions(p, v) <==> Removed(p, v, at)
    decreases v, 1
  {
    match v
    case JArr(items) =>
      assert v.items[0..] == items;
      ItemRemovals(p, v, 0, at);
    case JObj(fields) =>
      if Restricted(p, fields) {
        assert at != [] ==> Hidden(p, v, at[..|at| - 1]);
      } else {
        assert v.fields[0..] == fields;
        FieldRemovals(p, v, 0, at);
        if at != [] && at[0].Key? && Find(fields, at[0].name).Some? {
          var k := FoundAt(fields, at[0].name);
        }
      }
    case _ =>
  }

  lemma {:induction false} ItemRemovals(p: Policy, v: Json, k: nat, at: Position)
    requires Proper(v) && v.JArr? && k <= |v.items|
    ensures at in ItemRedactions(p, v.items[k..], k) <==>
      at != [] && at[0].Index? && k <= at[0].i < |v.items| && Removed(p, v, at)
    decreases v, 0, |v.items| - k
  {
    if k < |v.items| {
      var item := v.items[k];
      assert v.items[k..][0] == item && v.items[k..][1..] == v.items[k + 1..];
      ItemRemovals(p, v, k + 1, at);
      UnderHas(Index(k), Redactions(p, item), at);
      if at != [] && at[0] == Index(k) {
        RedactionsAreTheRemovals(p, item, at[1..]);
        RemovedThroughStep(p, v, at);
      }
    }
  }

  lemma {:induction false} FindFrom(fields: seq<Field>, k: nat)
    requires DistinctKeys(fields) && k < |fields|
    ensures Find(fields, fields[k].key) == Some(fields[k].value)
  {
    if k > 0 {
      assert fields[1..][k - 1] == fields[k];
      FindFrom(fields[1..], k - 1);
    }
  }

  lemma {:induction false} FoundAt(fields: seq<Field>, key: string) returns (k: nat)
    requires Find(fields, key).Some?
    ensures k < |fields| && fields[k].key == key && Find(fields, key) == Some(fields[k].value)
  {
    if fields[0].key == key {
      k := 0;
    } else {
      k := FoundAt(fields[1..], key);
      k := k + 1;
    }
  }

  /** The key is that of a property at or after `k`. */
  predicate KeyFrom(fields: seq<Field>, k: nat, key: string) {
    exists i :: k <= i < |fields| && fields[i].key == key
  }

  lemma {:induction false} FieldRemovals(p: Policy, v: Json, k: nat, at: Position)
    requires Proper(v) && v.JObj? && !Restricted(p, v.fields) && k <= |v.fields|
    ensures at in FieldRedactions(p, v.fields[k..]) <==>
      at != [] && at[0].Key? && KeyFrom(v.fields, k, at[0].name) && Removed(p, v, at)
    decreases v, 0, |v.fields| - k
  {
    if k < |v.fields| {
      var f := v.fields[k];
      assert v.fields[k..][0] == f && v.fields[k..][1..] == v.fields[k + 1..];
      FieldRemovals(p, v, k + 1, at);
      FieldRemoval(p, v, k, at);
      assert at != [] && at[0].Key? ==>
        (KeyFrom(v.fields, k, at[0].name) <==> at[0].name == f.key || KeyFrom(v.fields, k + 1, at[0].name));
    }
  }

  lemma {:induction false} FieldRemoval(p: Policy, v: Json, k: nat, at: Position)
    requires Proper(v) && v.JObj? && !Restricted(p, v.fields) && k < |v.fields|
    ensures at in OneFieldRedactions(p, v.fields[k]) <==> at != [] && at[0] == Key(v.fields[k].key) && Removed(p, v, at)
    decreases v, 0, 0
  {
    var f := v.fields[k];
    FindFrom(v.fields, k);
    UnderHas(Key(f.key), Redactions(p, f.value), at);
    if at != [] && at[0] == Key(f.key) {
      RemovedThroughStep(p, v, at);
      assert |at| == 1 ==> at == [Key(f.key)];
      RedactionsAreTheRemovals(p, f.value, at[1..]);
    }
  }

  predicate NoDuplicates<T(==)>(s: seq<T>) {
    forall i, j :: 0 <= i < j < |s| ==> s[i] != s[j]
  }

  lemma JoinNoDuplicates<T>(a: seq<T>, b: seq<T>)
    requires NoDuplicates(a) && NoDuplicates(b) && forall x :: x in a ==> x !in b
    ensures NoDuplicates(a + b)
  {
    var all := a + b;
    forall i, j | 0 <= i < j < |all|
      ensures all[i] != all[j]
    {
      assert i < |a| ==> all[i] in a;
      assert |a| <= j ==> all[j] in b;
    }
  }

  lemma UnderNoDuplicates(step: Step, positions: seq<Position>)
    requires NoDuplicates(positions)
    ensures NoDuplicates(Under(step, positions))
  {
    var all := Under(step, positions);
    forall i, j | 0 <= i < j < |all|
      ensures all[i] != all[j]
    {
      assert all[i][1..] == positions[i] && all[j][1..] == positions[j];
    }
  }

  /** No removal is reported twice. */
  lemma {:induction false} RedactionsAreDistinct(p: Policy, v: Json)
    requires Proper(v)
    ensures NoDuplicates(Redactions(p, v))
    decreases v, 1
  {
    match v
    case JArr(items) =>
      assert v.items[0..] == items;
      ItemRedactionsAreDistinct(p, v, 0);
    case JObj(fields) =>
      if !Restricted(p, fields) {
        assert v.fields[0..] == fields;
        FieldRedactionsAreDistinct(p, v, 0);
      }
    case _ =>
  }

  lemma {:induction false} ItemRedactionsAreDistinct(p: Policy, v: Json, k: nat)
    requires Proper(v) && v.JArr? && k <= |v.items|
    ensures NoDuplicates(ItemRedactions(p, v.items[k..], k))
    decreases v, 0, |v.items| - k
  {
    if k < |v.items| {
      var here, rest := Under(Index(k), Redactions(p, v.items[k])), ItemRedactions(p, v.items[k + 1..], k + 1);
      RedactionsAreDistinct(p, v.items[k]);
      UnderNoDuplicates(Index(k), Redactions(p, v.items[k]));
      ItemRedactionsAreDistinct(p, v, k + 1);
      forall at | at in here
        ensures at !in rest
      {
        UnderHas(Index(k), Redactions(p, v.items[k]), at);
        ItemRemovals(p, v, k + 1, at);
      }
      JoinNoDuplicates(here, rest);
      assert v.items[k..][0] == v.items[k] && v.items[k..][1..] == v.items[k + 1..];
    }
  }

  lemma {:induction false} FieldRedactionsAreDistinct(p: Policy, v: Json, k: nat)
    requires Proper(v) && v.JObj? && !Restricted(p, v.fields) && k <= |v.fields|
    ensures NoDuplicates(FieldRedactions(p, v.fields[k..]))
    decreases v, 0, |v.fields| - k
  {
    if k < |v.fields| {
      var f := v.fields[k];
      var here, rest := OneFieldRedactions(p, f), FieldRedactions(p, v.fields[k + 1..]);
      RedactionsAreDistinct(p, f.value);
      UnderNoDuplicates(Key(f.key), Redactions(p, f.value));
      FieldRedactionsAreDistinct(p, v, k + 1);
      forall at | at in here
        ensures at !in rest
      {
        FieldRemoval(p, v, k, at);
        FieldRemovals(p, v, k + 1, at);
      }
      JoinNoDuplicates(here, rest);
      assert v.fields[k..][0] == f && v.fields[k..][1..] == v.fields[k + 1..];
    }
  }

  /** Sanitizing its own output removes nothing more. */
  lemma {:induction false} CleanHasNoRedactions(p: Policy, v: Json)
    requires Clean(p, v)
    ensures Redactions(p, v) == []
    decreases v, 1
  {
    match v
    case JArr(items) => CleanItemsHaveNoRedactions(p, items, 0);
    case JObj(fields) => CleanFieldsHaveNoRedactions(p, fields);
    case _ =>
  }

  lemma {:induction false} CleanItemsHaveNoRedactions(p: Policy, items: seq<Json>, i: nat)
    requires forall k :: 0 <= k < |items| ==> Clean(p, items[k])
    ensures ItemRedactions(p, items, i) == []
    decreases items, 0
  {
    if items != [] {
      CleanHasNoRedactions(p, items[0]);
      CleanItemsHaveNoRedactions(p, items[1..], i + 1);
    }
  }

  lemma {:induction false} CleanFieldsHaveNoRedactions(p: Policy, fields: seq<Field>)
    requires forall k :: 0 <= k < |fields| ==> !p.secretKey(fields[k].key) && Clean(p, fields[k].value)
    ensures FieldRedactions(p, fields) == []
    decreases fields, 0
  {
    if fields != [] {
      CleanHasNoRedactions(p, fields[0].value);
      CleanFieldsHaveNoRedactions(p, fields[1..]);
    }
  }

  // ------------------------------------------------------------- what is kept

  /** A scalar inside a value. */
  datatype Leaf = Leaf(at: Position, value: Json)

  function Leaves(v: Json): seq<Leaf>
    decreases v, 1
  {
    match v
    case JUndefined => []
    case JArr(items) => ItemLeaves(items, 0)
    case JObj(fields) => FieldLeaves(fields)
    case _ => [Leaf([], v)]
  }

  function LeavesUnder(step: Step, leaves: seq<Leaf>): seq<Leaf> {
    if leaves == [] then [] else [Leaf([step] + leaves[0].at, leaves[0].value)] + LeavesUnder(step, leaves[1..])
  }

  function ItemLeaves(items: seq<Json>, i: nat): seq<Leaf>
    decreases items, 0
  {
    if items == [] then [] else LeavesUnder(Index(i), Leaves(items[0])) + ItemLeaves(items[1..], i + 1)
  }

  function FieldLeaves(fields: seq<Field>): seq<Leaf>
    decreases fields, 0
  {
    if fields == [] then [] else LeavesUnder(Key(fields[0].key), Leaves(fields[0].value)) + FieldLeaves(fields[1..])
  }

  /** The leaves that are not hidden. */
  function Shown(p: Policy, v: Json, leaves: seq<Leaf>): seq<Leaf> {
    if leaves == [] then []
    else (if Hidden(p, v, leaves[0].at) then [] else [leaves[0]]) + Shown(p, v, leaves[1..])
  }

  /** Removing an item moves the later ones, so a leaf is traced by the keys on the way to it. */
  function Keys(at: Position): seq<string> {
    if at == [] then [] else (if at[0].Key? then [at[0].name] else []) + Keys(at[1..])
  }

  function Traces(leaves: seq<Leaf>): seq<(seq<string>, Json)> {
    if leaves == [] then [] else [(Keys(leaves[0].at), leaves[0].value)] + Traces(leaves[1..])
  }

  function TracesUnder(step: Step, traces: seq<(seq<string>, Json)>): seq<(seq<string>, Json)> {
    if traces == [] then []
    else [((if step.Key? then [step.name] else []) + traces[0].0, traces[0].1)] + TracesUnder(step, traces[1..])
  }

  lemma {:induction false} TracesOfUnder(step: Step, leaves: seq<Leaf>)
    ensures Traces(LeavesUnder(step, leaves)) == TracesUnder(step, Traces(leaves))
  {
    if leaves != [] {
      TracesOfUnder(step, leaves[1..]);
      var first := Leaf([step] + leaves[0].at, leaves[0].value);
      assert first.at[1..] == leaves[0].at;
      assert LeavesUnder(step, leaves)[1..] == LeavesUnder(step, leaves[1..]);
    }
  }

  lemma {:induction false} TracesOfSum(a: seq<Leaf>, b: seq<Leaf>)
    ensures Traces(a + b) == Traces(a) + Traces(b)
  {
    if a == [] {
      assert a + b == b;
    } else {
      assert (a + b)[1..] == a[1..] + b;
      TracesOfSum(a[1..], b);
    }
  }

  lemma {:induction false} TracesUnderIndex(i: nat, traces: seq<(seq<string>, Json)>)
    ensures TracesUnder(Index(i), traces) == traces
  {
    if traces != [] {
      TracesUnderIndex(i, traces[1..]);
      assert [] + traces[0].0 == traces[0].0;
    }
  }

  lemma {:induction false} ShownOfSum(p: Policy, v: Json, a: seq<Leaf>, b: seq<Leaf>)
    ensures Shown(p, v, a + b) == Shown(p, v, a) + Shown(p, v, b)
  {
    if a == [] {
      assert a + b == b;
    } else {
      assert (a + b)[1..] == a[1..] + b;
      ShownOfSum(p, v, a[1..], b);
    }
  }

  lemma {:induction false} ShownOfHidden(p: Policy, v: Json, leaves: seq<Leaf>)
    requires v.JObj? && Restricted(p, v.fields)
    ensures Shown(p, v, leaves) == []
  {
    if leaves != [] {
      ShownOfHidden(p, v, leaves[1..]);
    }
  }

  /** Below a step, the leaves that are shown are those that the child shows, or none if the step is secret. */
  lemma {:induction false} ShownUnder(p: Policy, v: Json, step: Step, child: Json, leaves: seq<Leaf>)
    requires !(v.JObj? && Restricted(p, v.fields)) && Child(v, step) == Some(child)
    ensures Shown(p, v, LeavesUnder(step, leaves)) ==
      if step.Key? && p.secretKey(step.name) then [] else LeavesUnder(step, Shown(p, child, leaves))
  {
    if leaves != [] {
      ShownUnder(p, v, step, child, leaves[1..]);
      var first := Leaf([step] + leaves[0].at, leaves[0].value);
      assert first.at[1..] == leaves[0].at;
      assert LeavesUnder(step, leaves)[1..] == LeavesUnder(step, leaves[1..]);
      LeavesUnderFirst(step, leaves[0], Shown(p, child, leaves[1..]));
    }
  }

  lemma LeavesUnderFirst(step: Step, leaf: Leaf, rest: seq<Leaf>)
    ensures LeavesUnder(step, [leaf] + rest) == [Leaf([step] + leaf.at, leaf.value)] + LeavesUnder(step, rest)
    ensures LeavesUnder(step, [] + rest) == LeavesUnder(step, rest)
  {
    assert ([leaf] + rest)[1..] == rest;
    assert [] + rest == rest;
  }

  /** Sanitizing keeps every scalar that is not hidden, in order and under the same keys, and no other. */
  lemma {:induction false} SanitizeKeepsTheRest(p: Policy, v: Json)
    requires Proper(v)
    ensures Traces(Leaves(Sanitize(p, v))) == Traces(Shown(p, v, Leaves(v)))
    decreases v, 1
  {
    match v
    case JArr(items) =>
      assert v.items[0..] == items;
      ItemsKept(p, v, 0, 0);
    case JObj(fields) =>
      if Restricted(p, fields) {
        ShownOfHidden(p, v, Leaves(v));
      } else {
        assert v.fields[0..] == fields;
        FieldsKept(p, v, 0);
      }
    case _ =>
  }

  lemma {:induction false} ItemsKept(p: Policy, v: Json, k: nat, i: nat)
    requires Proper(v) && v.JArr? && k <= |v.items|
    ensures Traces(ItemLeaves(SanitizeItems(p, v.items[k..]), i)) == Traces(Shown(p, v, ItemLeaves(v.items[k..], k)))
    decreases v, 0, |v.items| - k
  {
    if k < |v.items| {
      var item, rest := v.items[k], v.items[k + 1..];
      assert v.items[k..][0] == item && v.items[k..][1..] == rest;
      var first := Sanitize(p, item);
      var here := LeavesUnder(Index(k), Leaves(item));
      assert Traces(Shown(p, v, ItemLeaves(v.items[k..], k)))
          == Traces(Leaves(first)) + Traces(Shown(p, v, ItemLeaves(rest, k + 1))) by {
        SanitizeKeepsTheRest(p, item);
        ShownUnder(p, v, Index(k), item, Leaves(item));
        ShownOfSum(p, v, here, ItemLeaves(rest, k + 1));
        TracesOfSum(Shown(p, v, here), Shown(p, v, ItemLeaves(rest, k + 1)));
        TracesOfUnder(Index(k), Shown(p, item, Leaves(item)));
        TracesUnderIndex(k, Traces(Shown(p, item, Leaves(item))));
      }
      if first.JUndefined? {
        ItemsKept(p, v, k + 1, i);
        assert [] + SanitizeItems(p, rest) == SanitizeItems(p, rest);
        assert Traces(Leaves(first)) == [];
      } else {
        ItemsKept(p, v, k + 1, i + 1);
        FirstItemTraces(first, SanitizeItems(p, rest), i);
      }
    }
  }

  lemma FirstItemTraces(first: Json, rest: seq<Json>, i: nat)
    ensures Traces(ItemLeaves([first] + rest, i)) == Traces(Leaves(first)) + Traces(ItemLeaves(rest, i + 1))
  {
    assert ([first] + rest)[1..] == rest;
    TracesOfSum(LeavesUnder(Index(i), Leaves(first)), ItemLeaves(rest, i + 1));
    TracesOfUnder(Index(i), Leaves(first));
    TracesUnderIndex(i, Traces(Leaves(first)));
  }

  lemma {:induction false} FieldsKept(p: Policy, v: Json, k: nat)
    requires Proper(v) && v.JObj? && !Restricted(p, v.fields) && k <= |v.fields|
    ensures Traces(FieldLeaves(SanitizeFields(p, v.fields[k..]))) == Traces(Shown(p, v, FieldLeaves(v.fields[k..])))
    decreases v, 0, |v.fields| - k
  {
    if k < |v.fields| {
      var f, rest := v.fields[k], v.fields[k + 1..];
      assert v.fields[k..][0] == f && v.fields[k..][1..] == rest;
      var here := LeavesUnder(Key(f.key), Leaves(f.value));
      assert Traces(Shown(p, v, FieldLeaves(v.fields[k..])))
          == Traces(Shown(p, v, here)) + Traces(Shown(p, v, FieldLeaves(rest))) by {
        ShownOfSum(p, v, here, FieldLeaves(rest));
        TracesOfSum(Shown(p, v, here), Shown(p, v, FieldLeaves(rest)));
      }
      FieldKept(p, v, k);
      FieldsKept(p, v, k + 1);
      FirstFieldTraces(SanitizeField(p, f), SanitizeFields(p, rest));
    }
  }

  lemma FirstFieldTraces(first: seq<Field>, rest: seq<Field>)
    requires |first| <= 1
    ensures Traces(FieldLeaves(first + rest)) == Traces(FieldLeaves(first)) + Traces(FieldLeaves(rest))
  {
    if first == [] {
      assert first + rest == rest;
    } else {
      var here := LeavesUnder(Key(first[0].key), Leaves(first[0].value));
      assert (first + rest)[1..] == rest;
      assert FieldLeaves(first) == here + [] == here;
      TracesOfSum(here, FieldLeaves(rest));
    }
  }

  lemma FieldKept(p: Policy, v: Json, k: nat)
    requires Proper(v) && v.JObj? && !Restricted(p, v.fields) && k < |v.fields|
    ensures Traces(FieldLeaves(SanitizeField(p, v.fields[k]))) ==
      Traces(Shown(p, v, LeavesUnder(Key(v.fields[k].key), Leaves(v.fields[k].value))))
    decreases v, 0, 0
  {
    var f := v.fields[k];
    FindFrom(v.fields, k);
    ShownUnder(p, v, Key(f.key), f.value, Leaves(f.value));
    if !p.secretKey(f.key) {
      var value := Sanitize(p, f.value);
      SanitizeKeepsTheRest(p, f.value);
      TracesOfUnder(Key(f.key), Leaves(value));
      TracesOfUnder(Key(f.key), Shown(p, f.value, Leaves(f.value)));
      if Dropped(p, value) {
        assert Leaves(value) == [];
      } else {
        var here := LeavesUnder(Key(f.key), Leaves(value));
        assert FieldLeaves([Field(f.key, value)]) == here + [] == here;
      }
    }
  }
}
