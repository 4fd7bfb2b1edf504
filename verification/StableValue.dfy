/**
 The normalizer of the eval runner as the loops it is: keys are visited in sorted
 order and put into a new record, undefined values are skipped, and a value without
 a canonical text stops the whole normalization.
 */
module StableValue {
  import opened Wrappers
  import opened KeyOrder
  import opened Json
  import opened CanonicalText

  /** None stands for the thrown error.  A record lists its keys in property order. */
  method NormalizeStableValue(value: Json) returns (r: Option<Json>)
    requires Proper(value)
    ensures r.Some? <==> Hashable(value)
    ensures r.Some? ==> Normal(Properties, r.value) && Denote(r.value) == Denote(value)
    ensures r.Some? ==> (r.value.JUndefined? <==> value.JUndefined?)
    decreases value, 1
  {
    match value
    case JForeign(_) => return None;
    case JArr(items) =>
      var normalized := NormalizeArray(items);
      return if normalized.Some? then Some(JArr(normalized.value)) else None;
    case JObj(fields) =>
      var normalized := NormalizeRecord(fields);
      return if normalized.Some? then Some(JObj(normalized.value)) else None;
    case _ => return Some(value);
  }

  /** What the loop over items has built so far. */
  predicate ItemsBuilt(items: seq<Json>, i: nat, normalized: seq<Json>)
    requires i <= |items|
  {
    && |normalized| == i
    && (forall k :: 0 <= k < i ==> Hashable(items[k]) && Normal(Properties, normalized[k]))
    && DenoteItems(normalized) + DenoteItems(items[i..]) == DenoteItems(items)
  }

  lemma NextItemBuilt(items: seq<Json>, i: nat, normalized: seq<Json>, item: Json)
    requires i < |items| && ItemsBuilt(items, i, normalized)
    requires Hashable(items[i]) && Normal(Properties, item) && Denote(item) == Denote(items[i])
    ensures ItemsBuilt(items, i + 1, normalized + [item])
  {
    DenoteItemsAppend(normalized, item);
    assert items[i..][0] == items[i] && items[i..][1..] == items[i + 1..];
    var rest := DenoteItems(items[i + 1..]);
    assert DenoteItems(normalized) + ([Denote(item)] + rest) == (DenoteItems(normalized) + [Denote(item)]) + rest;
  }

  method NormalizeArray(items: seq<Json>) returns (r: Option<seq<Json>>)
    requires forall i :: 0 <= i < |items| ==> Proper(items[i])
    ensures r.Some? <==> forall i :: 0 <= i < |items| ==> Hashable(items[i])
    ensures r.Some? ==> |r.value| == |items| && DenoteItems(r.value) == DenoteItems(items)
    ensures r.Some? ==> forall i :: 0 <= i < |items| ==> Normal(Properties, r.value[i])
    decreases items, 0
  {
    var normalized: seq<Json> := [];
    assert items[0..] == items;
    for i := 0 to |items|
      invariant ItemsBuilt(items, i, normalized)
    {
      var item := NormalizeStableValue(items[i]);
      if item.None? {
        return None;
      }
      NextItemBuilt(items, i, normalized, item.value);
      normalized := normalized + [item.value];
    }
    assert items[|items|..] == [];
    return Some(normalized);
  }

  lemma {:induction false} DenoteItemsAppend(items: seq<Json>, item: Json)
    ensures DenoteItems(items + [item]) == DenoteItems(items) + [Denote(item)]
  {
    if items == [] {
      assert [] + [item] == [item];
    } else {
      assert (items + [item])[1..] == items[1..] + [item];
      DenoteItemsAppend(items[1..], item);
    }
  }

  /** The record built from the keys in `done`. */
  ghost predicate Built(done: seq<Field>, record: seq<Field>) {
    && Ascending(Properties, record) && NormalFields(Properties, record)
    && (forall i :: 0 <= i < |record| ==> HasKey(done, record[i].key))
    && (forall k :: 0 <= k < |done| ==> Hashable(done[k].value))
  }

  /** `if (value !== undefined) record[key] = value` */
  function Put(record: seq<Field>, key: string, value: Json): seq<Field> {
    if value.JUndefined? then record else Insert(Properties, Field(key, value), record)
  }

  /** The first `i` keys are in the record, and the rest of the meaning is still to come. */
  ghost predicate Progress(fields: seq<Field>, keys: seq<Field>, i: nat, record: seq<Field>) {
    && keys == Sort(CodeUnits, fields) && Ascending(CodeUnits, keys) && i <= |keys|
    && Built(keys[..i], record)
    && DenoteFields(fields) == DenoteFields(record) + DenoteFields(keys[i..])
  }

  lemma ProgressStarts(fields: seq<Field>)
    requires Proper(JObj(fields))
    ensures Progress(fields, Sort(CodeUnits, fields), 0, [])
  {
    var keys := Sort(CodeUnits, fields);
    SortMeans(CodeUnits, fields);
    assert keys[..0] == [] && keys[0..] == keys;
    assert DenoteFields([]) + DenoteFields(keys) == DenoteFields(keys);
  }

  method NormalizeRecord(fields: seq<Field>) returns (r: Option<seq<Field>>)
    requires Proper(JObj(fields))
    ensures r.Some? <==> Hashable(JObj(fields))
    ensures r.Some? ==> Normal(Properties, JObj(r.value)) && DenoteFields(r.value) == DenoteFields(fields)
    decreases JObj(fields), 0, 1
  {
    var keys := Sort(CodeUnits, fields);
    ProgressStarts(fields);
    r := NormalizeKeys(fields, keys);
    if r.Some? {
      AllVisited(fields, keys, r.value);
    }
  }

  /** The loop over the sorted keys of a record. */
  method NormalizeKeys(fields: seq<Field>, keys: seq<Field>) returns (r: Option<seq<Field>>)
    requires Proper(JObj(fields)) && Progress(fields, keys, 0, [])
    ensures r.None? ==> !Hashable(JObj(fields))
    ensures r.Some? ==> Progress(fields, keys, |keys|, r.value)
    decreases JObj(fields), 0, 0
  {
    var record: seq<Field> := [];
    var i := 0;
    while i < |keys|
      invariant 0 <= i <= |keys| && Progress(fields, keys, i, record)
    {
      KeyIsField(fields, keys, i);
      var value := NormalizeStableValue(keys[i].value);
      if value.None? {
        return None;
      }
      record := VisitKey(fields, keys, i, record, value.value);
      i := i + 1;
    }
    return Some(record);
  }

  /** One turn of the key loop: the record stays sorted and gains the key's property. */
  method VisitKey(ghost fields: seq<Field>, keys: seq<Field>, i: nat, record: seq<Field>, value: Json)
    returns (more: seq<Field>)
    requires i < |keys| && Progress(fields, keys, i, record) && Hashable(keys[i].value)
    requires Normal(Properties, value) && Denote(value) == Denote(keys[i].value)
    requires value.JUndefined? <==> keys[i].value.JUndefined?
    ensures Progress(fields, keys, i + 1, more)
  {
    more := Put(record, keys[i].key, value);
    PutMeans(keys, i, record, value);
  }

  lemma KeyIsField(fields: seq<Field>, keys: seq<Field>, i: nat)
    requires keys == Sort(CodeUnits, fields) && i < |keys| && Proper(JObj(fields))
    ensures keys[i].value < JObj(fields) && Proper(keys[i].value)
    ensures !Hashable(keys[i].value) ==> !Hashable(JObj(fields))
  {
    SortElements(CodeUnits, fields);
    assert keys[i] in fields;
    var k :| 0 <= k < |fields| && fields[k] == keys[i];
    assert fields[k].value < JObj(fields);
  }

  lemma AllVisited(fields: seq<Field>, keys: seq<Field>, record: seq<Field>)
    requires Progress(fields, keys, |keys|, record)
    ensures Hashable(JObj(fields))
    ensures Normal(Properties, JObj(record)) && DenoteFields(record) == DenoteFields(fields)
  {
    SortElements(CodeUnits, fields);
    assert keys[..|keys|] == keys && keys[|keys|..] == [];
    forall k | 0 <= k < |fields|
      ensures Hashable(fields[k].value)
    {
      assert fields[k] in keys;
    }
  }

  lemma BuiltLacks(keys: seq<Field>, i: nat, record: seq<Field>)
    requires i < |keys| && Ascending(CodeUnits, keys) && Built(keys[..i], record)
    ensures !HasKey(record, keys[i].key)
    ensures Built(keys[..i], record) && Hashable(keys[i].value) ==> Built(keys[..i + 1], record)
  {
    var done, done' := keys[..i], keys[..i + 1];
    assert done' == done + [keys[i]];
    forall k | 0 <= k < |record|
      ensures record[k].key != keys[i].key && HasKey(done', record[k].key)
    {
      var m :| 0 <= m < i && done[m].key == record[k].key;
      assert done'[m] == keys[m];
      BeforeIsStrictTotal(CodeUnits, keys[m].key, keys[i].key, keys[m].key);
    }
  }

  lemma BuiltMore(done: seq<Field>, record: seq<Field>, f: Field)
    requires Built(done, record) && !HasKey(record, f.key) && HasKey(done, f.key)
    requires Normal(Properties, f.value) && !f.value.JUndefined?
    ensures Built(done, Insert(Properties, f, record))
  {
    InsertAscends(Properties, f, record);
    InsertElements(Properties, f, record);
    var more := Insert(Properties, f, record);
    forall k | 0 <= k < |more|
      ensures !more[k].value.JUndefined? && Normal(Properties, more[k].value) && HasKey(done, more[k].key)
    {
      assert more[k] in more;
    }
  }

  lemma PutMeans(keys: seq<Field>, i: nat, record: seq<Field>, value: Json)
    requires i < |keys| && Ascending(CodeUnits, keys) && Built(keys[..i], record) && Hashable(keys[i].value)
    requires Normal(Properties, value) && Denote(value) == Denote(keys[i].value)
    requires value.JUndefined? <==> keys[i].value.JUndefined?
    ensures var more := Put(record, keys[i].key, value);
      && Built(keys[..i + 1], more)
      && DenoteFields(more) + DenoteFields(keys[i + 1..]) == DenoteFields(record) + DenoteFields(keys[i..])
  {
    BuiltLacks(keys, i, record);
    assert keys[i..][0] == keys[i] && keys[i..][1..] == keys[i + 1..];
    if !value.JUndefined? {
      assert keys[..i + 1][i].key == keys[i].key;
      BuiltMore(keys[..i + 1], record, Field(keys[i].key, value));
      InsertMeans(Properties, Field(keys[i].key, value), record);
      LaterKeysDiffer(keys, i);
      UpdateCommutes(DenoteFields(record), DenoteFields(keys[i + 1..]), keys[i].key, Denote(value));
    }
  }

  lemma UpdateCommutes(m: map<string, Value>, n: map<string, Value>, key: string, v: Value)
    requires key !in n
    ensures m[key := v] + n == m + n[key := v]
  {
  }

  lemma LaterKeysDiffer(keys: seq<Field>, i: nat)
    requires i < |keys| && Ascending(CodeUnits, keys)
    ensures keys[i].key !in DenoteFields(keys[i + 1..])
  {
    var later := keys[i + 1..];
    DenotedKeysOnly(later, keys[i].key);
    forall k | 0 <= k < |later|
      ensures later[k].key != keys[i].key
    {
      assert later[k] == keys[i + 1 + k];
      BeforeIsStrictTotal(CodeUnits, keys[i].key, keys[i + 1 + k].key, keys[i].key);
    }
  }

  lemma {:induction false} DenotedKeysOnly(fields: seq<Field>, key: string)
    ensures key in DenoteFields(fields) ==> HasKey(fields, key)
  {
    if fields != [] {
      DenotedKeysOnly(fields[1..], key);
      if HasKey(fields[1..], key) {
        var i :| 0 <= i < |fields[1..]| && fields[1..][i].key == key;
        assert fields[i + 1].key == key;
      }
      assert fields[0].key == key ==> HasKey(fields, key);
    }
  }

  /** The loops give the same canonical text as sorting and dropping by recursion. */
  lemma LoopTextIsStableText(value: Json, normalized: Json)
    requires Proper(value) && Hashable(value)
    requires Normal(Properties, normalized) && Denote(normalized) == Denote(value)
    ensures Print(normalized) == Print(Normalize(Properties, value))
  {
    NormalizeIsNormal(Properties, value);
    NormalizeMeans(Properties, value);
    MeaningGivesText(Properties, normalized, Normalize(Properties, value), "");
  }

  method StableStringify(value: Json) returns (text: Option<string>)
    requires Proper(value)
    ensures text == if Hashable(value) then Some(StableText(value)) else None
  {
    var normalized := NormalizeStableValue(value);
    if normalized.None? {
      return None;
    }
    if normalized.value.JUndefined? {
      return Some("undefined");
    }
    LoopTextIsStableText(value, normalized.value);
    return Some(Print(normalized.value));
  }
}
