/**
 The printer of provenance texts, which sorts keys while it writes, and exactly which
 values its text can be trusted for.
 */
module Provenance {
  import opened KeyOrder
  import opened Json
  import opened CanonicalText

  // ------------------------------------------------------------- the direct printer

  /** `stableStringify`: the text of a value followed by `tail`. */
  function DirectTo(j: Json, tail: string): string
    decreases j, 1, 0
  {
    match j
    case JUndefined => "undefined" + tail
    case JArr(items) => "[" + (if items == [] then "]" + tail else DirectItemTo(items[0], DirectItemsTo(items[1..], tail)))
    case JObj(fields) =>
      SortElements(CodeUnits, fields);
      var sorted := Sort(CodeUnits, fields);
      "{" + (if sorted == [] then "}" + tail else DirectFieldTo(j, sorted[0], DirectFieldsTo(j, sorted[1..], tail)))
    case _ => PrintTo(j, tail)
  }

  /** Joining writes nothing for an undefined item. */
  function DirectItemTo(item: Json, tail: string): string
    decreases item, 2, 0
  {
    if item.JUndefined? then tail else DirectTo(item, tail)
  }

  function DirectItemsTo(items: seq<Json>, tail: string): string
    decreases items, 0, 0
  {
    if items == [] then "]" + tail else "," + DirectItemTo(items[0], DirectItemsTo(items[1..], tail))
  }

  function DirectFieldTo(owner: Json, f: Field, tail: string): string
    requires owner.JObj? && f in owner.fields
    decreases owner, 0, 0
  {
    QuoteTo(f.key, ":" + DirectTo(f.value, tail))
  }

  function DirectFieldsTo(owner: Json, fields: seq<Field>, tail: string): string
    requires owner.JObj? && forall f :: f in fields ==> f in owner.fields
    decreases owner, 0, |fields|
  {
    if fields == [] then "}" + tail
    else "," + DirectFieldTo(owner, fields[0], DirectFieldsTo(owner, fields[1..], tail))
  }

  function DirectText(j: Json): string {
    DirectTo(j, "")
  }

  /** Nothing at any depth is undefined. */
  predicate Defined(j: Json) {
    match j
    case JUndefined => false
    case JArr(items) => forall i :: 0 <= i < |items| ==> Defined(items[i])
    case JObj(fields) => forall f :: f in fields ==> Defined(f.value)
    case _ => true
  }

  predicate NoneUndefined(fields: seq<Field>) {
    forall f :: f in fields ==> !f.value.JUndefined?
  }

  lemma NormalizeFirst(o: Order, f: Field, rest: seq<Field>)
    requires !f.value.JUndefined?
    ensures NormalizeFields(o, [f] + rest) == [Field(f.key, Normalize(o, f.value))] + NormalizeFields(o, rest)
  {
    assert ([f] + rest)[1..] == rest;
  }

  lemma {:induction false} InsertThenNormalize(o: Order, f: Field, sorted: seq<Field>)
    requires !f.value.JUndefined? && NoneUndefined(sorted)
    ensures NormalizeFields(o, Insert(o, f, sorted))
         == Insert(o, Field(f.key, Normalize(o, f.value)), NormalizeFields(o, sorted))
  {
    var g := Field(f.key, Normalize(o, f.value));
    if sorted == [] {
      NormalizeFirst(o, f, sorted);
    } else {
      var first, rest := sorted[0], sorted[1..];
      assert sorted == [first] + rest;
      NormalizeFirst(o, first, rest);
      InsertFirst(o, f, first, rest);
      InsertFirst(o, g, Field(first.key, Normalize(o, first.value)), NormalizeFields(o, rest));
      if Before(o, f.key, first.key) {
        NormalizeFirst(o, f, sorted);
      } else {
        InsertThenNormalize(o, f, rest);
        NormalizeFirst(o, first, Insert(o, f, rest));
      }
    }
  }

  /** Sorting by key and normalizing the values can be done in either order. */
  lemma {:induction false} SortThenNormalize(o: Order, fields: seq<Field>)
    requires NoneUndefined(fields)
    ensures NormalizeFields(o, Sort(o, fields)) == Sort(o, NormalizeFields(o, fields))
  {
    if fields != [] {
      SortThenNormalize(o, fields[1..]);
      SortElements(o, fields[1..]);
      InsertThenNormalize(o, fields[0], Sort(o, fields[1..]));
      NormalizeFirst(o, fields[0], fields[1..]);
      assert fields == [fields[0]] + fields[1..];
    }
  }

  /** Printing while sorting writes what sorting first and then printing writes. */
  lemma {:induction false} DirectIsCanonical(j: Json, tail: string)
    requires Defined(j) && Hashable(j)
    ensures DirectTo(j, tail) == PrintTo(Normalize(CodeUnits, j), tail)
    decreases j, 1, 0
  {
    match j
    case JArr(items) =>
      if items != [] {
        DirectItemsAreCanonical(items[1..], tail);
        DirectIsCanonical(items[0], ItemsTo(NormalizeItems(CodeUnits, items[1..]), tail));
      }
    case JObj(fields) =>
      SortElements(CodeUnits, fields);
      SortThenNormalize(CodeUnits, fields);
      DirectObjectIsCanonical(j, Sort(CodeUnits, fields), tail);
    case _ =>
  }

  lemma {:induction false} DirectObjectIsCanonical(j: Json, sorted: seq<Field>, tail: string)
    requires j.JObj? && Defined(j) && Hashable(j)
    requires forall f :: f in sorted ==> f in j.fields
    ensures "{" + (if sorted == [] then "}" + tail else DirectFieldTo(j, sorted[0], DirectFieldsTo(j, sorted[1..], tail)))
         == PrintTo(JObj(NormalizeFields(CodeUnits, sorted)), tail)
    decreases j, 0, |sorted|
  {
    if sorted != [] {
      var first, rest := sorted[0], sorted[1..];
      assert first in j.fields;
      assert sorted == [first] + rest;
      NormalizeFirst(CodeUnits, first, rest);
      DirectFieldsAreCanonical(j, rest, tail);
      DirectIsCanonical(first.value, FieldsTo(NormalizeFields(CodeUnits, rest), tail));
    }
  }

  lemma {:induction false} DirectItemsAreCanonical(items: seq<Json>, tail: string)
    requires forall i :: 0 <= i < |items| ==> Defined(items[i]) && Hashable(items[i])
    ensures DirectItemsTo(items, tail) == ItemsTo(NormalizeItems(CodeUnits, items), tail)
    decreases items, 0, 0
  {
    if items != [] {
      DirectItemsAreCanonical(items[1..], tail);
      DirectIsCanonical(items[0], ItemsTo(NormalizeItems(CodeUnits, items[1..]), tail));
    }
  }

  lemma {:induction false} DirectFieldsAreCanonical(owner: Json, fields: seq<Field>, tail: string)
    requires owner.JObj? && Defined(owner) && Hashable(owner)
    requires forall f :: f in fields ==> f in owner.fields
    ensures DirectFieldsTo(owner, fields, tail) == FieldsTo(NormalizeFields(CodeUnits, fields), tail)
    decreases owner, 0, |fields|
  {
    if fields != [] {
      DirectFieldsAreCanonical(owner, fields[1..], tail);
      assert fields[0] in owner.fields;
      assert fields == [fields[0]] + fields[1..];
      NormalizeFirst(CodeUnits, fields[0], fields[1..]);
      DirectIsCanonical(fields[0].value, FieldsTo(NormalizeFields(CodeUnits, fields[1..]), tail));
    }
  }

  /** Provenance texts of values without undefined parts are equal exactly when the values mean the same. */
  lemma DirectTextIffMeaning(a: Json, b: Json)
    requires Canonical(a) && Canonical(b) && Defined(a) && Defined(b)
    ensures DirectText(a) == DirectText(b) <==> Denote(a) == Denote(b)
  {
    DirectIsCanonical(a, "");
    DirectIsCanonical(b, "");
    TextIffMeaning(CodeUnits, a, b);
  }

  /** An undefined item is not written, and an undefined property is: in both cases the text says something else. */
  lemma UndefinedMisleads()
    ensures var a, b := JArr([JUndefined]), JArr([]);
      Canonical(a) && Canonical(b) && DirectText(a) == DirectText(b) && Denote(a) != Denote(b)
    ensures var a, b := JObj([Field("k", JUndefined)]), JObj([]);
      Canonical(a) && Canonical(b) && DirectText(a) != DirectText(b) && Denote(a) == Denote(b)
  {
    var a, b := JArr([JUndefined]), JArr([]);
    assert DirectItemsTo([], "") == "]";
    assert |DenoteItems([JUndefined])| == 1;
    assert Denote(a).items != Denote(b).items;
    var o := JObj([Field("k", JUndefined)]);
    SortElements(CodeUnits, o.fields);
    SortElements(CodeUnits, []);
    assert DirectText(o)[1] == '"';
    assert DirectText(JObj([]))[1] == '}';
  }

  // ------------------------------------------------- exactly when the text can be trusted

  lemma DirectOpens(j: Json, x: string)
    requires j.JArr? || j.JObj?
    ensures DirectTo(j, x) != "" && DirectTo(j, x)[0] == if j.JArr? then '[' else '{'
  {
    if j.JObj? {
      SortElements(CodeUnits, j.fields);
    }
  }

  /** The first character tells what kind of value is written. */
  lemma DirectHead(j: Json, x: string)
    requires Hashable(j)
    ensures DirectTo(j, x) != ""
    ensures j.JUndefined? ==> DirectTo(j, x)[0] == 'u'
    ensures !j.JUndefined? ==>
      var c := DirectTo(j, x)[0];
      (if IsNumeric(c) then '0' else c) == Kind(Denote(j))
  {
    if j.JArr? || j.JObj? {
      DirectOpens(j, x);
    } else if j.JUndefined? {
      assert DirectTo(j, x) == "undefined" + x;
    } else {
      assert DirectTo(j, x) == PrintTo(j, x);
      PrintHead(j, x);
    }
  }

  lemma DirectItemsHead(items: seq<Json>, x: string)
    ensures var text := DirectItemsTo(items, x); text != "" && text[0] == if items == [] then ']' else ','
  {
  }

  /**
   The main step of the converse: where a printed value makes the text of a value, the same
   text follows, and only a value without undefined parts can mean what was printed.
   */
  lemma {:induction false} DirectPrefix(a: Json, b: Json, x: string, y: string)
    requires Canonical(a) && Printable(b) && Ends(x) && Ends(y)
    requires DirectTo(a, x) == PrintTo(b, y)
    ensures x == y && (Denote(a) == Denote(b) ==> Defined(a))
    decreases a, 1, 0
  {
    DirectHead(a, x);
    PrintHead(b, y);
    match a
    case JUndefined =>
    case JArr(items) => DirectArrayPrefix(items, b.items, x, y);
    case JObj(fields) => DirectObjectPrefix(a, b.fields, x, y);
    case _ => PrintPrefix(a, b, x, y);
  }

  lemma {:induction false} DirectArrayPrefix(items: seq<Json>, qs: seq<Json>, x: string, y: string)
    requires (forall i :: 0 <= i < |items| ==> Canonical(items[i])) && (forall i :: 0 <= i < |qs| ==> Printable(qs[i]))
    requires Ends(x) && Ends(y) && DirectTo(JArr(items), x) == PrintTo(JArr(qs), y)
    ensures x == y && (DenoteItems(items) == DenoteItems(qs) ==> forall i :: 0 <= i < |items| ==> Defined(items[i]))
    decreases items, 2, 0
  {
    ArrayHead(qs, y);
    if items == [] || items == [JUndefined] {
      assert DirectTo(JArr(items), x) == "[" + ("]" + x) == "[]" + x;
      WordPrefix("[]", x, y);
    } else {
      var inner := DirectItemTo(items[0], DirectItemsTo(items[1..], x));
      assert DirectTo(JArr(items), x) == "[" + inner;
      DirectItemsHead(items[1..], x);
      DirectHead(items[0], DirectItemsTo(items[1..], x));
      assert DirectTo(JArr(items), x)[1] == inner[0];
      assert qs != [];
      PrintHead(qs[0], ItemsTo(qs[1..], y));
      WordPrefix("[", inner, PrintTo(qs[0], ItemsTo(qs[1..], y)));
      DirectNextItem(items, qs, x, y);
    }
  }

  lemma {:induction false} DirectNextItem(items: seq<Json>, qs: seq<Json>, x: string, y: string)
    requires items != [] && qs != [] && !items[0].JUndefined?
    requires (forall i :: 0 <= i < |items| ==> Canonical(items[i])) && (forall i :: 0 <= i < |qs| ==> Printable(qs[i]))
    requires Ends(x) && Ends(y)
    requires DirectTo(items[0], DirectItemsTo(items[1..], x)) == PrintTo(qs[0], ItemsTo(qs[1..], y))
    ensures x == y && (DenoteItems(items) == DenoteItems(qs) ==> forall i :: 0 <= i < |items| ==> Defined(items[i]))
    decreases items, 0, 0
  {
    DirectItemsHead(items[1..], x);
    DirectPrefix(items[0], qs[0], DirectItemsTo(items[1..], x), ItemsTo(qs[1..], y));
    DirectItemsPrefix(items[1..], qs[1..], x, y);
    if DenoteItems(items) == DenoteItems(qs) {
      SplitItems(items, qs);
      assert forall i :: 0 < i < |items| ==> items[i] == items[1..][i - 1];
    }
  }

  lemma {:induction false} DirectItemsPrefix(items: seq<Json>, qs: seq<Json>, x: string, y: string)
    requires (forall i :: 0 <= i < |items| ==> Canonical(items[i])) && (forall i :: 0 <= i < |qs| ==> Printable(qs[i]))
    requires Ends(x) && Ends(y) && DirectItemsTo(items, x) == ItemsTo(qs, y)
    ensures x == y && (DenoteItems(items) == DenoteItems(qs) ==> forall i :: 0 <= i < |items| ==> Defined(items[i]))
    decreases items, 1, 0
  {
    DirectItemsHead(items, x);
    assert ItemsTo(qs, y)[0] == (if qs == [] then ']' else ',');
    if items == [] {
      WordPrefix("]", x, y);
    } else {
      DirectItemsHead(items[1..], x);
      PrintHead(qs[0], ItemsTo(qs[1..], y));
      WordPrefix(",", DirectItemTo(items[0], DirectItemsTo(items[1..], x)), PrintTo(qs[0], ItemsTo(qs[1..], y)));
      DirectNextItem(items, qs, x, y);
    }
  }

  /** The same keys in the same order, and none of the values is undefined. */
  predicate SameKeys(fs: seq<Field>, gs: seq<Field>) {
    && |fs| == |gs|
    && forall i :: 0 <= i < |fs| ==> fs[i].key == gs[i].key && !fs[i].value.JUndefined?
  }

  /** Values that mean the same have no undefined parts. */
  predicate DefinedWhereSame(fs: seq<Field>, gs: seq<Field>)
    requires |fs| == |gs|
  {
    forall i :: 0 <= i < |fs| ==> Denote(fs[i].value) == Denote(gs[i].value) ==> Defined(fs[i].value)
  }

  lemma {:induction false} DirectObjectPrefix(a: Json, gs: seq<Field>, x: string, y: string)
    requires a.JObj? && Canonical(a) && PrintableFields(gs)
    requires Ends(x) && Ends(y) && DirectTo(a, x) == PrintTo(JObj(gs), y)
    ensures x == y && (DenoteFields(a.fields) == DenoteFields(gs) ==> Defined(a))
    decreases a, 0, 2 * |a.fields| + 2
  {
    var sorted := Sort(CodeUnits, a.fields);
    SortElements(CodeUnits, a.fields);
    ObjectHead(gs, y);
    if sorted == [] {
      assert "{" + ("}" + x) == "{}" + x;
      WordPrefix("{}", x, y);
    } else {
      var inner := DirectFieldTo(a, sorted[0], DirectFieldsTo(a, sorted[1..], x));
      assert ("{" + inner)[1] == inner[0] == '"';
      WordPrefix("{", inner, FieldTo(gs[0], FieldsTo(gs[1..], y)));
      DirectNextField(a, sorted, gs, x, y);
    }
    SortedFieldsDefined(a, sorted, gs);
  }

  lemma SortedFieldsDefined(a: Json, sorted: seq<Field>, gs: seq<Field>)
    requires a.JObj? && Canonical(a) && sorted == Sort(CodeUnits, a.fields)
    requires SameKeys(sorted, gs) && DefinedWhereSame(sorted, gs)
    ensures DenoteFields(a.fields) == DenoteFields(gs) ==> Defined(a)
  {
    SortElements(CodeUnits, a.fields);
    SortMeans(CodeUnits, a.fields);
    forall i, j | 0 <= i < j < |sorted|
      ensures sorted[i].key != sorted[j].key
    {
      BeforeIsStrictTotal(CodeUnits, sorted[i].key, sorted[j].key, sorted[i].key);
    }
    if DenoteFields(a.fields) == DenoteFields(gs) {
      SameKeysSameFields(sorted, gs);
      forall f | f in a.fields
        ensures Defined(f.value)
      {
        var i :| 0 <= i < |sorted| && sorted[i] == f;
      }
    }
  }

  lemma {:induction false} DirectNextField(owner: Json, fs: seq<Field>, gs: seq<Field>, x: string, y: string)
    requires owner.JObj? && Canonical(owner) && PrintableFields(gs) && fs != [] && gs != []
    requires forall f :: f in fs ==> f in owner.fields
    requires Ends(x) && Ends(y)
    requires DirectFieldTo(owner, fs[0], DirectFieldsTo(owner, fs[1..], x)) == FieldTo(gs[0], FieldsTo(gs[1..], y))
    ensures x == y && SameKeys(fs, gs) && DefinedWhereSame(fs, gs)
    decreases owner, 0, 2 * |fs|
  {
    var f, g := fs[0], gs[0];
    assert f in owner.fields;
    var u, v := DirectTo(f.value, DirectFieldsTo(owner, fs[1..], x)), PrintTo(g.value, FieldsTo(gs[1..], y));
    QuotePrefix(f.key, g.key, ":" + u, ":" + v);
    WordPrefix(":", u, v);
    DirectHead(f.value, DirectFieldsTo(owner, fs[1..], x));
    PrintHead(g.value, FieldsTo(gs[1..], y));
    DirectFieldsHead(owner, fs[1..], x);
    DirectPrefix(f.value, g.value, DirectFieldsTo(owner, fs[1..], x), FieldsTo(gs[1..], y));
    DirectFieldsPrefix(owner, fs[1..], gs[1..], x, y);
    FieldsAtFirst(fs, gs);
  }

  lemma DirectFieldsHead(owner: Json, fs: seq<Field>, x: string)
    requires owner.JObj? && forall f :: f in fs ==> f in owner.fields
    ensures var text := DirectFieldsTo(owner, fs, x); text != "" && text[0] == if fs == [] then '}' else ','
  {
  }

  lemma FieldsAtFirst(fs: seq<Field>, gs: seq<Field>)
    requires fs != [] && gs != [] && SameKeys(fs[1..], gs[1..]) && DefinedWhereSame(fs[1..], gs[1..])
    requires fs[0].key == gs[0].key && !fs[0].value.JUndefined?
    requires Denote(fs[0].value) == Denote(gs[0].value) ==> Defined(fs[0].value)
    ensures SameKeys(fs, gs) && DefinedWhereSame(fs, gs)
  {
    assert forall i :: 0 < i < |fs| ==> fs[i] == fs[1..][i - 1] && gs[i] == gs[1..][i - 1];
  }

  lemma {:induction false} DirectFieldsPrefix(owner: Json, fs: seq<Field>, gs: seq<Field>, x: string, y: string)
    requires owner.JObj? && Canonical(owner) && PrintableFields(gs)
    requires forall f :: f in fs ==> f in owner.fields
    requires Ends(x) && Ends(y) && DirectFieldsTo(owner, fs, x) == FieldsTo(gs, y)
    ensures x == y && SameKeys(fs, gs) && DefinedWhereSame(fs, gs)
    decreases owner, 0, 2 * |fs| + 1
  {
    DirectFieldsHead(owner, fs, x);
    assert FieldsTo(gs, y)[0] == (if gs == [] then '}' else ',');
    if fs == [] {
      WordPrefix("}", x, y);
    } else {
      WordPrefix(",", DirectFieldTo(owner, fs[0], DirectFieldsTo(owner, fs[1..], x)), FieldTo(gs[0], FieldsTo(gs[1..], y)));
      DirectNextField(owner, fs, gs, x, y);
    }
  }

  /** The same meaning without undefined parts: null for an undefined item, nothing for an undefined property. */
  function Tidy(j: Json): Json {
    match j
    case JUndefined => JNull
    case JArr(items) => JArr(TidyItems(items))
    case JObj(fields) => JObj(TidyFields(fields))
    case _ => j
  }

  function TidyItems(items: seq<Json>): seq<Json> {
    if items == [] then [] else [Tidy(items[0])] + TidyItems(items[1..])
  }

  function TidyFields(fields: seq<Field>): seq<Field> {
    if fields == [] then []
    else (if fields[0].value.JUndefined? then [] else [Field(fields[0].key, Tidy(fields[0].value))]) + TidyFields(fields[1..])
  }

  lemma {:induction false} TidyMeans(j: Json)
    ensures Denote(Tidy(j)) == Denote(j)
    decreases j, 1
  {
    match j
    case JArr(items) => TidyItemsMean(items);
    case JObj(fields) => TidyFieldsMean(fields);
    case _ =>
  }

  lemma {:induction false} TidyItemsMean(items: seq<Json>)
    ensures DenoteItems(TidyItems(items)) == DenoteItems(items)
    decreases items, 0
  {
    if items != [] {
      TidyMeans(items[0]);
      TidyItemsMean(items[1..]);
      assert ([Tidy(items[0])] + TidyItems(items[1..]))[1..] == TidyItems(items[1..]);
    }
  }

  lemma {:induction false} TidyFieldsMean(fields: seq<Field>)
    ensures DenoteFields(TidyFields(fields)) == DenoteFields(fields)
    decreases fields, 0
  {
    if fields != [] {
      var f, rest := fields[0], TidyFields(fields[1..]);
      TidyFieldsMean(fields[1..]);
      if f.value.JUndefined? {
        assert TidyFields(fields) == rest;
      } else {
        TidyMeans(f.value);
        assert !Tidy(f.value).JUndefined?;
        assert TidyFields(fields)[1..] == rest;
      }
    }
  }

  lemma {:induction false} TidyIsDefined(j: Json)
    requires Canonical(j)
    ensures Canonical(Tidy(j)) && Defined(Tidy(j))
    decreases j, 1
  {
    match j
    case JArr(items) =>
      TidyItemsDefined(items);
      var tidy := TidyItems(items);
      forall i | 0 <= i < |tidy|
        ensures Canonical(tidy[i]) && Defined(tidy[i])
      {
        assert tidy[i] in tidy;
      }
    case JObj(fields) =>
      TidyFieldsDefined(fields);
      var tidy := TidyFields(fields);
      forall i | 0 <= i < |tidy|
        ensures Canonical(tidy[i].value) && Defined(tidy[i].value)
      {
        assert tidy[i] in tidy;
      }
    case _ =>
  }

  lemma {:induction false} TidyItemsDefined(items: seq<Json>)
    requires forall i :: 0 <= i < |items| ==> Canonical(items[i])
    ensures forall t :: t in TidyItems(items) ==> Canonical(t) && Defined(t)
    decreases items, 0
  {
    if items != [] {
      TidyIsDefined(items[0]);
      TidyItemsDefined(items[1..]);
    }
  }

  lemma {:induction false} TidyFieldsDefined(fields: seq<Field>)
    requires DistinctKeys(fields) && forall i :: 0 <= i < |fields| ==> Canonical(fields[i].value)
    ensures var tidy := TidyFields(fields);
      && DistinctKeys(tidy)
      && (forall f :: f in tidy ==> Canonical(f.value) && Defined(f.value))
      && (forall f :: f in tidy ==> HasKey(fields, f.key))
    decreases fields, 0
  {
    if fields != [] {
      var f, rest := fields[0], TidyFields(fields[1..]);
      TidyFieldsDefined(fields[1..]);
      forall g | g in rest
        ensures g.key != f.key && HasKey(fields, g.key)
      {
        var i :| 0 <= i < |fields[1..]| && fields[1..][i].key == g.key;
        assert fields[i + 1].key == g.key;
      }
      if !f.value.JUndefined? {
        TidyIsDefined(f.value);
        assert HasKey(fields, f.key);
      }
    }
  }

  /** Among values without undefined parts, exactly those that mean the same have this value's text. */
  ghost predicate Separates(a: Json) {
    forall b :: Canonical(b) && Defined(b) ==> (DirectText(b) == DirectText(a) <==> Denote(b) == Denote(a))
  }

  /** The text of a value can be trusted exactly when nothing in it is undefined. */
  lemma SeparatesExactly(a: Json)
    requires Canonical(a)
    ensures Separates(a) <==> Defined(a)
  {
    if Defined(a) {
      forall b | Canonical(b) && Defined(b)
        ensures DirectText(b) == DirectText(a) <==> Denote(b) == Denote(a)
      {
        DirectTextIffMeaning(a, b);
      }
    } else {
      var b := Tidy(a);
      TidyMeans(a);
      TidyIsDefined(a);
      DirectIsCanonical(b, "");
      NormalizeMeans(CodeUnits, b);
      NormalizePrintable(CodeUnits, b);
      if DirectText(b) == DirectText(a) {
        DirectPrefix(a, Normalize(CodeUnits, b), "", "");
      }
      assert Denote(b) == Denote(a) && DirectText(b) != DirectText(a);
    }
  }
}
