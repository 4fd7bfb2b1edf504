/**
 Canonical text is unambiguous: two values have the same text exactly when they
 mean the same, that is, when they are equal up to object key order at every depth,
 undefined properties, and undefined array elements read as null.
 */
module CanonicalText {
  import opened Wrappers
  import opened Decimal
  import opened KeyOrder
  import opened Json

  // ------------------------------------------------- printed text is prefix-free

  /** Values that `JSON.stringify` writes in full: no property is undefined, nothing is foreign. */
  predicate Printable(j: Json) {
    match j
    case JArr(items) => forall i :: 0 <= i < |items| ==> Printable(items[i])
    case JObj(fields) => PrintableFields(fields)
    case JForeign(_) => false
    case _ => true
  }

  predicate PrintableFields(fields: seq<Field>) {
    forall i :: 0 <= i < |fields| ==> !fields[i].value.JUndefined? && Printable(fields[i].value)
  }

  /** What may follow a value inside a larger text. */
  predicate Ends(x: string) {
    x == "" || x[0] == ',' || x[0] == ']' || x[0] == '}'
  }

  lemma HexDigitInjective(a: nat, b: nat)
    requires a < 16 && b < 16 && HexDigit(a) == HexDigit(b)
    ensures a == b
  {
  }

  lemma EscapeHead(c: char)
    ensures Escape(c)[0] != '"'
    ensures Escape(c)[0] == '\\' <==> (c == '"' || c == '\\' || c < ' ')
    ensures Escape(c)[0] == '\\' ==> |Escape(c)| >= 2
    ensures Escape(c)[0] != '\\' ==> Escape(c) == [c]
  {
  }

  /** No escape is a prefix of another. */
  lemma EscapePrefix(c: char, d: char, u: string, v: string)
    requires Escape(c) + u == Escape(d) + v
    ensures c == d && u == v
  {
    var s, t := Escape(c) + u, Escape(d) + v;
    EscapeHead(c);
    EscapeHead(d);
    assert s[0] == Escape(c)[0] && t[0] == Escape(d)[0];
    if Escape(c)[0] == '\\' {
      assert s[1] == Escape(c)[1] && t[1] == Escape(d)[1];
      if |Escape(c)| == 6 && |Escape(d)| == 6 {
        assert s[4] == Escape(c)[4] == t[4] == Escape(d)[4];
        assert s[5] == Escape(c)[5] == t[5] == Escape(d)[5];
        HexDigitInjective(c as int / 16, d as int / 16);
        HexDigitInjective(c as int % 16, d as int % 16);
      }
    }
    assert c == d;
    assert u == s[|Escape(c)|..] && v == t[|Escape(c)|..];
  }

  lemma WordPrefix(word: string, x: string, y: string)
    requires word + x == word + y
    ensures x == y
  {
    assert (word + x)[|word|..] == x && (word + y)[|word|..] == y;
  }

  lemma EscapedHead(s: string, x: string)
    ensures EscapedTo(s, x) != "" && (EscapedTo(s, x)[0] == '"' <==> s == "")
  {
    if s != "" {
      EscapeHead(s[0]);
      assert EscapedTo(s, x)[0] == Escape(s[0])[0];
    }
  }

  lemma {:induction false} EscapedPrefix(s: string, t: string, x: string, y: string)
    requires EscapedTo(s, x) == EscapedTo(t, y)
    ensures s == t && x == y
  {
    EscapedHead(s, x);
    EscapedHead(t, y);
    if s == "" {
      WordPrefix("\"", x, y);
    } else {
      EscapePrefix(s[0], t[0], EscapedTo(s[1..], x), EscapedTo(t[1..], y));
      EscapedPrefix(s[1..], t[1..], x, y);
      assert s == [s[0]] + s[1..] && t == [t[0]] + t[1..];
    }
  }

  lemma QuotePrefix(s: string, t: string, x: string, y: string)
    requires QuoteTo(s, x) == QuoteTo(t, y)
    ensures s == t && x == y
  {
    WordPrefix("\"", EscapedTo(s, x), EscapedTo(t, y));
    EscapedPrefix(s, t, x, y);
  }

  predicate IsNumeric(c: char) {
    c == '-' || IsDigit(c)
  }

  predicate NumericHead(s: string) {
    s != "" && IsNumeric(s[0])
  }

  lemma RunHead(u: string, x: string)
    requires (forall c :: c in u ==> IsNumeric(c)) && !NumericHead(x)
    ensures NumericHead(u + x) <==> u != ""
  {
    if u == "" {
      assert u + x == x;
    } else {
      assert (u + x)[0] == u[0];
    }
  }

  /** A run of one character class that the other class ends is determined by the text. */
  lemma {:induction false} RunPrefix(u: string, v: string, x: string, y: string)
    requires u + x == v + y
    requires (forall c :: c in u ==> IsNumeric(c)) && (forall c :: c in v ==> IsNumeric(c))
    requires !NumericHead(x) && !NumericHead(y)
    ensures u == v && x == y
  {
    RunHead(u, x);
    RunHead(v, y);
    if u == "" {
      WordPrefix("", x, y);
    } else {
      assert (u + x)[0] == u[0] && (v + y)[0] == v[0];
      assert u[1..] + x == (u + x)[1..] && v[1..] + y == (v + y)[1..];
      RunPrefix(u[1..], v[1..], x, y);
      assert u == [u[0]] + u[1..] && v == [v[0]] + v[1..];
    }
  }

  lemma IntTextInjective(m: int, n: int)
    requires IntText(m) == IntText(n)
    ensures m == n
  {
    if m < 0 && n < 0 {
      assert NatText(-m) == IntText(m)[1..] && NatText(-n) == IntText(n)[1..];
    }
  }

  lemma IntPrefix(m: int, n: int, x: string, y: string)
    requires IntText(m) + x == IntText(n) + y && Ends(x) && Ends(y)
    ensures m == n && x == y
  {
    IntTextChars(m);
    IntTextChars(n);
    RunPrefix(IntText(m), IntText(n), x, y);
    IntTextInjective(m, n);
  }

  /** The first character tells what kind of value is printed. */
  function Kind(v: Value): char {
    match v
    case VNull => 'n'
    case VBool(b) => if b then 't' else 'f'
    case VNum(_) => '0'
    case VStr(_) => '"'
    case VArr(_) => '['
    case VObj(_) => '{'
  }

  lemma PrintHead(j: Json, x: string)
    requires Printable(j)
    ensures var text := PrintTo(j, x);
      && text != "" && (if IsNumeric(text[0]) then '0' else text[0]) == Kind(Denote(j))
  {
  }

  /**
   The main step: if two printed values, each followed by something that ends a
   value, make the same text, they mean the same and the same text follows.
   */
  lemma {:induction false} PrintPrefix(a: Json, b: Json, x: string, y: string)
    requires Printable(a) && Printable(b) && Ends(x) && Ends(y)
    requires PrintTo(a, x) == PrintTo(b, y)
    ensures Denote(a) == Denote(b) && x == y
    decreases a, 1
  {
    PrintHead(a, x);
    PrintHead(b, y);
    match a
    case JNum(m) => IntPrefix(m, b.n, x, y);
    case JStr(s) => QuotePrefix(s, b.s, x, y);
    case JArr(items) => ArrayPrefix(items, b.items, x, y);
    case JObj(fields) => ObjectPrefix(fields, b.fields, x, y);
    case JBool(bit) => WordPrefix(if bit then "true" else "false", x, y);
    case _ => WordPrefix("null", x, y);
  }

  lemma {:induction false} ArrayPrefix(ps: seq<Json>, qs: seq<Json>, x: string, y: string)
    requires forall i :: 0 <= i < |ps| ==> Printable(ps[i])
    requires forall i :: 0 <= i < |qs| ==> Printable(qs[i])
    requires PrintTo(JArr(ps), x) == PrintTo(JArr(qs), y)
    ensures DenoteItems(ps) == DenoteItems(qs) && x == y
    decreases ps, 2
  {
    ArrayHead(ps, x);
    ArrayHead(qs, y);
    if ps == [] {
      WordPrefix("[]", x, y);
    } else {
      WordPrefix("[", PrintTo(ps[0], ItemsTo(ps[1..], x)), PrintTo(qs[0], ItemsTo(qs[1..], y)));
      NextItem(ps, qs, x, y);
    }
  }

  /** Inside the brackets, the next character tells whether anything is there. */
  lemma ArrayHead(ps: seq<Json>, x: string)
    requires forall i :: 0 <= i < |ps| ==> Printable(ps[i])
    ensures var text := PrintTo(JArr(ps), x); |text| >= 2 && (text[1] == ']' <==> ps == [])
    ensures ps == [] ==> PrintTo(JArr(ps), x) == "[]" + x
  {
    if ps == [] {
      assert "[" + ("]" + x) == "[]" + x;
    } else {
      var inner := PrintTo(ps[0], ItemsTo(ps[1..], x));
      PrintHead(ps[0], ItemsTo(ps[1..], x));
      assert ("[" + inner)[1] == inner[0];
    }
  }

  lemma {:induction false} NextItem(ps: seq<Json>, qs: seq<Json>, x: string, y: string)
    requires ps != [] && qs != []
    requires forall i :: 0 <= i < |ps| ==> Printable(ps[i])
    requires forall i :: 0 <= i < |qs| ==> Printable(qs[i])
    requires PrintTo(ps[0], ItemsTo(ps[1..], x)) == PrintTo(qs[0], ItemsTo(qs[1..], y))
    ensures DenoteItems(ps) == DenoteItems(qs) && x == y
    decreases ps, 0
  {
    PrintPrefix(ps[0], qs[0], ItemsTo(ps[1..], x), ItemsTo(qs[1..], y));
    ItemsPrefix(ps[1..], qs[1..], x, y);
  }

  lemma {:induction false} ItemsPrefix(ps: seq<Json>, qs: seq<Json>, x: string, y: string)
    requires forall i :: 0 <= i < |ps| ==> Printable(ps[i])
    requires forall i :: 0 <= i < |qs| ==> Printable(qs[i])
    requires ItemsTo(ps, x) == ItemsTo(qs, y)
    ensures DenoteItems(ps) == DenoteItems(qs) && x == y
    decreases ps, 1
  {
    assert ItemsTo(ps, x)[0] == (if ps == [] then ']' else ',');
    assert ItemsTo(qs, y)[0] == (if qs == [] then ']' else ',');
    if ps == [] {
      WordPrefix("]", x, y);
    } else {
      WordPrefix(",", PrintTo(ps[0], ItemsTo(ps[1..], x)), PrintTo(qs[0], ItemsTo(qs[1..], y)));
      NextItem(ps, qs, x, y);
    }
  }

  lemma {:induction false} ObjectPrefix(fs: seq<Field>, gs: seq<Field>, x: string, y: string)
    requires PrintableFields(fs) && PrintableFields(gs)
    requires PrintTo(JObj(fs), x) == PrintTo(JObj(gs), y)
    ensures DenoteFields(fs) == DenoteFields(gs) && x == y
    decreases fs, 2
  {
    ObjectHead(fs, x);
    ObjectHead(gs, y);
    if fs == [] {
      WordPrefix("{}", x, y);
    } else {
      WordPrefix("{", FieldTo(fs[0], FieldsTo(fs[1..], x)), FieldTo(gs[0], FieldsTo(gs[1..], y)));
      NextField(fs, gs, x, y);
    }
  }

  lemma ObjectHead(fs: seq<Field>, x: string)
    ensures var text := PrintTo(JObj(fs), x); |text| >= 2 && (text[1] == '}' <==> fs == [])
    ensures fs == [] ==> PrintTo(JObj(fs), x) == "{}" + x
  {
    if fs == [] {
      assert "{" + ("}" + x) == "{}" + x;
    } else {
      var inner := FieldTo(fs[0], FieldsTo(fs[1..], x));
      assert ("{" + inner)[1] == inner[0] == '"';
    }
  }

  lemma {:induction false} NextField(fs: seq<Field>, gs: seq<Field>, x: string, y: string)
    requires fs != [] && gs != [] && PrintableFields(fs) && PrintableFields(gs)
    requires FieldTo(fs[0], FieldsTo(fs[1..], x)) == FieldTo(gs[0], FieldsTo(gs[1..], y))
    ensures DenoteFields(fs) == DenoteFields(gs) && x == y
    decreases fs, 0
  {
    var u, v := PrintTo(fs[0].value, FieldsTo(fs[1..], x)), PrintTo(gs[0].value, FieldsTo(gs[1..], y));
    QuotePrefix(fs[0].key, gs[0].key, ":" + u, ":" + v);
    WordPrefix(":", u, v);
    PrintPrefix(fs[0].value, gs[0].value, FieldsTo(fs[1..], x), FieldsTo(gs[1..], y));
    FieldsPrefix(fs[1..], gs[1..], x, y);
  }

  lemma {:induction false} FieldsPrefix(fs: seq<Field>, gs: seq<Field>, x: string, y: string)
    requires PrintableFields(fs) && PrintableFields(gs)
    requires FieldsTo(fs, x) == FieldsTo(gs, y)
    ensures DenoteFields(fs) == DenoteFields(gs) && x == y
    decreases fs, 1
  {
    assert FieldsTo(fs, x)[0] == (if fs == [] then '}' else ',');
    assert FieldsTo(gs, y)[0] == (if gs == [] then '}' else ',');
    if fs == [] {
      WordPrefix("}", x, y);
    } else {
      WordPrefix(",", FieldTo(fs[0], FieldsTo(fs[1..], x)), FieldTo(gs[0], FieldsTo(gs[1..], y)));
      NextField(fs, gs, x, y);
    }
  }

  // ------------------------------------------------- normalizing keeps the meaning

  lemma {:induction false} NormalizePrintable(o: Order, j: Json)
    requires Hashable(j)
    ensures Printable(Normalize(o, j))
    decreases j, 1
  {
    match j
    case JArr(items) =>
      forall i | 0 <= i < |items|
        ensures Printable(NormalizeItems(o, items)[i])
      {
        NormalizePrintable(o, items[i]);
      }
    case JObj(fields) =>
      NormalizeFieldsPrintable(o, fields);
      SortElements(o, NormalizeFields(o, fields));
    case _ =>
  }

  lemma {:induction false} NormalizeFieldsPrintable(o: Order, fields: seq<Field>)
    requires forall i :: 0 <= i < |fields| ==> Hashable(fields[i].value)
    ensures forall f :: f in NormalizeFields(o, fields) ==> !f.value.JUndefined? && Printable(f.value)
    decreases fields, 0
  {
    if fields != [] {
      NormalizePrintable(o, fields[0].value);
      NormalizeFieldsPrintable(o, fields[1..]);
    }
  }

  lemma SortElements(o: Order, fields: seq<Field>)
    ensures |Sort(o, fields)| == |fields|
    ensures forall f :: f in Sort(o, fields) <==> f in fields
  {
    forall f
      ensures f in Sort(o, fields) <==> f in fields
    {
      assert multiset(Sort(o, fields))[f] == multiset(fields)[f];
    }
    assert |multiset(Sort(o, fields))| == |multiset(fields)|;
  }

  predicate HasKey(fields: seq<Field>, key: string) {
    exists i :: 0 <= i < |fields| && fields[i].key == key
  }

  lemma {:induction false} DenotedKeys(fields: seq<Field>, key: string)
    requires forall i :: 0 <= i < |fields| ==> !fields[i].value.JUndefined?
    ensures key in DenoteFields(fields) <==> HasKey(fields, key)
  {
    if fields != [] {
      DenotedKeys(fields[1..], key);
      if HasKey(fields[1..], key) {
        var i :| 0 <= i < |fields[1..]| && fields[1..][i].key == key;
        assert fields[i + 1].key == key;
      }
      if HasKey(fields, key) && fields[0].key != key {
        var i :| 0 <= i < |fields| && fields[i].key == key;
        assert fields[1..][i - 1].key == key;
      }
    }
  }

  lemma {:induction false} NormalizedKeys(o: Order, fields: seq<Field>, key: string)
    ensures HasKey(NormalizeFields(o, fields), key) ==> HasKey(fields, key)
  {
    if fields != [] {
      NormalizedKeys(o, fields[1..], key);
      var rest, all := NormalizeFields(o, fields[1..]), NormalizeFields(o, fields);
      if HasKey(all, key) && !(fields[0].key == key) {
        var i :| 0 <= i < |all| && all[i].key == key;
        assert !fields[0].value.JUndefined? ==> all[i] == rest[i - 1];
        var k :| 0 <= k < |fields[1..]| && fields[1..][k].key == key;
        assert fields[k + 1].key == key;
      }
    }
  }

  /** Sorted by key, each key once. */
  predicate Ascending(o: Order, fields: seq<Field>) {
    forall i, j :: 0 <= i < j < |fields| ==> Before(o, fields[i].key, fields[j].key)
  }

  lemma {:induction false} InsertAscends(o: Order, f: Field, sorted: seq<Field>)
    requires Ascending(o, sorted) && !HasKey(sorted, f.key)
    ensures Ascending(o, Insert(o, f, sorted))
  {
    var r := Insert(o, f, sorted);
    if sorted == [] {
    } else if Before(o, f.key, sorted[0].key) {
      forall i, j | 0 <= i < j < |r|
        ensures Before(o, r[i].key, r[j].key)
      {
        BeforeIsStrictTotal(o, f.key, sorted[0].key, sorted[j - 1].key);
      }
    } else {
      BeforeIsStrictTotal(o, f.key, sorted[0].key, f.key);
      NoKeyInRest(sorted, f.key);
      InsertAscends(o, f, sorted[1..]);
      var rest := Insert(o, f, sorted[1..]);
      forall j | 0 <= j < |rest|
        ensures Before(o, sorted[0].key, rest[j].key)
      {
        InsertElements(o, f, sorted[1..]);
        assert rest[j] in rest;
      }
    }
  }

  lemma InsertElements(o: Order, f: Field, sorted: seq<Field>)
    ensures forall g :: g in Insert(o, f, sorted) <==> g == f || g in sorted
  {
    forall g
      ensures g in Insert(o, f, sorted) <==> g == f || g in sorted
    {
      assert multiset(Insert(o, f, sorted))[g] == (multiset(sorted) + multiset{f})[g];
    }
  }

  lemma DenoteFirst(f: Field, rest: seq<Field>)
    ensures DenoteFields([f] + rest)
         == if f.value.JUndefined? then DenoteFields(rest) else DenoteFields(rest)[f.key := Denote(f.value)]
  {
    assert ([f] + rest)[1..] == rest;
  }

  lemma InsertFirst(o: Order, f: Field, g: Field, rest: seq<Field>)
    ensures Insert(o, f, [g] + rest) ==
      if Before(o, f.key, g.key) then [f] + ([g] + rest) else [g] + Insert(o, f, rest)
  {
    assert ([g] + rest)[1..] == rest;
  }

  lemma NoKeyInRest(fields: seq<Field>, key: string)
    requires fields != [] && !HasKey(fields, key)
    ensures fields[0].key != key && !HasKey(fields[1..], key)
  {
    assert forall i :: 0 <= i < |fields[1..]| ==> fields[1..][i] == fields[i + 1];
  }

  lemma {:induction false} InsertMeans(o: Order, f: Field, sorted: seq<Field>)
    requires !HasKey(sorted, f.key)
    ensures DenoteFields(Insert(o, f, sorted))
         == if f.value.JUndefined? then DenoteFields(sorted) else DenoteFields(sorted)[f.key := Denote(f.value)]
  {
    DenoteFirst(f, sorted);
    if sorted != [] {
      var g, rest := sorted[0], sorted[1..];
      assert sorted == [g] + rest;
      NoKeyInRest(sorted, f.key);
      InsertFirst(o, f, g, rest);
      if !Before(o, f.key, g.key) {
        InsertMeans(o, f, rest);
        DenoteFirst(g, Insert(o, f, rest));
        DenoteFirst(g, rest);
      }
    }
  }

  lemma {:induction false} SortMeans(o: Order, fields: seq<Field>)
    requires DistinctKeys(fields)
    ensures Ascending(o, Sort(o, fields)) && DenoteFields(Sort(o, fields)) == DenoteFields(fields)
  {
    if fields != [] {
      var rest := fields[1..];
      SortMeans(o, rest);
      SortElements(o, rest);
      forall i | 0 <= i < |Sort(o, rest)|
        ensures Sort(o, rest)[i].key != fields[0].key
      {
        assert Sort(o, rest)[i] in rest;
      }
      InsertAscends(o, fields[0], Sort(o, rest));
      InsertMeans(o, fields[0], Sort(o, rest));
    }
  }

  lemma {:induction false} NormalizedFieldsDistinct(o: Order, fields: seq<Field>)
    requires DistinctKeys(fields)
    ensures DistinctKeys(NormalizeFields(o, fields))
    ensures forall i :: 0 <= i < |NormalizeFields(o, fields)| ==> !NormalizeFields(o, fields)[i].value.JUndefined?
  {
    if fields != [] {
      NormalizedFieldsDistinct(o, fields[1..]);
      var rest := NormalizeFields(o, fields[1..]);
      forall i | 0 <= i < |rest|
        ensures rest[i].key != fields[0].key
      {
        assert HasKey(rest, rest[i].key);
        NormalizedKeys(o, fields[1..], rest[i].key);
      }
    }
  }

  /** Sorting keys and dropping undefined properties changes no meaning, at any depth. */
  lemma {:induction false} NormalizeMeans(o: Order, j: Json)
    requires Proper(j)
    ensures Denote(Normalize(o, j)) == Denote(j)
    decreases j, 1
  {
    match j
    case JArr(items) => NormalizeItemsMeans(o, items);
    case JObj(fields) =>
      NormalizedFieldsDistinct(o, fields);
      SortMeans(o, NormalizeFields(o, fields));
      NormalizeFieldsMeans(o, fields);
    case _ =>
  }

  lemma {:induction false} NormalizeItemsMeans(o: Order, items: seq<Json>)
    requires forall i :: 0 <= i < |items| ==> Proper(items[i])
    ensures DenoteItems(NormalizeItems(o, items)) == DenoteItems(items)
    decreases items, 0
  {
    if items != [] {
      NormalizeMeans(o, items[0]);
      NormalizeItemsMeans(o, items[1..]);
    }
  }

  lemma {:induction false} NormalizeFieldsMeans(o: Order, fields: seq<Field>)
    requires forall i :: 0 <= i < |fields| ==> Proper(fields[i].value)
    ensures DenoteFields(NormalizeFields(o, fields)) == DenoteFields(fields)
    decreases fields, 0
  {
    if fields != [] {
      NormalizeMeans(o, fields[0].value);
      NormalizeFieldsMeans(o, fields[1..]);
      assert NormalizeFields(o, fields[1..]) == []
          || fields[0].value.JUndefined?
          || NormalizeFields(o, fields)[1..] == NormalizeFields(o, fields[1..]);
    }
  }

  // ------------------------------------------- equal meaning gives the same text

  /** Sorted at every depth, without undefined properties or foreign values. */
  predicate Normal(o: Order, j: Json) {
    match j
    case JArr(items) => forall i :: 0 <= i < |items| ==> Normal(o, items[i])
    case JObj(fields) => Ascending(o, fields) && NormalFields(o, fields)
    case JForeign(_) => false
    case _ => true
  }

  predicate NormalFields(o: Order, fields: seq<Field>) {
    forall i :: 0 <= i < |fields| ==> !fields[i].value.JUndefined? && Normal(o, fields[i].value)
  }

  lemma {:induction false} NormalizeIsNormal(o: Order, j: Json)
    requires Proper(j) && Hashable(j)
    ensures Normal(o, Normalize(o, j))
    decreases j, 1
  {
    match j
    case JArr(items) =>
      forall i | 0 <= i < |items|
        ensures Normal(o, NormalizeItems(o, items)[i])
      {
        NormalizeIsNormal(o, items[i]);
      }
    case JObj(fields) =>
      var normalized := NormalizeFields(o, fields);
      NormalizedFieldsDistinct(o, fields);
      SortMeans(o, normalized);
      SortElements(o, normalized);
      NormalizeFieldsNormal(o, fields);
      forall i | 0 <= i < |Sort(o, normalized)|
        ensures !Sort(o, normalized)[i].value.JUndefined? && Normal(o, Sort(o, normalized)[i].value)
      {
        assert Sort(o, normalized)[i] in normalized;
      }
    case _ =>
  }

  lemma {:induction false} NormalizeFieldsNormal(o: Order, fields: seq<Field>)
    requires forall i :: 0 <= i < |fields| ==> Proper(fields[i].value) && Hashable(fields[i].value)
    ensures forall f :: f in NormalizeFields(o, fields) ==> !f.value.JUndefined? && Normal(o, f.value)
    decreases fields, 0
  {
    if fields != [] {
      NormalizeIsNormal(o, fields[0].value);
      NormalizeFieldsNormal(o, fields[1..]);
    }
  }

  /** Two ascending field lists with one meaning start with the same key. */
  lemma SameFirstKey(o: Order, fs: seq<Field>, gs: seq<Field>)
    requires fs != [] && gs != []
    requires Ascending(o, fs) && Ascending(o, gs) && NormalFields(o, fs) && NormalFields(o, gs)
    requires DenoteFields(fs) == DenoteFields(gs)
    ensures fs[0].key == gs[0].key
  {
    var f, g := fs[0].key, gs[0].key;
    assert HasKey(fs, f) && HasKey(gs, g);
    DenotedKeys(fs, f);
    DenotedKeys(gs, f);
    DenotedKeys(fs, g);
    DenotedKeys(gs, g);
    var i :| 0 <= i < |gs| && gs[i].key == f;
    var k :| 0 <= k < |fs| && fs[k].key == g;
    BeforeIsStrictTotal(o, f, g, f);
    assert i == 0 || Before(o, g, f);
    assert k == 0 || Before(o, f, g);
  }

  lemma TailMeans(o: Order, fields: seq<Field>)
    requires fields != [] && Ascending(o, fields) && NormalFields(o, fields)
    ensures DenoteFields(fields[1..]) == DenoteFields(fields) - {fields[0].key}
    ensures DenoteFields(fields)[fields[0].key] == Denote(fields[0].value)
  {
    DenotedKeys(fields[1..], fields[0].key);
    forall i | 0 <= i < |fields[1..]|
      ensures fields[1..][i].key != fields[0].key
    {
      BeforeIsStrictTotal(o, fields[0].key, fields[i + 1].key, fields[0].key);
    }
  }

  lemma {:induction false} MeaningGivesText(o: Order, a: Json, b: Json, x: string)
    requires Normal(o, a) && Normal(o, b) && Denote(a) == Denote(b)
    ensures PrintTo(a, x) == PrintTo(b, x)
    decreases a, 1
  {
    match a
    case JArr(items) =>
      if items != [] {
        SplitItems(items, b.items);
        MeaningGivesText(o, items[0], b.items[0], ItemsTo(items[1..], x));
        MeaningGivesItems(o, items[1..], b.items[1..], x);
      }
    case JObj(fields) =>
      if fields != [] && b.fields != [] {
        MeaningGivesField(o, fields, b.fields, x);
      } else {
        NoFieldsNoMeaning(o, fields, b.fields);
      }
    case _ =>
  }

  lemma SplitItems(ps: seq<Json>, qs: seq<Json>)
    requires ps != [] && qs != [] && DenoteItems(ps) == DenoteItems(qs)
    ensures Denote(ps[0]) == Denote(qs[0]) && DenoteItems(ps[1..]) == DenoteItems(qs[1..])
  {
    assert DenoteItems(ps)[0] == Denote(ps[0]) && DenoteItems(qs)[0] == Denote(qs[0]);
    assert DenoteItems(ps)[1..] == DenoteItems(ps[1..]) && DenoteItems(qs)[1..] == DenoteItems(qs[1..]);
  }

  lemma NoFieldsNoMeaning(o: Order, fs: seq<Field>, gs: seq<Field>)
    requires NormalFields(o, fs) && NormalFields(o, gs) && DenoteFields(fs) == DenoteFields(gs)
    ensures fs == [] <==> gs == []
  {
    if fs != [] {
      assert HasKey(fs, fs[0].key);
      DenotedKeys(fs, fs[0].key);
    }
    if gs != [] {
      assert HasKey(gs, gs[0].key);
      DenotedKeys(gs, gs[0].key);
    }
  }

  lemma {:induction false} MeaningGivesItems(o: Order, ps: seq<Json>, qs: seq<Json>, x: string)
    requires forall i :: 0 <= i < |ps| ==> Normal(o, ps[i])
    requires forall i :: 0 <= i < |qs| ==> Normal(o, qs[i])
    requires DenoteItems(ps) == DenoteItems(qs)
    ensures ItemsTo(ps, x) == ItemsTo(qs, x)
    decreases ps, 0
  {
    if ps != [] {
      SplitItems(ps, qs);
      MeaningGivesText(o, ps[0], qs[0], ItemsTo(ps[1..], x));
      MeaningGivesItems(o, ps[1..], qs[1..], x);
    }
  }

  lemma {:induction false} MeaningGivesField(o: Order, fs: seq<Field>, gs: seq<Field>, x: string)
    requires fs != [] && gs != []
    requires Ascending(o, fs) && Ascending(o, gs) && NormalFields(o, fs) && NormalFields(o, gs)
    requires DenoteFields(fs) == DenoteFields(gs)
    ensures FieldTo(fs[0], FieldsTo(fs[1..], x)) == FieldTo(gs[0], FieldsTo(gs[1..], x))
    decreases fs, 1
  {
    SameFirstKey(o, fs, gs);
    TailMeans(o, fs);
    TailMeans(o, gs);
    NoFieldsNoMeaning(o, fs[1..], gs[1..]);
    if fs[1..] != [] {
      MeaningGivesField(o, fs[1..], gs[1..], x);
    }
    MeaningGivesText(o, fs[0].value, gs[0].value, FieldsTo(fs[1..], x));
  }

  // ------------------------------------------------------- objects with known keys

  /** What an object says about one of its fields. */
  lemma {:induction false} FieldMeaning(fields: seq<Field>, i: nat)
    requires DistinctKeys(fields) && i < |fields|
    ensures fields[i].value.JUndefined? <==> fields[i].key !in DenoteFields(fields)
    ensures !fields[i].value.JUndefined? ==> DenoteFields(fields)[fields[i].key] == Denote(fields[i].value)
  {
    if i > 0 {
      FieldMeaning(fields[1..], i - 1);
    } else {
      OnlyListedKeys(fields[1..], fields[0].key);
    }
  }

  lemma {:induction false} OnlyListedKeys(fields: seq<Field>, key: string)
    requires forall i :: 0 <= i < |fields| ==> fields[i].key != key
    ensures key !in DenoteFields(fields)
  {
    if fields != [] {
      OnlyListedKeys(fields[1..], key);
    }
  }

  /** Two objects written with the same keys mean the same only if all their fields do. */
  lemma SameKeysSameFields(fs: seq<Field>, gs: seq<Field>)
    requires DistinctKeys(fs) && |fs| == |gs| && forall i :: 0 <= i < |fs| ==> fs[i].key == gs[i].key
    requires DenoteFields(fs) == DenoteFields(gs)
    ensures forall i :: 0 <= i < |fs| ==>
      (fs[i].value.JUndefined? <==> gs[i].value.JUndefined?) && Denote(fs[i].value) == Denote(gs[i].value)
  {
    assert DistinctKeys(gs);
    forall i | 0 <= i < |fs|
      ensures (fs[i].value.JUndefined? <==> gs[i].value.JUndefined?) && Denote(fs[i].value) == Denote(gs[i].value)
    {
      FieldMeaning(fs, i);
      FieldMeaning(gs, i);
    }
  }

  /** Conversely, fields that mean the same one by one make objects that mean the same. */
  lemma {:induction false} SameFieldsSameObject(fs: seq<Field>, gs: seq<Field>)
    requires |fs| == |gs|
    requires forall i :: 0 <= i < |fs| ==> fs[i].key == gs[i].key
    requires forall i :: 0 <= i < |fs| ==>
      (fs[i].value.JUndefined? <==> gs[i].value.JUndefined?) && Denote(fs[i].value) == Denote(gs[i].value)
    ensures DenoteFields(fs) == DenoteFields(gs)
  {
    if fs != [] {
      SameFieldsSameObject(fs[1..], gs[1..]);
    }
  }

  // ------------------------------------------------------------------- theorems

  /** What `hashValue` and the other canonical hashes take as input. */
  predicate Canonical(j: Json) {
    Proper(j) && Hashable(j)
  }

  /** Canonical text determines meaning and is determined by it, in either key order. */
  lemma TextIffMeaning(o: Order, a: Json, b: Json)
    requires Canonical(a) && Canonical(b)
    ensures Print(Normalize(o, a)) == Print(Normalize(o, b)) <==> Denote(a) == Denote(b)
  {
    NormalizeMeans(o, a);
    NormalizeMeans(o, b);
    if Denote(a) == Denote(b) {
      NormalizeIsNormal(o, a);
      NormalizeIsNormal(o, b);
      MeaningGivesText(o, Normalize(o, a), Normalize(o, b), "");
    }
    if Print(Normalize(o, a)) == Print(Normalize(o, b)) {
      NormalizePrintable(o, a);
      NormalizePrintable(o, b);
      PrintPrefix(Normalize(o, a), Normalize(o, b), "", "");
    }
  }

  /** The text of the undefined value is no other value's text. */
  lemma StableTextIffMeaning(a: Json, b: Json)
    requires Canonical(a) && Canonical(b)
    ensures StableText(a) == StableText(b) <==> (a.JUndefined? <==> b.JUndefined?) && Denote(a) == Denote(b)
  {
    TextIffMeaning(Properties, a, b);
    NormalizePrintable(Properties, a);
    NormalizePrintable(Properties, b);
    PrintHead(Normalize(Properties, a), "");
    PrintHead(Normalize(Properties, b), "");
  }

  lemma {:induction false} NormalIsCanonical(o: Order, j: Json)
    requires Normal(o, j)
    ensures Canonical(j)
  {
    match j
    case JArr(items) =>
      forall i | 0 <= i < |items|
        ensures Proper(items[i]) && Hashable(items[i])
      {
        NormalIsCanonical(o, items[i]);
      }
    case JObj(fields) =>
      forall i | 0 <= i < |fields|
        ensures Proper(fields[i].value) && Hashable(fields[i].value)
      {
        NormalIsCanonical(o, fields[i].value);
      }
      forall i, j | 0 <= i < j < |fields|
        ensures fields[i].key != fields[j].key
      {
        BeforeIsStrictTotal(o, fields[i].key, fields[j].key, fields[i].key);
      }
    case _ =>
  }

  /** Normalizing twice changes no text: a stored normalized value hashes like the original. */
  lemma NormalizeTwice(o: Order, j: Json)
    requires Canonical(j)
    ensures Canonical(Normalize(o, j))
    ensures Print(Normalize(o, Normalize(o, j))) == Print(Normalize(o, j))
  {
    NormalizeIsNormal(o, j);
    NormalIsCanonical(o, Normalize(o, j));
    NormalizeMeans(o, j);
    TextIffMeaning(o, Normalize(o, j), j);
  }
}
