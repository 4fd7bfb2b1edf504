/**
 JSON values as the source language holds them, their canonical text, and what
 that text determines.  The printer follows sections 3 to 7 of RFC 8259, with the
 escapes of `JSON.stringify`.
 */
module Json {
  import opened Wrappers
  import opened Decimal
  import opened KeyOrder

  /**
   `JForeign` stands for the values that have no canonical text: big integers,
   functions, symbols, non-finite numbers, cycles and non-plain objects.
   */
  datatype Json =
    | JUndefined
    | JNull
    | JBool(b: bool)
    | JNum(n: int)
    | JStr(s: string)
    | JArr(items: seq<Json>)
    | JObj(fields: seq<Field>)
    | JForeign(kind: string)

  datatype Field = Field(key: string, value: Json)

  /** What a value means: objects are maps, so the order of keys is gone. */
  datatype Value =
    | VNull
    | VBool(b: bool)
    | VNum(n: int)
    | VStr(s: string)
    | VArr(items: seq<Value>)
    | VObj(fields: map<string, Value>)

  predicate Nullish(j: Json) {
    j.JUndefined? || j.JNull?
  }

  function OptionalText(value: Option<string>): Json {
    if value.Some? then JStr(value.value) else JUndefined
  }

  /** The value of the first field with a key. */
  function Find(fields: seq<Field>, key: string): Option<Json> {
    if fields == [] then None
    else if fields[0].key == key then Some(fields[0].value)
    else Find(fields[1..], key)
  }

  // ----------------------------------------------------------------- meaning

  /** Undefined means null inside an array, and an undefined property means no property. */
  function Denote(j: Json): Value {
    match j
    case JUndefined => VNull
    case JNull => VNull
    case JBool(b) => VBool(b)
    case JNum(n) => VNum(n)
    case JStr(s) => VStr(s)
    case JArr(items) => VArr(DenoteItems(items))
    case JObj(fields) => VObj(DenoteFields(fields))
    case JForeign(_) => VNull
  }

  function DenoteItems(items: seq<Json>): seq<Value> {
    if items == [] then [] else [Denote(items[0])] + DenoteItems(items[1..])
  }

  function DenoteFields(fields: seq<Field>): map<string, Value> {
    if fields == [] then map[]
    else
      var rest := DenoteFields(fields[1..]);
      if fields[0].value.JUndefined? then rest else rest[fields[0].key := Denote(fields[0].value)]
  }

  /** An optional text is told by being undefined or not and by its meaning. */
  lemma SameOptional(x: Option<string>, y: Option<string>)
    ensures OptionalText(x).JUndefined? == OptionalText(y).JUndefined? && Denote(OptionalText(x)) == Denote(OptionalText(y))
      ==> x == y
  {
  }

  predicate DistinctKeys(fields: seq<Field>) {
    forall i, j :: 0 <= i < j < |fields| ==> fields[i].key != fields[j].key
  }

  /** Keys are distinct at every depth, as they are in any object. */
  predicate Proper(j: Json) {
    match j
    case JArr(items) => forall i :: 0 <= i < |items| ==> Proper(items[i])
    case JObj(fields) => DistinctKeys(fields) && forall i :: 0 <= i < |fields| ==> Proper(fields[i].value)
    case _ => true
  }

  /** Nothing at any depth lacks a canonical text. */
  predicate Hashable(j: Json) {
    match j
    case JArr(items) => forall i :: 0 <= i < |items| ==> Hashable(items[i])
    case JObj(fields) => forall i :: 0 <= i < |fields| ==> Hashable(fields[i].value)
    case JForeign(_) => false
    case _ => true
  }

  // ----------------------------------------------------------- normalization

  function Insert(o: Order, f: Field, sorted: seq<Field>): (r: seq<Field>)
    ensures multiset(r) == multiset(sorted) + multiset{f}
  {
    if sorted == [] || Before(o, f.key, sorted[0].key) then [f] + sorted
    else
      var rest := Insert(o, f, sorted[1..]);
      assert sorted == [sorted[0]] + sorted[1..];
      [sorted[0]] + rest
  }

  function Sort(o: Order, fields: seq<Field>): (r: seq<Field>)
    ensures multiset(r) == multiset(fields)
  {
    if fields == [] then []
    else
      assert fields == [fields[0]] + fields[1..];
      Insert(o, fields[0], Sort(o, fields[1..]))
  }

  /** Keys sorted and undefined properties dropped at every depth; array order kept. */
  function Normalize(o: Order, j: Json): Json {
    match j
    case JArr(items) => JArr(NormalizeItems(o, items))
    case JObj(fields) => JObj(Sort(o, NormalizeFields(o, fields)))
    case _ => j
  }

  function NormalizeItems(o: Order, items: seq<Json>): (r: seq<Json>)
    ensures |r| == |items|
    ensures forall i :: 0 <= i < |items| ==> r[i] == Normalize(o, items[i])
  {
    if items == [] then [] else [Normalize(o, items[0])] + NormalizeItems(o, items[1..])
  }

  function NormalizeFields(o: Order, fields: seq<Field>): seq<Field> {
    if fields == [] then []
    else
      var rest := NormalizeFields(o, fields[1..]);
      if fields[0].value.JUndefined? then rest
      else [Field(fields[0].key, Normalize(o, fields[0].value))] + rest
  }

  // ----------------------------------------------------------------- printing

  function HexDigit(d: nat): char
    requires d < 16
  {
    if d < 10 then '0' + d as char else 'a' + (d - 10) as char
  }

  function Escape(c: char): (s: string)
    ensures s != ""
  {
    if c == '"' then "\\\""
    else if c == '\\' then "\\\\"
    else if c == '\U{8}' then "\\b"
    else if c == '\U{C}' then "\\f"
    else if c == '\n' then "\\n"
    else if c == '\r' then "\\r"
    else if c == '\t' then "\\t"
    else if c < ' ' then "\\u00" + [HexDigit(c as int / 16), HexDigit(c as int % 16)]
    else [c]
  }

  /** The rest of a quoted string, its closing quote, and what follows. */
  function EscapedTo(s: string, tail: string): string {
    if s == "" then "\"" + tail else Escape(s[0]) + EscapedTo(s[1..], tail)
  }

  function QuoteTo(s: string, tail: string): string {
    "\"" + EscapedTo(s, tail)
  }

  /**
   The text of a value followed by `tail`: the output of `JSON.stringify` on a value
   without undefined properties, written so that each part is followed by the next.
   */
  function PrintTo(j: Json, tail: string): string
    decreases j, 1
  {
    match j
    case JUndefined => "null" + tail
    case JNull => "null" + tail
    case JBool(b) => (if b then "true" else "false") + tail
    case JNum(n) => IntText(n) + tail
    case JStr(s) => QuoteTo(s, tail)
    case JArr(items) => "[" + (if items == [] then "]" + tail else PrintTo(items[0], ItemsTo(items[1..], tail)))
    case JObj(fields) => "{" + (if fields == [] then "}" + tail else FieldTo(fields[0], FieldsTo(fields[1..], tail)))
    case JForeign(_) => tail
  }

  function ItemsTo(items: seq<Json>, tail: string): string
    decreases items, 0
  {
    if items == [] then "]" + tail else "," + PrintTo(items[0], ItemsTo(items[1..], tail))
  }

  function FieldTo(f: Field, tail: string): string
    decreases f, 0
  {
    QuoteTo(f.key, ":" + PrintTo(f.value, tail))
  }

  function FieldsTo(fields: seq<Field>, tail: string): string
    decreases fields, 0
  {
    if fields == [] then "}" + tail else "," + FieldTo(fields[0], FieldsTo(fields[1..], tail))
  }

  function Print(j: Json): string {
    PrintTo(j, "")
  }

  /** The canonical text that is hashed. */
  function StableText(j: Json): string {
    if j.JUndefined? then "undefined" else Print(Normalize(Properties, j))
  }
}
