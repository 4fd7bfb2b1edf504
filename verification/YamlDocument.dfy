/**
 Documents and their two-space block rendering: the grammar on which parsing a
 rendered document gives the document back.  A document chooses its own scalar
 style, so one value has several renderings.
 */
module YamlDocument {
  import opened Wrappers
  import opened JsText
  import opened Decimal
  import opened YamlScan
  import opened YamlParser

  /** A scalar or an inline list. */
  datatype Flow =
    | FNull
    | FBool(b: bool)
    | FInt(n: int)
    | FPlain(s: string)
    | FQuoted(quote: char, s: string)
    | FList(items: seq<Flow>)

  datatype Doc = DFlow(flow: Flow) | DSeq(items: Docs) | DMap(pairs: Pairs)
  datatype Docs = NoDocs | Docs(head: Doc, tail: Docs)
  datatype Pairs = NoPairs | Pairs(key: string, value: Doc, rest: Pairs)

  function FlowText(f: Flow): string {
    match f
    case FNull => "null"
    case FBool(b) => if b then "true" else "false"
    case FInt(n) => IntText(n)
    case FPlain(s) => s
    case FQuoted(q, s) => [q] + s + [q]
    case FList(items) => "[" + ItemsText(items) + "]"
  }

  function ItemsText(items: seq<Flow>): string {
    if items == [] then ""
    else if |items| == 1 then FlowText(items[0])
    else FlowText(items[0]) + ", " + ItemsText(items[1..])
  }

  /** The value a scalar or inline list stands for. */
  function FlowValue(f: Flow): Yaml {
    match f
    case FNull => YNull
    case FBool(b) => YBool(b)
    case FInt(n) => YNum(n as real)
    case FPlain(s) => YStr(s)
    case FQuoted(_, s) => YStr(s)
    case FList(items) => YSeq(FlowValues(items))
  }

  function FlowValues(items: seq<Flow>): (r: seq<Yaml>)
    ensures |r| == |items|
    ensures forall i :: 0 <= i < |items| ==> r[i] == FlowValue(items[i])
  {
    if items == [] then [] else [FlowValue(items[0])] + FlowValues(items[1..])
  }

  function DocValue(d: Doc): Yaml {
    match d
    case DFlow(f) => FlowValue(f)
    case DSeq(items) => YSeq(DocValues(items))
    case DMap(pairs) => YMap(PairValues(pairs))
  }

  function DocValues(items: Docs): seq<Yaml> {
    match items
    case NoDocs => []
    case Docs(head, tail) => [DocValue(head)] + DocValues(tail)
  }

  function PairValues(pairs: Pairs): Entries {
    match pairs
    case NoPairs => []
    case Pairs(key, value, rest) => [(key, DocValue(value))] + PairValues(rest)
  }

  // ----------------------------------------------------------- own properties

  const PROTOTYPE := "__proto__"

  /**
   What a parsed value holds as properties of its own, at every depth: assigning to
   `__proto__` sets the prototype of a record, if it does anything, and makes no property.
   */
  function Own(y: Yaml): Yaml {
    match y
    case YSeq(items) => YSeq(OwnItems(items))
    case YMap(entries) => YMap(OwnEntries(entries))
    case _ => y
  }

  function OwnItems(items: seq<Yaml>): seq<Yaml> {
    if items == [] then [] else [Own(items[0])] + OwnItems(items[1..])
  }

  function OwnEntries(entries: Entries): (own: Entries)
    ensures |own| <= |entries|
  {
    if entries == [] then []
    else OwnEntry(entries[0]) + OwnEntries(entries[1..])
  }

  function OwnEntry(entry: (string, Yaml)): (own: Entries)
    ensures |own| <= 1
  {
    if entry.0 == PROTOTYPE then [] else [(entry.0, Own(entry.1))]
  }

  /** No key of the document, at any depth, is `__proto__`. */
  predicate NamesNoPrototype(d: Doc) {
    match d
    case DFlow(_) => true
    case DSeq(items) => ItemsNameNoPrototype(items)
    case DMap(pairs) => PairsNameNoPrototype(pairs)
  }

  predicate ItemsNameNoPrototype(items: Docs) {
    items.NoDocs? || (NamesNoPrototype(items.head) && ItemsNameNoPrototype(items.tail))
  }

  predicate PairsNameNoPrototype(pairs: Pairs) {
    pairs.NoPairs? || (pairs.key != PROTOTYPE && NamesNoPrototype(pairs.value) && PairsNameNoPrototype(pairs.rest))
  }

  lemma {:induction false} FlowIsOwn(f: Flow)
    ensures Own(FlowValue(f)) == FlowValue(f)
    decreases f, 1
  {
    if f.FList? {
      FlowsAreOwn(f.items);
    }
  }

  lemma {:induction false} FlowsAreOwn(items: seq<Flow>)
    ensures OwnItems(FlowValues(items)) == FlowValues(items)
    decreases items, 0
  {
    if items != [] {
      FlowIsOwn(items[0]);
      FlowsAreOwn(items[1..]);
    }
  }

  /** A document keeps its value as own properties exactly when it names no prototype. */
  lemma {:induction false} OwnExactly(d: Doc)
    ensures Own(DocValue(d)) == DocValue(d) <==> NamesNoPrototype(d)
    decreases d
  {
    match d
    case DFlow(f) => FlowIsOwn(f);
    case DSeq(items) => OwnItemsExactly(items);
    case DMap(pairs) => OwnPairsExactly(pairs);
  }

  lemma {:induction false} OwnItemsExactly(items: Docs)
    ensures OwnItems(DocValues(items)) == DocValues(items) <==> ItemsNameNoPrototype(items)
    decreases items
  {
    if items.Docs? {
      OwnExactly(items.head);
      OwnItemsExactly(items.tail);
      SameCons(Own(DocValue(items.head)), OwnItems(DocValues(items.tail)), DocValue(items.head), DocValues(items.tail));
    }
  }

  lemma {:induction false} OwnPairsExactly(pairs: Pairs)
    ensures OwnEntries(PairValues(pairs)) == PairValues(pairs) <==> PairsNameNoPrototype(pairs)
    decreases pairs
  {
    if pairs.Pairs? {
      OwnExactly(pairs.value);
      OwnPairsExactly(pairs.rest);
      var first, rest := (pairs.key, DocValue(pairs.value)), PairValues(pairs.rest);
      assert PairValues(pairs)[0] == first && PairValues(pairs)[1..] == rest;
      if pairs.key == PROTOTYPE {
        assert |OwnEntries(PairValues(pairs))| <= |rest|;
      } else {
        SameCons((pairs.key, Own(first.1)), OwnEntries(rest), first, rest);
      }
    }
  }

  lemma SameCons<T>(a: T, s: seq<T>, b: T, t: seq<T>)
    ensures [a] + s == [b] + t <==> a == b && s == t
    ensures ([a] + s)[0] == a && ([a] + s)[1..] == s
  {
    assert ([a] + s)[1..] == s && ([b] + t)[1..] == t;
    assert ([a] + s)[0] == a && ([b] + t)[0] == b;
  }

  /** No quote, comment or line-break character. */
  predicate IsQuiet(s: string) {
    forall c :: c in s ==> !IsQuoteChar(c) && c != '#' && c != '\n'
  }

  predicate IsInlineSafe(s: string) {
    forall c :: c in s ==> c != ',' && c != '[' && c != ']' && c != '{' && c != '}'
  }

  predicate IsKeyword(s: string) {
    s == "true" || s == "false" || s == "null" || s == "~"
  }

  /** Text that reads as the string it is. */
  predicate IsPlainText(s: string) {
    s != "" && Trimmed(s) && IsQuiet(s) && !IsKeyword(s) && !IsNumber(s) && !IsBracketed(s)
  }

  predicate ValidFlow(f: Flow, inList: bool) {
    match f
    case FPlain(s) => IsPlainText(s) && (inList ==> IsInlineSafe(s))
    case FQuoted(q, s) => IsQuoteChar(q) && q !in s && '\n' !in s
    case FList(items) => forall i :: 0 <= i < |items| ==> ValidFlow(items[i], true)
    case _ => true
  }

  predicate HasKey(pairs: Pairs, key: string) {
    pairs.Pairs? && (pairs.key == key || HasKey(pairs.rest, key))
  }

  /** Block collections are not empty, and keys are plain and distinct. */
  predicate ValidDoc(d: Doc) {
    match d
    case DFlow(f) => ValidFlow(f, false)
    case DSeq(items) => items.Docs? && ValidItems(items)
    case DMap(pairs) => pairs.Pairs? && ValidPairs(pairs)
  }

  /**
   A block sequence holds scalars, inline lists and mappings.  A scalar whose text
   reads as a pair is one-key mapping text in this position, so it is not allowed.
   */
  predicate ValidItems(items: Docs) {
    match items
    case NoDocs => true
    case Docs(head, tail) =>
      && ValidDoc(head) && !head.DSeq?
      && (head.DFlow? ==> !LooksLikePair(FlowText(head.flow)))
      && ValidItems(tail)
  }

  predicate ValidPairs(pairs: Pairs) {
    match pairs
    case NoPairs => true
    case Pairs(key, value, rest) =>
      IsPlainKey(key) && !HasKey(rest, key) && ValidDoc(value) && ValidPairs(rest)
  }

  /** The rendering of a block collection at a depth. */
  function RenderBlock(d: Doc, indent: nat): seq<Line>
    decreases d, 0
  {
    match d
    case DFlow(f) => []
    case DSeq(items) => RenderItems(items, indent)
    case DMap(pairs) => RenderPairs(pairs, indent)
  }

  function RenderPair(key: string, value: Doc, indent: nat): (ls: seq<Line>)
    ensures ls != [] && ls[0].indent == indent
    decreases value, 1
  {
    if value.DFlow? then [Line(indent, key + ": " + FlowText(value.flow))]
    else [Line(indent, key + ":")] + RenderBlock(value, indent + 2)
  }

  function RenderPairs(pairs: Pairs, indent: nat): (ls: seq<Line>)
    ensures pairs.Pairs? ==> ls != [] && ls[0].indent == indent
    decreases pairs, 0
  {
    match pairs
    case NoPairs => []
    case Pairs(key, value, rest) => RenderPair(key, value, indent) + RenderPairs(rest, indent)
  }

  /** An item's first line carries the dash; a mapping item goes on two columns deeper. */
  function RenderItem(d: Doc, indent: nat): seq<Line>
    decreases d, 0
  {
    match d
    case DFlow(f) => [Line(indent, "- " + FlowText(f))]
    case DSeq(_) => []
    case DMap(pairs) =>
      var ls := RenderPairs(pairs, indent + 2);
      if ls == [] then [] else [Line(indent, "- " + ls[0].text)] + ls[1..]
  }

  function RenderItems(items: Docs, indent: nat): seq<Line>
    decreases items, 0
  {
    match items
    case NoDocs => []
    case Docs(head, tail) => RenderItem(head, indent) + RenderItems(tail, indent)
  }

  function Spaces(n: nat): (s: string)
    ensures |s| == n && forall k :: 0 <= k < n ==> s[k] == ' '
  {
    seq(n, _ => ' ')
  }

  function LineText(line: Line): string {
    Spaces(line.indent) + line.text
  }

  function LinesText(lines: seq<Line>): string {
    if lines == [] then ""
    else LineText(lines[0]) + "\n" + LinesText(lines[1..])
  }

  /** The source text of a document: every line ends with a newline. */
  function Render(d: Doc): string {
    LinesText(RenderBlock(d, 0))
  }
}
