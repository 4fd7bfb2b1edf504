/**
 Parsing the block rendering of a document gives the document's value, from source
 text to value, at every nesting depth.
 */
module YamlRoundTrip {
  import opened Wrappers
  import opened JsText
  import opened Concatenation
  import opened YamlScan
  import opened YamlParser
  import opened YamlLint
  import opened YamlDocument
  import opened YamlScalars

  // --------------------------------------------------------------- pair texts

  lemma PlainKeyIsQuiet(key: string)
    requires IsPlainKey(key)
    ensures key != "" && Trimmed(key) && IsQuiet(key) && ':' !in key && !IsQuoted(key) && key[0] != '-'
    ensures DropQuoteLast(DropQuoteHead(key)) == key
  {
    forall c | c in key
      ensures IsKeyTail(c)
    {
      var k :| 0 <= k < |key| && key[k] == c;
    }
    assert !StartsWith(key, "\"") && !StartsWith(key, "'");
  }

  /** A key, a colon and the text after it split at that colon. */
  lemma PairSplits(key: string, after: string)
    requires IsPlainKey(key)
    ensures SplitPair(key + ":" + after) == Some(PairText(key, Trim(after)))
    ensures LooksLikePair(key + ":" + after)
  {
    var text := key + ":" + after;
    PlainKeyIsQuiet(key);
    assert text[..|key|] == key;
    IndexOfIs(text, ':', |key|);
    assert text[|key| + 1..] == after;
    TrimmedIsFixed(key);
  }

  lemma TrimAfterBlank(text: string)
    requires text != "" && Trimmed(text)
    ensures Trim(" " + text) == text
  {
    TrimStartOfPadded(" ", text);
    TrimEndOfSolid(text);
  }

  lemma FlowPairSplits(key: string, f: Flow)
    requires IsPlainKey(key) && ValidFlow(f, false)
    ensures SplitPair(key + ": " + FlowText(f)) == Some(PairText(key, FlowText(f)))
    ensures LooksLikePair(key + ": " + FlowText(f))
    ensures FlowText(f) != ""
  {
    var text := FlowText(f);
    FlowTextSolid(f, false);
    TrimAfterBlank(text);
    assert key + ":" + (" " + text) == key + ": " + text;
    PairSplits(key, " " + text);
  }

  lemma BarePairSplits(key: string)
    requires IsPlainKey(key)
    ensures SplitPair(key + ":") == Some(PairText(key, ""))
    ensures LooksLikePair(key + ":")
  {
    PairSplits(key, "");
    assert key + ":" + "" == key + ":";
  }

  // ------------------------------------------------------------- block parsing

  /** The lines after a rendering belong to no block deeper than `indent`. */
  predicate Stops(after: seq<Line>, indent: nat) {
    after == [] || after[0].indent <= indent
  }

  function Keys(entries: Entries): set<string> {
    set e | e in entries :: e.0
  }

  lemma AssignFresh(entries: Entries, key: string, value: Yaml)
    requires key !in Keys(entries)
    ensures Assign(entries, key, value) == entries + [(key, value)]
    ensures Keys(entries + [(key, value)]) == Keys(entries) + {key}
  {
    assert forall j :: 0 <= j < |entries| ==> entries[j] in entries && entries[j].0 != key;
    var more := entries + [(key, value)];
    assert forall e :: e in more <==> e in entries || e == (key, value);
    assert (key, value) in more;
  }

  /** No key of `pairs` is among these. */
  predicate Avoids(pairs: Pairs, keys: set<string>) {
    pairs.NoPairs? || (pairs.key !in keys && Avoids(pairs.rest, keys))
  }

  lemma {:induction false} AvoidsOneMore(pairs: Pairs, keys: set<string>, key: string)
    requires Avoids(pairs, keys) && !HasKey(pairs, key)
    ensures Avoids(pairs, keys + {key})
  {
    if pairs.Pairs? {
      AvoidsOneMore(pairs.rest, keys, key);
    }
  }

  lemma {:induction false} AvoidsNothing(pairs: Pairs)
    ensures Avoids(pairs, {})
  {
    if pairs.Pairs? {
      AvoidsNothing(pairs.rest);
    }
  }

  // One step of each loop of the parser.

  lemma MappingTakesPair(line: Line, lines: seq<Line>, indent: nat, output: Entries, pair: (string, Yaml), rest: seq<Line>)
    requires line.indent == indent && !IsItem(line)
    requires Pair(lines, line.text, indent) == Ok(Parsed(pair, rest))
    ensures Mapping([line] + lines, indent, output) == Mapping(rest, indent, Assign(output, pair.0, pair.1))
  {
    assert ([line] + lines)[1..] == lines;
  }

  lemma ItemTakesPair(line: Line, lines: seq<Line>, indent: nat, item: Entries, pair: (string, Yaml), rest: seq<Line>)
    requires line.indent > indent && !IsItem(line)
    requires Pair(lines, line.text, line.indent) == Ok(Parsed(pair, rest))
    ensures ItemKeys([line] + lines, indent, item) == ItemKeys(rest, indent, Assign(item, pair.0, pair.1))
  {
    assert ([line] + lines)[1..] == lines;
  }

  lemma SequenceTakesScalar(text: string, lines: seq<Line>, indent: nat, output: seq<Yaml>)
    requires text != "" && Trimmed(text) && !LooksLikePair(text)
    ensures Sequence([Line(indent, "- " + text)] + lines, indent, output)
         == Sequence(lines, indent, output + [Scalar(text)])
  {
    DashText(text);
    assert ([Line(indent, "- " + text)] + lines)[1..] == lines;
  }

  lemma SequenceTakesMapping(text: string, lines: seq<Line>, indent: nat, output: seq<Yaml>,
                             pair: (string, Yaml), keys: seq<Line>, item: Entries, rest: seq<Line>)
    requires text != "" && Trimmed(text) && LooksLikePair(text)
    requires Pair(lines, text, indent + 2) == Ok(Parsed(pair, keys))
    requires ItemKeys(keys, indent, [pair]) == Ok(Parsed(item, rest))
    ensures Sequence([Line(indent, "- " + text)] + lines, indent, output)
         == Sequence(rest, indent, output + [YMap(item)])
  {
    var all := [Line(indent, "- " + text)] + lines;
    assert Trim(all[0].text[2..]) == text && IsItem(all[0]) by {
      DashText(text);
    }
    assert all[1..] == lines;
  }

  lemma DashText(text: string)
    requires text != "" && Trimmed(text)
    ensures StartsWith("- " + text, "- ") && Trim(("- " + text)[2..]) == text
  {
    assert ("- " + text)[2..] == text;
    TrimmedIsFixed(text);
  }

  lemma PairTakesBlock(key: string, body: seq<Line>, indent: nat, value: Yaml, rest: seq<Line>)
    requires IsPlainKey(key) && body != [] && body[0].indent > indent
    requires Block(body, body[0].indent) == Ok(Parsed(value, rest))
    ensures Pair(body, key + ":", indent) == Ok(Parsed((key, value), rest))
  {
    BarePairSplits(key);
  }

  lemma PairTakesScalar(key: string, f: Flow, indent: nat, rest: seq<Line>)
    requires IsPlainKey(key) && ValidFlow(f, false)
    ensures Pair(rest, key + ": " + FlowText(f), indent) == Ok(Parsed((key, FlowValue(f)), rest))
  {
    FlowPairSplits(key, f);
    ScalarReads(f, false);
  }

  /** The first line of a rendered pair: what it is whatever the value is. */
  lemma FirstLine(key: string, value: Doc, indent: nat)
    requires IsPlainKey(key) && ValidDoc(value)
    ensures var line := RenderPair(key, value, indent)[0];
      line.indent == indent && !IsItem(line) && line.text != "" && Trimmed(line.text) && LooksLikePair(line.text)
  {
    PlainKeyIsQuiet(key);
    var text := RenderPair(key, value, indent)[0].text;
    assert text[0] == key[0];
    if value.DFlow? {
      FlowTextSolid(value.flow, false);
      FlowPairSplits(key, value.flow);
      assert text[|text| - 1] == FlowText(value.flow)[|FlowText(value.flow)| - 1];
    } else {
      BarePairSplits(key);
    }
  }

  /** A rendered pair is consumed exactly, with its value, whatever lines follow. */
  lemma {:induction false} PairParses(key: string, value: Doc, indent: nat, after: seq<Line>)
    requires IsPlainKey(key) && ValidDoc(value) && Stops(after, indent)
    ensures var ls := RenderPair(key, value, indent);
      Pair(ls[1..] + after, ls[0].text, indent) == Ok(Parsed((key, DocValue(value)), after))
    decreases value, 1
  {
    if value.DFlow? {
      PairTakesScalar(key, value.flow, indent, after);
      assert RenderPair(key, value, indent)[1..] + after == after;
    } else {
      var body := RenderBlock(value, indent + 2);
      assert RenderPair(key, value, indent)[1..] == body;
      BlockParses(value, indent + 2, after, indent + 2);
      assert (body + after)[0] == body[0];
      PairTakesBlock(key, body + after, indent, DocValue(value), after);
    }
  }

  lemma {:induction false} BlockParses(d: Doc, indent: nat, after: seq<Line>, asked: nat)
    requires ValidDoc(d) && !d.DFlow? && asked <= indent
    requires after == [] || after[0].indent < indent
    ensures RenderBlock(d, indent) != [] && RenderBlock(d, indent)[0].indent == indent
    ensures Block(RenderBlock(d, indent) + after, asked) == Ok(Parsed(DocValue(d), after))
    decreases d, 0
  {
    match d
    case DMap(pairs) =>
      AvoidsNothing(pairs);
      assert Keys([]) == {};
      FirstLine(pairs.key, pairs.value, indent);
      MappingParses(pairs, indent, after, []);
      BlockIsMapping(RenderPairs(pairs, indent) + after, asked, PairValues(pairs), after);
    case DSeq(items) =>
      FirstItemLine(items, indent);
      ItemsParse(items, indent, after, []);
      BlockIsSequence(RenderItems(items, indent) + after, asked, DocValues(items), after);
  }

  lemma BlockIsMapping(lines: seq<Line>, asked: nat, entries: Entries, after: seq<Line>)
    requires lines != [] && lines[0].indent >= asked && !IsItem(lines[0])
    requires after == [] || after[0].indent < lines[0].indent
    requires Mapping(lines, lines[0].indent, []) == Mapping(after, lines[0].indent, [] + entries)
    ensures Block(lines, asked) == Ok(Parsed(YMap(entries), after))
  {
    assert [] + entries == entries;
  }

  lemma BlockIsSequence(lines: seq<Line>, asked: nat, values: seq<Yaml>, after: seq<Line>)
    requires lines != [] && lines[0].indent >= asked && IsItem(lines[0])
    requires after == [] || after[0].indent < lines[0].indent
    requires Sequence(lines, lines[0].indent, []) == Sequence(after, lines[0].indent, [] + values)
    ensures Block(lines, asked) == Ok(Parsed(YSeq(values), after))
  {
    assert [] + values == values;
  }

  lemma FirstItemLine(items: Docs, indent: nat)
    requires items.Docs? && ValidItems(items)
    ensures RenderItem(items.head, indent) != []
    ensures RenderItems(items, indent)[0].indent == indent && IsItem(RenderItems(items, indent)[0])
  {
  }

  lemma {:induction false} MappingTakesRendered(key: string, value: Doc, indent: nat, later: seq<Line>, output: Entries)
    requires IsPlainKey(key) && ValidDoc(value) && Stops(later, indent) && key !in Keys(output)
    ensures Mapping(RenderPair(key, value, indent) + later, indent, output)
         == Mapping(later, indent, output + [(key, DocValue(value))])
    decreases value, 2
  {
    var first := RenderPair(key, value, indent);
    var pair := (key, DocValue(value));
    assert Mapping([first[0]] + (first[1..] + later), indent, output)
        == Mapping(later, indent, Assign(output, key, DocValue(value))) by {
      FirstLine(key, value, indent);
      PairParses(key, value, indent, later);
      MappingTakesPair(first[0], first[1..] + later, indent, output, pair, later);
    }
    assert Assign(output, key, DocValue(value)) == output + [pair] by {
      AssignFresh(output, key, DocValue(value));
    }
    FirstAndRest(first, later);
  }

  lemma {:induction false} MappingParses(pairs: Pairs, indent: nat, after: seq<Line>, output: Entries)
    requires ValidPairs(pairs) && Stops(after, indent) && Avoids(pairs, Keys(output))
    ensures Mapping(RenderPairs(pairs, indent) + after, indent, output)
         == Mapping(after, indent, output + PairValues(pairs))
    decreases pairs, 0
  {
    match pairs
    case NoPairs =>
      assert [] + after == after && output + [] == output;
    case Pairs(key, value, rest) =>
      var first := RenderPair(key, value, indent);
      var later := RenderPairs(rest, indent) + after;
      var output' := output + [(key, DocValue(value))];
      assert Mapping(first + later, indent, output) == Mapping(later, indent, output') by {
        MappingTakesRendered(key, value, indent, later, output);
      }
      assert Mapping(later, indent, output') == Mapping(after, indent, output' + PairValues(rest)) by {
        AssignFresh(output, key, DocValue(value));
        AvoidsOneMore(rest, Keys(output), key);
        MappingParses(rest, indent, after, output');
      }
      Associates(first, RenderPairs(rest, indent), after);
      Associates(output, [(key, DocValue(value))], PairValues(rest));
  }

  lemma FirstAndRest<T>(a: seq<T>, b: seq<T>)
    requires a != []
    ensures a + b == [a[0]] + (a[1..] + b)
  {
  }

  lemma {:induction false} ItemTakesRendered(key: string, value: Doc, indent: nat, later: seq<Line>, item: Entries)
    requires IsPlainKey(key) && ValidDoc(value) && Stops(later, indent + 2) && key !in Keys(item)
    ensures ItemKeys(RenderPair(key, value, indent + 2) + later, indent, item)
         == ItemKeys(later, indent, item + [(key, DocValue(value))])
    decreases value, 2
  {
    var first := RenderPair(key, value, indent + 2);
    var pair := (key, DocValue(value));
    assert ItemKeys([first[0]] + (first[1..] + later), indent, item)
        == ItemKeys(later, indent, Assign(item, key, DocValue(value))) by {
      FirstLine(key, value, indent + 2);
      PairParses(key, value, indent + 2, later);
      ItemTakesPair(first[0], first[1..] + later, indent, item, pair, later);
    }
    assert Assign(item, key, DocValue(value)) == item + [pair] by {
      AssignFresh(item, key, DocValue(value));
    }
    FirstAndRest(first, later);
  }

  /** The keys after the first of a mapping item, two columns in from the dash. */
  lemma {:induction false} ItemKeysParse(pairs: Pairs, indent: nat, after: seq<Line>, item: Entries)
    requires ValidPairs(pairs) && Stops(after, indent) && Avoids(pairs, Keys(item))
    ensures ItemKeys(RenderPairs(pairs, indent + 2) + after, indent, item)
         == Ok(Parsed(item + PairValues(pairs), after))
    decreases pairs, 0
  {
    match pairs
    case NoPairs =>
      assert [] + after == after && item + [] == item;
    case Pairs(key, value, rest) =>
      var first := RenderPair(key, value, indent + 2);
      var later := RenderPairs(rest, indent + 2) + after;
      var item' := item + [(key, DocValue(value))];
      assert ItemKeys(first + later, indent, item) == ItemKeys(later, indent, item') by {
        LaterKeysStop(rest, indent, after);
        ItemTakesRendered(key, value, indent, later, item);
      }
      assert ItemKeys(later, indent, item') == Ok(Parsed(item' + PairValues(rest), after)) by {
        AssignFresh(item, key, DocValue(value));
        AvoidsOneMore(rest, Keys(item), key);
        ItemKeysParse(rest, indent, after, item');
      }
      Associates(first, RenderPairs(rest, indent + 2), after);
      Associates(item, [(key, DocValue(value))], PairValues(rest));
  }

  lemma LaterItemsStop(tail: Docs, indent: nat, after: seq<Line>)
    requires ValidItems(tail) && Stops(after, indent)
    ensures Stops(RenderItems(tail, indent) + after, indent)
  {
    if tail.Docs? {
      FirstItemLine(tail, indent);
    } else {
      assert [] + after == after;
    }
  }

  lemma {:induction false} ItemsParse(items: Docs, indent: nat, after: seq<Line>, output: seq<Yaml>)
    requires ValidItems(items) && Stops(after, indent)
    ensures Sequence(RenderItems(items, indent) + after, indent, output)
         == Sequence(after, indent, output + DocValues(items))
    decreases items, 0
  {
    match items
    case NoDocs =>
      assert [] + after == after && output + [] == output;
    case Docs(head, tail) =>
      var later := RenderItems(tail, indent) + after;
      var output' := output + [DocValue(head)];
      assert Sequence(RenderItem(head, indent) + later, indent, output) == Sequence(later, indent, output') by {
        LaterItemsStop(tail, indent, after);
        ItemParses(head, indent, later, output);
      }
      assert Sequence(later, indent, output') == Sequence(after, indent, output' + DocValues(tail)) by {
        ItemsParse(tail, indent, after, output');
      }
      Associates(RenderItem(head, indent), RenderItems(tail, indent), after);
      Associates(output, [DocValue(head)], DocValues(tail));
  }

  lemma {:induction false} ItemParses(d: Doc, indent: nat, later: seq<Line>, output: seq<Yaml>)
    requires ValidDoc(d) && !d.DSeq? && (d.DFlow? ==> !LooksLikePair(FlowText(d.flow)))
    requires Stops(later, indent)
    ensures Sequence(RenderItem(d, indent) + later, indent, output)
         == Sequence(later, indent, output + [DocValue(d)])
    decreases d, 0
  {
    match d
    case DFlow(f) =>
      FlowTextSolid(f, false);
      ScalarReads(f, false);
      SequenceTakesScalar(FlowText(f), later, indent, output);
    case DMap(Pairs(key, value, rest)) =>
      var first := RenderPair(key, value, indent + 2);
      var more := RenderPairs(rest, indent + 2) + later;
      var pair := (key, DocValue(value));
      ItemLines(d, indent, later);
      FirstLine(key, value, indent + 2);
      assert Pair(first[1..] + more, first[0].text, indent + 2) == Ok(Parsed(pair, more)) by {
        LaterKeysStop(rest, indent, later);
        PairParses(key, value, indent + 2, more);
      }
      assert ItemKeys(more, indent, [pair]) == Ok(Parsed([pair] + PairValues(rest), later)) by {
        OneKey(rest, pair);
        ItemKeysParse(rest, indent, later, [pair]);
      }
      SequenceTakesMapping(first[0].text, first[1..] + more, indent, output, pair, more, [pair] + PairValues(rest), later);
  }

  /** The lines of a mapping item: its first key beside the dash, and the rest below. */
  lemma ItemLines(d: Doc, indent: nat, later: seq<Line>)
    requires d.DMap? && d.pairs.Pairs?
    ensures var first := RenderPair(d.pairs.key, d.pairs.value, indent + 2);
      RenderItem(d, indent) + later ==
        [Line(indent, "- " + first[0].text)] + (first[1..] + (RenderPairs(d.pairs.rest, indent + 2) + later))
  {
    var first := RenderPair(d.pairs.key, d.pairs.value, indent + 2);
    var all := RenderPairs(d.pairs, indent + 2);
    assert all[0] == first[0] && all[1..] == first[1..] + RenderPairs(d.pairs.rest, indent + 2);
  }

  lemma LaterKeysStop(rest: Pairs, indent: nat, later: seq<Line>)
    requires Stops(later, indent)
    ensures Stops(RenderPairs(rest, indent + 2) + later, indent + 2)
  {
    if rest.NoPairs? {
      assert [] + later == later;
    }
  }

  lemma OneKey(rest: Pairs, pair: (string, Yaml))
    requires !HasKey(rest, pair.0)
    ensures Avoids(rest, Keys([pair]))
  {
    AvoidsNothing(rest);
    AvoidsOneMore(rest, {}, pair.0);
    assert Keys([pair]) == {} + {pair.0};
  }

  // -------------------------------------------------------------- source text

  /** The line survives comment stripping, trimming and line splitting. */
  predicate Clean(line: Line) {
    line.text != "" && Trimmed(line.text) && '\n' !in line.text && StripFrom(line.text, None) == line.text
  }

  predicate AllClean(lines: seq<Line>) {
    forall i :: 0 <= i < |lines| ==> Clean(lines[i])
  }

  lemma CleanLineReads(line: Line)
    requires Clean(line)
    ensures LineOf(LineText(line)) == Some(line)
  {
    var pad, text := Spaces(line.indent), line.text;
    StripQuiet(pad, text);
    assert (pad + text)[|pad + text| - 1] == text[|text| - 1];
    TrimEndOfSolid(pad + text);
    TrimStartOfPadded(pad, text);
    assert Trim(pad + text) == TrimEnd(text);
  }

  lemma CleanLineStays(line: Line)
    requires Clean(line)
    ensures '\n' !in LineText(line) && DropReturn(LineText(line)) == LineText(line)
  {
    var text := LineText(line);
    assert text[|text| - 1] == line.text[|line.text| - 1];
  }

  lemma RawLinesCons(head: string, pieces: seq<string>)
    requires pieces != []
    ensures RawLines([head] + pieces) == [DropReturn(head)] + RawLines(pieces)
  {
    assert ([head] + pieces)[1..] == pieces;
  }

  lemma LinesOfCons(raw: string, raws: seq<string>)
    ensures LinesOf([raw] + raws) == Listed(LineOf(raw)) + LinesOf(raws)
  {
    assert ([raw] + raws)[1..] == raws;
  }

  lemma NoLinesRead()
    ensures SourceLines("") == []
  {
    SplitWithout("", '\n');
    assert Trim("") == "";
    LinesOfCons("", []);
  }

  lemma {:induction false} CleanLinesRead(lines: seq<Line>)
    requires AllClean(lines)
    ensures SourceLines(LinesText(lines)) == lines
  {
    if lines == [] {
      NoLinesRead();
    } else {
      var head, tail := LineText(lines[0]), LinesText(lines[1..]);
      CleanLinesRead(lines[1..]);
      SourceLinesCons(lines[0], tail);
      assert [lines[0]] + lines[1..] == lines;
    }
  }

  lemma SourceLinesCons(line: Line, tail: string)
    requires Clean(line)
    ensures SourceLines(LineText(line) + "\n" + tail) == [line] + SourceLines(tail)
  {
    var head, pieces := LineText(line), Split(tail, '\n');
    assert Split(head + "\n" + tail, '\n') == [head] + pieces by {
      CleanLineStays(line);
      SplitOfSegment(head, tail, '\n');
    }
    assert RawLines([head] + pieces) == [head] + RawLines(pieces) by {
      CleanLineStays(line);
      RawLinesCons(head, pieces);
    }
    assert LinesOf([head] + RawLines(pieces)) == [line] + LinesOf(RawLines(pieces)) by {
      CleanLineReads(line);
      LinesOfCons(head, RawLines(pieces));
    }
  }

  lemma FlowHasNoBreak(f: Flow, inList: bool)
    requires ValidFlow(f, inList)
    ensures '\n' !in FlowText(f)
    decreases f, 1
  {
    match f
    case FInt(n) => Decimal.IntTextChars(n);
    case FPlain(s) =>
    case FList(items) => ItemsHaveNoBreak(items);
    case _ =>
  }

  lemma {:induction false} ItemsHaveNoBreak(items: seq<Flow>)
    requires forall i :: 0 <= i < |items| ==> ValidFlow(items[i], true)
    ensures '\n' !in ItemsText(items)
    decreases items, 0
  {
    if items != [] {
      FlowHasNoBreak(items[0], true);
      ItemsHaveNoBreak(items[1..]);
    }
  }

  lemma FirstLineClean(key: string, value: Doc, indent: nat)
    requires IsPlainKey(key) && ValidDoc(value)
    ensures Clean(RenderPair(key, value, indent)[0])
  {
    FirstLine(key, value, indent);
    PlainKeyIsQuiet(key);
    if value.DFlow? {
      FlowPairClean(key, value.flow);
    } else {
      StripQuiet(key + ":", "");
      assert key + ":" + "" == key + ":";
    }
  }

  lemma FlowPairClean(key: string, f: Flow)
    requires IsQuiet(key) && ValidFlow(f, false)
    ensures var text := key + ": " + FlowText(f); StripFrom(text, None) == text && '\n' !in text
  {
    var text := FlowText(f);
    FlowHasNoBreak(f, false);
    assert StripFrom(text, None) == text by {
      StripFlow(f, false, "");
      assert text + "" == text;
    }
    StripQuiet(key + ": ", text);
  }

  lemma DashClean(indent: nat, text: string)
    requires Clean(Line(indent, text))
    ensures Clean(Line(indent, "- " + text))
  {
    StripQuiet("- ", text);
  }

  lemma RenderItemLineClean(f: Flow, indent: nat)
    requires ValidFlow(f, false)
    ensures Clean(Line(indent, "- " + FlowText(f)))
  {
    FlowTextSolid(f, false);
    FlowHasNoBreak(f, false);
    StripFlow(f, false, "");
    assert FlowText(f) + "" == FlowText(f);
    DashClean(indent, FlowText(f));
  }

  lemma {:induction false} RenderPairClean(key: string, value: Doc, indent: nat)
    requires IsPlainKey(key) && ValidDoc(value)
    ensures AllClean(RenderPair(key, value, indent))
    decreases value, 1
  {
    FirstLineClean(key, value, indent);
    if !value.DFlow? {
      RenderBlockClean(value, indent + 2);
    }
  }

  lemma {:induction false} RenderPairsClean(pairs: Pairs, indent: nat)
    requires ValidPairs(pairs)
    ensures AllClean(RenderPairs(pairs, indent))
    decreases pairs, 0
  {
    if pairs.Pairs? {
      RenderPairClean(pairs.key, pairs.value, indent);
      RenderPairsClean(pairs.rest, indent);
    }
  }

  lemma {:induction false} RenderItemsClean(items: Docs, indent: nat)
    requires ValidItems(items)
    ensures AllClean(RenderItems(items, indent))
    decreases items, 0
  {
    match items
    case NoDocs =>
    case Docs(head, tail) =>
      match head {
        case DFlow(f) => RenderItemLineClean(f, indent);
        case DMap(pairs) =>
          RenderPairsClean(pairs, indent + 2);
          var ls := RenderPairs(pairs, indent + 2);
          assert Clean(Line(indent, ls[0].text));
          DashClean(indent, ls[0].text);
      }
      assert AllClean(RenderItem(head, indent));
      RenderItemsClean(tail, indent);
  }

  lemma {:induction false} RenderBlockClean(d: Doc, indent: nat)
    requires ValidDoc(d)
    ensures AllClean(RenderBlock(d, indent))
    decreases d, 0
  {
    match d
    case DFlow(_) =>
    case DSeq(items) => RenderItemsClean(items, indent);
    case DMap(pairs) => RenderPairsClean(pairs, indent);
  }

  /** Parsing the rendering of a block document assigns the document's value, at every depth. */
  lemma RoundTrip(d: Doc)
    requires ValidDoc(d) && !d.DFlow?
    ensures ParseText(Render(d)) == Ok(DocValue(d))
  {
    RenderBlockClean(d, 0);
    CleanLinesRead(RenderBlock(d, 0));
    BlockParses(d, 0, [], 0);
    assert RenderBlock(d, 0) + [] == RenderBlock(d, 0);
  }

  /**
   The source gets that value as properties exactly when no key is `__proto__`; otherwise it
   gets the rest of it.
   */
  lemma RoundTripOwnsExactly(d: Doc)
    requires ValidDoc(d) && !d.DFlow?
    ensures var parsed := ParseText(Render(d));
      parsed.Ok? && (Own(parsed.value) == DocValue(d) <==> NamesNoPrototype(d))
  {
    RoundTrip(d);
    OwnExactly(d);
  }

  /** A document of one pair under `__proto__` is read as an empty record. */
  lemma PrototypeIsLost(f: Flow)
    requires ValidFlow(f, false)
    ensures var d := DMap(Pairs(PROTOTYPE, DFlow(f), NoPairs));
      && ValidDoc(d) && ParseText(Render(d)).Ok?
      && Own(ParseText(Render(d)).value) == YMap([]) != DocValue(d)
  {
    var d := DMap(Pairs(PROTOTYPE, DFlow(f), NoPairs));
    assert PROTOTYPE[0] == '_' && forall k :: 0 <= k < |PROTOTYPE| ==> IsKeyTail(PROTOTYPE[k]);
    assert ValidDoc(DFlow(f)) && ValidPairs(NoPairs) && !HasKey(NoPairs, PROTOTYPE);
    RoundTrip(d);
    assert PairValues(NoPairs) == [];
    assert PairValues(d.pairs) == [(PROTOTYPE, FlowValue(f))] + [];
    assert OwnEntries(PairValues(d.pairs)) == [] + OwnEntries([]);
  }

  /** Two documents with one rendering have one value: the printed form is unambiguous. */
  lemma RenderingDeterminesValue(d: Doc, e: Doc)
    requires ValidDoc(d) && !d.DFlow? && ValidDoc(e) && !e.DFlow?
    requires Render(d) == Render(e)
    ensures DocValue(d) == DocValue(e)
  {
    RoundTrip(d);
    RoundTrip(e);
  }

  /** What a sequence item reads as when its text looks like a pair: a mapping of one key. */
  function PairItem(text: string): Yaml
    requires LooksLikePair(text)
  {
    var pair := SplitPair(text).value;
    YMap([(pair.key, if pair.value == "" then YNull else Scalar(pair.value))])
  }

  /** A sequence of one scalar or inline list. */
  function OneItem(f: Flow): Doc {
    DSeq(Docs(DFlow(f), NoDocs))
  }

  /**
   The one restriction on scalar items is exact: a one-item sequence parses to that scalar
   exactly when its text does not look like a pair, and else to that pair's mapping.
   */
  lemma ScalarItemReadsExactly(f: Flow)
    requires ValidFlow(f, false)
    ensures ParseText(Render(OneItem(f))) == Ok(YSeq([FlowValue(f)])) <==> !LooksLikePair(FlowText(f))
    ensures LooksLikePair(FlowText(f)) ==> ParseText(Render(OneItem(f))) == Ok(YSeq([PairItem(FlowText(f))]))
  {
    if LooksLikePair(FlowText(f)) {
      PairLikeRenders(f);
      PairLikeItem(FlowText(f));
      assert [PairItem(FlowText(f))][0] != [FlowValue(f)][0];
    } else {
      ScalarItemReads(f);
    }
  }

  lemma ScalarItemReads(f: Flow)
    requires ValidFlow(f, false) && !LooksLikePair(FlowText(f))
    ensures ParseText(Render(OneItem(f))) == Ok(YSeq([FlowValue(f)]))
  {
    var d := OneItem(f);
    assert ValidItems(NoDocs) && DocValues(NoDocs) == [];
    assert ValidItems(d.items);
    RoundTrip(d);
    assert DocValues(d.items) == [FlowValue(f)] + DocValues(NoDocs) == [FlowValue(f)];
  }

  lemma PairLikeRenders(f: Flow)
    requires ValidFlow(f, false)
    ensures SourceLines(Render(OneItem(f))) == [Line(0, "- " + FlowText(f))]
    ensures FlowText(f) != "" && Trimmed(FlowText(f))
  {
    var line := Line(0, "- " + FlowText(f));
    var items := Docs(DFlow(f), NoDocs);
    assert RenderItems(items, 0) == [line] + RenderItems(NoDocs, 0) == [line];
    FlowTextSolid(f, false);
    RenderItemLineClean(f, 0);
    CleanLinesRead([line]);
  }

  lemma PairLikeItem(text: string)
    requires text != "" && Trimmed(text) && LooksLikePair(text)
    ensures Complete(Block([Line(0, "- " + text)], 0)) == Ok(YSeq([PairItem(text)]))
  {
    var line := Line(0, "- " + text);
    OnlyMapping(text);
    assert IsItem(line) by {
      DashText(text);
    }
  }

  lemma OnlyMapping(text: string)
    requires text != "" && Trimmed(text) && LooksLikePair(text)
    ensures Sequence([Line(0, "- " + text)], 0, []) == Ok(Parsed(YSeq([PairItem(text)]), []))
  {
    var line := Line(0, "- " + text);
    PairAlone(text);
    var entry := Pair([], text, 2).value.value;
    assert ItemKeys([], 0, [entry]) == Ok(Parsed([entry], []));
    SequenceTakesMapping(text, [], 0, [], entry, [], [entry], []);
    assert [line] + [] == [line] && [] + [YMap([entry])] == [YMap([entry])];
  }

  lemma PairAlone(text: string)
    requires LooksLikePair(text)
    ensures Pair([], text, 2).Ok? && Pair([], text, 2).value.rest == [] && PairItem(text) == YMap([Pair([], text, 2).value.value])
  {
  }

  function QuotedPair(q: char, key: string, s: string): string {
    [q] + (key + ":" + s) + [q]
  }

  lemma QuotedColon(q: char, key: string, s: string)
    requires IsQuoteChar(q) && IsPlainKey(key)
    ensures var text := QuotedPair(q, key, s);
      && IndexOf(text, ':') == |key| + 1
      && text[..|key| + 1] == [q] + key && text[|key| + 2..] == s + [q]
  {
    var text := QuotedPair(q, key, s);
    assert text == ([q] + key) + ":" + (s + [q]);
    assert forall i :: 0 <= i < |key| + 1 ==> text[i] == ([q] + key)[i];
    IndexOfIs(text, ':', |key| + 1);
  }

  lemma QuotedKeyIsTrimmed(q: char, key: string)
    requires IsQuoteChar(q) && IsPlainKey(key)
    ensures Trim([q] + key) == [q] + key && Unquote([q] + key) == [q] + key
    ensures DropQuoteLast(DropQuoteHead([q] + key)) == key
  {
    var last := ([q] + key)[|key|];
    assert last == key[|key| - 1] && (IsKeyHead(last) || IsKeyTail(last));
    TrimmedIsFixed([q] + key);
    assert ([q] + key)[1..] == key;
  }

  lemma EndsSolid(s: string, c: char)
    requires !IsSpace(c)
    ensures Trim(s + [c]) != ""
  {
    TrimBlank(s + [c]);
    assert (s + [c])[|s|] == c;
  }

  /**
   A quoted scalar whose text starts with a plain key and a colon is such a text: as an item
   it becomes a mapping, the opening quote stays in the key, and the closing one in the value.
   */
  lemma QuotedColonItem(q: char, key: string, s: string)
    requires IsQuoteChar(q) && IsPlainKey(key) && q !in s && '\n' !in s
    ensures ParseText(Render(OneItem(FQuoted(q, key + ":" + s)))) == Ok(YSeq([YMap([([q] + key, Scalar(Trim(s + [q])))])]))
  {
    var f := FQuoted(q, key + ":" + s);
    assert q !in key && '\n' !in key;
    assert ValidFlow(f, false);
    QuotedColon(q, key, s);
    QuotedKeyIsTrimmed(q, key);
    EndsSolid(s, q);
    assert FlowText(f) == QuotedPair(q, key, s);
    ScalarItemReadsExactly(f);
  }
}
