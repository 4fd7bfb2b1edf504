/**
 From source text to parsed value: line splitting, comment stripping, trimming,
 blank-line removal and the parse; and what any parse is allowed to consume.
 */
module YamlLint {
  import opened Wrappers
  import opened JsText
  import opened Concatenation
  import opened YamlScan
  import opened YamlParser

  /** One piece of `source.split("\n")` that a newline follows: `\r?\n` is the separator. */
  function DropReturn(piece: string): string {
    if EndsWith(piece, "\r") then piece[..|piece| - 1] else piece
  }

  function RawLines(pieces: seq<string>): seq<string>
    requires pieces != []
  {
    if |pieces| == 1 then pieces else [DropReturn(pieces[0])] + RawLines(pieces[1..])
  }

  /** The parser's view of one raw line, unless the line is blank or a comment. */
  function LineOf(raw: string): Option<Line> {
    var text := TrimEnd(StripFrom(raw, None));
    if Trim(text) == "" then None
    else Some(Line(|text| - |TrimStart(text)|, TrimStart(text)))
  }

  function LinesOf(raws: seq<string>): seq<Line> {
    if raws == [] then []
    else Listed(LineOf(raws[0])) + LinesOf(raws[1..])
  }

  function Listed<T>(o: Option<T>): seq<T> {
    if o.Some? then [o.value] else []
  }

  function SourceLines(source: string): seq<Line> {
    LinesOf(RawLines(Split(source, '\n')))
  }

  function ParseText(source: string): Result<Yaml, ParseError> {
    Complete(Block(SourceLines(source), 0))
  }

  method PrepareLine(raw: string) returns (line: Option<Line>)
    ensures line == LineOf(raw)
  {
    var stripped := StripYamlComment(raw);
    var text := TrimEnd(stripped);
    if |Trim(text)| == 0 {
      return None;
    }
    return Some(Line(|text| - |TrimStart(text)|, TrimStart(text)));
  }

  lemma LinesOfStep(raws: seq<string>, lines: seq<Line>, i: nat)
    requires i < |raws| && LinesOf(raws) == lines + LinesOf(raws[i..])
    ensures LinesOf(raws) == lines + Listed(LineOf(raws[i])) + LinesOf(raws[i + 1..])
  {
    assert raws[i..][0] == raws[i] && raws[i..][1..] == raws[i + 1..];
    Associates(lines, Listed(LineOf(raws[i])), LinesOf(raws[i + 1..]));
  }

  method PrepareLines(raws: seq<string>) returns (lines: seq<Line>)
    ensures lines == LinesOf(raws)
  {
    lines := [];
    var i := 0;
    ghost var all := LinesOf(raws);
    while i < |raws|
      invariant 0 <= i <= |raws|
      invariant all == LinesOf(raws) && all == lines + LinesOf(raws[i..])
    {
      var line := PrepareLine(raws[i]);
      LinesOfStep(raws, lines, i);
      lines := lines + Listed(line);
      i := i + 1;
    }
  }

  method ParseSimpleYaml(source: string) returns (r: Result<Yaml, ParseError>)
    ensures r == ParseText(source)
  {
    var lines := PrepareLines(RawLines(Split(source, '\n')));
    var parser := new SimpleYamlParser(lines);
    r := parser.ParseAll();
  }

  /** `rest` is what is left of `lines` after lines of at least this depth were consumed. */
  ghost predicate Consumed(lines: seq<Line>, rest: seq<Line>, indent: nat) {
    && |rest| <= |lines|
    && rest == lines[|lines| - |rest|..]
    && forall k :: 0 <= k < |lines| - |rest| ==> lines[k].indent >= indent
  }

  lemma ConsumedNone(lines: seq<Line>, indent: nat)
    ensures Consumed(lines, lines, indent)
  {
  }

  lemma ConsumedStep(lines: seq<Line>, mid: seq<Line>, rest: seq<Line>, first: nat, later: nat, indent: nat)
    requires lines != [] && lines[0].indent >= indent && first >= indent && later >= indent
    requires Consumed(lines[1..], mid, first) && Consumed(mid, rest, later)
    ensures Consumed(lines, rest, indent)
  {
    assert forall k :: 1 <= k < |lines| ==> lines[k] == lines[1..][k - 1];
    var a := |lines| - |mid|;
    assert mid == lines[a..];
    assert forall k :: a <= k < |lines| ==> lines[k] == mid[k - a];
  }

  /**
   A child block consumes only lines deeper than its parent: a parse never takes a
   line that belongs to an enclosing block, whatever the text is.
   */
  lemma {:induction false} ChildConsumes(lines: seq<Line>, parentIndent: nat)
    requires Child(lines, parentIndent).Ok?
    ensures Consumed(lines, Child(lines, parentIndent).value.rest, parentIndent + 1)
    decreases |lines|, 2
  {
    if lines == [] || lines[0].indent <= parentIndent {
      ConsumedNone(lines, parentIndent + 1);
    } else {
      BlockConsumes(lines, lines[0].indent);
    }
  }

  lemma {:induction false} BlockConsumes(lines: seq<Line>, indent: nat)
    requires Block(lines, indent).Ok?
    ensures Consumed(lines, Block(lines, indent).value.rest, indent)
    decreases |lines|, 1
  {
    if lines == [] || lines[0].indent < indent {
      ConsumedNone(lines, indent);
    } else if IsItem(lines[0]) {
      SequenceConsumes(lines, lines[0].indent, []);
    } else {
      MappingConsumes(lines, lines[0].indent, []);
    }
  }

  lemma {:induction false} PairConsumes(lines: seq<Line>, text: string, indent: nat)
    requires Pair(lines, text, indent).Ok?
    ensures Consumed(lines, Pair(lines, text, indent).value.rest, indent + 1)
    decreases |lines|, 3
  {
    if SplitPair(text).value.value == "" {
      ChildConsumes(lines, indent);
    } else {
      ConsumedNone(lines, indent + 1);
    }
  }

  lemma {:induction false} MappingConsumes(lines: seq<Line>, indent: nat, output: Entries)
    requires Mapping(lines, indent, output).Ok?
    ensures Consumed(lines, Mapping(lines, indent, output).value.rest, indent)
    decreases |lines|, 0
  {
    if lines == [] || lines[0].indent < indent || IsItem(lines[0]) {
      ConsumedNone(lines, indent);
    } else {
      var pair := Pair(lines[1..], lines[0].text, indent).value;
      var output' := Assign(output, pair.value.0, pair.value.1);
      PairConsumes(lines[1..], lines[0].text, indent);
      MappingConsumes(pair.rest, indent, output');
      ConsumedStep(lines, pair.rest, Mapping(pair.rest, indent, output').value.rest, indent + 1, indent, indent);
    }
  }

  lemma {:induction false} ItemKeysConsumes(lines: seq<Line>, indent: nat, item: Entries)
    requires ItemKeys(lines, indent, item).Ok?
    ensures Consumed(lines, ItemKeys(lines, indent, item).value.rest, indent + 1)
    decreases |lines|, 0
  {
    if lines == [] || lines[0].indent <= indent {
      ConsumedNone(lines, indent + 1);
    } else {
      var depth := lines[0].indent;
      var pair := Pair(lines[1..], lines[0].text, depth).value;
      var item' := Assign(item, pair.value.0, pair.value.1);
      PairConsumes(lines[1..], lines[0].text, depth);
      ItemKeysConsumes(pair.rest, indent, item');
      ConsumedStep(lines, pair.rest, ItemKeys(pair.rest, indent, item').value.rest, depth + 1, indent + 1, indent + 1);
    }
  }

  lemma {:induction false} SequenceConsumes(lines: seq<Line>, indent: nat, output: seq<Yaml>)
    requires Sequence(lines, indent, output).Ok?
    ensures Consumed(lines, Sequence(lines, indent, output).value.rest, indent)
    decreases |lines|, 0
  {
    if lines == [] || lines[0].indent < indent || !IsItem(lines[0]) {
      ConsumedNone(lines, indent);
    } else {
      var text := Trim(lines[0].text[2..]);
      var rest := Sequence(lines, indent, output).value.rest;
      if text == "" {
        var child := Child(lines[1..], indent).value;
        ChildConsumes(lines[1..], indent);
        SequenceConsumes(child.rest, indent, output + [child.value]);
        ConsumedStep(lines, child.rest, rest, indent + 1, indent, indent);
      } else if LooksLikePair(text) {
        var pair := Pair(lines[1..], text, indent + 2).value;
        var item := ItemKeys(pair.rest, indent, [pair.value]).value;
        PairConsumes(lines[1..], text, indent + 2);
        ItemKeysConsumes(pair.rest, indent, [pair.value]);
        SequenceConsumes(item.rest, indent, output + [YMap(item.value)]);
        ConsumedStep(lines, pair.rest, item.rest, indent + 3, indent + 1, indent);
        ConsumedThen(lines, item.rest, rest, indent);
      } else {
        ConsumedNone(lines[1..], indent);
        SequenceConsumes(lines[1..], indent, output + [Scalar(text)]);
        ConsumedStep(lines, lines[1..], rest, indent, indent, indent);
      }
    }
  }

  lemma ConsumedThen(lines: seq<Line>, mid: seq<Line>, rest: seq<Line>, indent: nat)
    requires Consumed(lines, mid, indent) && Consumed(mid, rest, indent)
    ensures Consumed(lines, rest, indent)
  {
    var a := |lines| - |mid|;
    assert forall k :: a <= k < |lines| ==> lines[k] == mid[k - a];
  }
}
