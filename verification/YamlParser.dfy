/**
 The indentation-driven parser of the gate-definition lint.  The functions below
 say what is parsed from a list of lines and which lines are left; the class is
 the recursive-descent parser over a line index, proved against them.
 */
module YamlParser {
  import opened Wrappers
  import opened JsText
  import opened YamlScan

  datatype Line = Line(indent: nat, text: string)

  datatype ParseError =
    | UnexpectedIndentation(text: string)
    | ItemNeedsKey(text: string)
    | ExpectedPair(text: string)
    | UnexpectedLine(text: string)

  /** A parsed value and the lines that follow it. */
  datatype Parsed<+T> = Parsed(value: T, rest: seq<Line>)

  type Parse<+T> = Result<Parsed<T>, ParseError>

  type Entries = seq<(string, Yaml)>

  predicate IsItem(line: Line) {
    StartsWith(line.text, "- ")
  }

  function KeyIndex(entries: Entries, key: string): (i: nat)
    ensures i <= |entries|
    ensures forall j :: 0 <= j < i ==> entries[j].0 != key
    ensures i < |entries| ==> entries[i].0 == key
  {
    if entries == [] || entries[0].0 == key then 0 else 1 + KeyIndex(entries[1..], key)
  }

  /** `output[key] = value`: a repeated key keeps its first position. */
  function Assign(entries: Entries, key: string, value: Yaml): Entries {
    var i := KeyIndex(entries, key);
    if i < |entries| then entries[i := (key, value)] else entries + [(key, value)]
  }

  function Block(lines: seq<Line>, indent: nat): (r: Parse<Yaml>)
    ensures r.Ok? ==> |r.value.rest| <= |lines|
    decreases |lines|, 1
  {
    if lines == [] || lines[0].indent < indent then Ok(Parsed(YMap([]), lines))
    else if IsItem(lines[0]) then Sequence(lines, lines[0].indent, [])
    else Mapping(lines, lines[0].indent, [])
  }

  function Mapping(lines: seq<Line>, indent: nat, output: Entries): (r: Parse<Yaml>)
    ensures r.Ok? ==> |r.value.rest| <= |lines|
    decreases |lines|, 0
  {
    if lines == [] || lines[0].indent < indent then Ok(Parsed(YMap(output), lines))
    else if lines[0].indent > indent then Err(UnexpectedIndentation(lines[0].text))
    else if IsItem(lines[0]) then Ok(Parsed(YMap(output), lines))
    else
      var pair :- Pair(lines[1..], lines[0].text, indent);
      Mapping(pair.rest, indent, Assign(output, pair.value.0, pair.value.1))
  }

  function Sequence(lines: seq<Line>, indent: nat, output: seq<Yaml>): (r: Parse<Yaml>)
    ensures r.Ok? ==> |r.value.rest| <= |lines|
    decreases |lines|, 0
  {
    if lines == [] || lines[0].indent < indent then Ok(Parsed(YSeq(output), lines))
    else if lines[0].indent > indent then Err(UnexpectedIndentation(lines[0].text))
    else if !IsItem(lines[0]) then Ok(Parsed(YSeq(output), lines))
    else
      var text := Trim(lines[0].text[2..]);
      if text == "" then
        var child :- Child(lines[1..], indent);
        Sequence(child.rest, indent, output + [child.value])
      else if LooksLikePair(text) then
        var pair :- Pair(lines[1..], text, indent + 2);
        var item :- ItemKeys(pair.rest, indent, [pair.value]);
        Sequence(item.rest, indent, output + [YMap(item.value)])
      else
        Sequence(lines[1..], indent, output + [Scalar(text)])
  }

  /** The further keys of a sequence item, at whatever depth each of them has. */
  function ItemKeys(lines: seq<Line>, indent: nat, item: Entries): (r: Parse<Entries>)
    ensures r.Ok? ==> |r.value.rest| <= |lines|
    decreases |lines|, 0
  {
    if lines == [] || lines[0].indent <= indent then Ok(Parsed(item, lines))
    else if IsItem(lines[0]) then Err(ItemNeedsKey(lines[0].text))
    else
      var pair :- Pair(lines[1..], lines[0].text, lines[0].indent);
      ItemKeys(pair.rest, indent, Assign(item, pair.value.0, pair.value.1))
  }

  /** A key/value text whose own line, at depth `indent`, is already consumed. */
  function Pair(lines: seq<Line>, text: string, indent: nat): (r: Parse<(string, Yaml)>)
    ensures r.Ok? ==> |r.value.rest| <= |lines|
    decreases |lines|, 3
  {
    match SplitPair(text)
    case None => Err(ExpectedPair(text))
    case Some(PairText(key, value)) =>
      if value == "" then
        var child :- Child(lines, indent);
        Ok(Parsed((key, child.value), child.rest))
      else
        Ok(Parsed((key, Scalar(value)), lines))
  }

  function Child(lines: seq<Line>, parentIndent: nat): (r: Parse<Yaml>)
    ensures r.Ok? ==> |r.value.rest| <= |lines|
    decreases |lines|, 2
  {
    if lines == [] || lines[0].indent <= parentIndent then Ok(Parsed(YNull, lines))
    else Block(lines, lines[0].indent)
  }

  function Complete(r: Parse<Yaml>): Result<Yaml, ParseError> {
    match r
    case Err(e) => Err(e)
    case Ok(Parsed(value, rest)) => if rest == [] then Ok(value) else Err(UnexpectedLine(rest[0].text))
  }

  class SimpleYamlParser {
    const lines: seq<Line>
    var index: nat

    ghost predicate Valid()
      reads this
    {
      index <= |lines|
    }

    /** The lines not yet consumed. */
    function Rest(): seq<Line>
      reads this
      requires Valid()
    {
      lines[index..]
    }

    /** The parser stands where `p` leaves off, with `p`'s value as result. */
    ghost predicate Reached<T>(p: Parse<T>, r: Result<T, ParseError>)
      reads this
    {
      match p
      case Ok(q) => r == Ok(q.value) && Valid() && Rest() == q.rest
      case Err(e) => r == Err(e)
    }

    constructor (lines: seq<Line>)
      ensures this.lines == lines && index == 0 && Valid()
    {
      this.lines := lines;
      index := 0;
    }

    method ParseBlock(indent: nat) returns (r: Result<Yaml, ParseError>)
      requires Valid()
      modifies this`index
      ensures Reached(Block(old(Rest()), indent), r)
      ensures r.Ok? ==> old(index) <= index
      decreases |lines| - index, 2
    {
      if index == |lines| || lines[index].indent < indent {
        return Ok(YMap([]));
      }
      if StartsWith(lines[index].text, "- ") {
        r := ParseSequence(lines[index].indent);
      } else {
        r := ParseMapping(lines[index].indent);
      }
    }

    /** `parseBlock` from the first line, then the check that every line was consumed. */
    method ParseAll() returns (r: Result<Yaml, ParseError>)
      requires Valid() && index == 0
      modifies this`index
      ensures r == Complete(Block(lines, 0))
      ensures r.Ok? ==> index == |lines|
    {
      assert Rest() == lines;
      r := ParseBlock(0);
      if r.Ok? && index < |lines| {
        r := Err(UnexpectedLine(lines[index].text));
      }
    }

    method ParseMapping(indent: nat) returns (r: Result<Yaml, ParseError>)
      requires Valid()
      modifies this`index
      ensures Reached(Mapping(old(Rest()), indent, []), r)
      ensures r.Ok? ==> old(index) <= index
      decreases |lines| - index, 1
    {
      var output: Entries := [];
      ghost var goal := Mapping(Rest(), indent, []);
      while index < |lines|
        invariant old(index) <= index && Valid()
        invariant goal == Mapping(Rest(), indent, output)
        decreases |lines| - index
      {
        var line := lines[index];
        ghost var here := Rest();
        assert here != [] && here[0] == line;
        if line.indent < indent {
          assert goal == Ok(Parsed(YMap(output), here));
          break;
        }
        if line.indent > indent {
          return Err(UnexpectedIndentation(line.text));
        }
        if StartsWith(line.text, "- ") {
          assert goal == Ok(Parsed(YMap(output), here));
          break;
        }
        var pair := ConsumePair(line.text, indent);
        if pair.Err? {
          assert goal == Err(pair.error);
          return Err(pair.error);
        }
        output := Assign(output, pair.value.0, pair.value.1);
      }
      return Ok(YMap(output));
    }

    method ParseSequence(indent: nat) returns (r: Result<Yaml, ParseError>)
      requires Valid()
      modifies this`index
      ensures Reached(Sequence(old(Rest()), indent, []), r)
      ensures r.Ok? ==> old(index) <= index
      decreases |lines| - index, 1
    {
      var output: seq<Yaml> := [];
      ghost var goal := Sequence(Rest(), indent, []);
      while index < |lines|
        invariant old(index) <= index && Valid()
        invariant goal == Sequence(Rest(), indent, output)
        decreases |lines| - index
      {
        var line := lines[index];
        ghost var here := Rest();
        assert here != [] && here[0] == line;
        if line.indent < indent {
          assert goal == Ok(Parsed(YSeq(output), here));
          break;
        }
        if line.indent > indent {
          return Err(UnexpectedIndentation(line.text));
        }
        if !StartsWith(line.text, "- ") {
          assert goal == Ok(Parsed(YSeq(output), here));
          break;
        }
        var rest := Trim(line.text[2..]);
        index := index + 1;
        assert Rest() == here[1..];
        if |rest| == 0 {
          var child := ParseIndentedChild(indent);
          if child.Err? {
            assert goal == Err(child.error);
            return Err(child.error);
          }
          output := output + [child.value];
        } else if LooksLikePair(rest) {
          var item := ParseItem(rest, indent);
          if item.Err? {
            assert goal == Err(item.error);
            return Err(item.error);
          }
          output := output + [YMap(item.value)];
        } else {
          output := output + [Scalar(rest)];
        }
      }
      return Ok(YSeq(output));
    }

    /** The loop over the keys of one sequence item, whose first key is `text`. */
    method ParseItem(text: string, indent: nat) returns (r: Result<Entries, ParseError>)
      requires Valid()
      modifies this`index
      ensures var first := Pair(old(Rest()), text, indent + 2);
        Reached(if first.Err? then Err(first.error)
                else ItemKeys(first.value.rest, indent, [first.value.value]), r)
      ensures r.Ok? ==> old(index) <= index
      decreases |lines| - index, 5
    {
      var first := ConsumePairText(text, indent + 2);
      if first.Err? {
        return Err(first.error);
      }
      var item: Entries := [first.value];
      ghost var start := Rest();
      while index < |lines|
        invariant old(index) <= index && Valid()
        invariant ItemKeys(start, indent, [first.value]) == ItemKeys(Rest(), indent, item)
        decreases |lines| - index
      {
        var next := lines[index];
        if next.indent <= indent {
          break;
        }
        if StartsWith(next.text, "- ") {
          return Err(ItemNeedsKey(next.text));
        }
        var pair := ConsumePair(next.text, next.indent);
        if pair.Err? {
          return Err(pair.error);
        }
        item := Assign(item, pair.value.0, pair.value.1);
      }
      return Ok(item);
    }

    method ParseIndentedChild(parentIndent: nat) returns (r: Result<Yaml, ParseError>)
      requires Valid()
      modifies this`index
      ensures Reached(Child(old(Rest()), parentIndent), r)
      ensures r.Ok? ==> old(index) <= index
      decreases |lines| - index, 3
    {
      if index == |lines| || lines[index].indent <= parentIndent {
        return Ok(YNull);
      }
      r := ParseBlock(lines[index].indent);
    }

    method ConsumePair(text: string, indent: nat) returns (r: Result<(string, Yaml), ParseError>)
      requires Valid() && index < |lines|
      modifies this`index
      ensures Reached(Pair(old(Rest())[1..], text, indent), r)
      ensures r.Ok? ==> old(index) < index
      decreases |lines| - index, 0
    {
      ghost var here := Rest();
      index := index + 1;
      assert Rest() == here[1..];
      r := ConsumePairText(text, indent);
    }

    method ConsumePairText(text: string, indent: nat) returns (r: Result<(string, Yaml), ParseError>)
      requires Valid()
      modifies this`index
      ensures Reached(Pair(old(Rest()), text, indent), r)
      ensures r.Ok? ==> old(index) <= index
      decreases |lines| - index, 4
    {
      match SplitPair(text)
      case None =>
        r := Err(ExpectedPair(text));
      case Some(PairText(key, value)) =>
        if |value| == 0 {
          var child := ParseIndentedChild(indent);
          r := if child.Ok? then Ok((key, child.value)) else Err(child.error);
        } else {
          r := Ok((key, Scalar(value)));
        }
    }
  }
}
