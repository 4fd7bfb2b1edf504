/**
 The stdio framer of the MCP adapter: chunks are appended to a buffer that is drained
 line by line.  What is handled, and so what is written, depends only on the text of
 all chunks together.
 */
module StdioFramer {
  import opened Wrappers
  import opened JsText

  /** What the adapter does with one trimmed, non-blank line: its new state and its response. */
  type Handler<!S> = (S, string) -> (S, Option<string>)

  datatype Session<S> = Session(state: S, written: seq<string>)

  function Listed(response: Option<string>): seq<string> {
    if response.Some? then [response.value + "\n"] else []
  }

  /** `writeLineResponse`: blank lines are ignored. */
  function HandleLine<S>(h: Handler<S>, s: Session<S>, line: string): Session<S> {
    var trimmed := Trim(line);
    if trimmed == "" then s
    else
      var (state, response) := h(s.state, trimmed);
      Session(state, s.written + Listed(response))
  }

  function HandleAll<S>(h: Handler<S>, s: Session<S>, lines: seq<string>): Session<S>
    decreases |lines|
  {
    if lines == [] then s else HandleAll(h, HandleLine(h, s, lines[0]), lines[1..])
  }

  /** The reference: all the text at once, split on newlines. */
  function Batch<S>(h: Handler<S>, s: Session<S>, text: string): Session<S> {
    HandleAll(h, s, Split(text, '\n'))
  }

  function Concat(chunks: seq<string>): string {
    if chunks == [] then "" else chunks[0] + Concat(chunks[1..])
  }

  /** The lines of a buffer that a newline ends. */
  function CompleteLines(buffer: string): seq<string> {
    var pieces := Split(buffer, '\n');
    pieces[..|pieces| - 1]
  }

  /** The part of a buffer after its last newline. */
  function Pending(buffer: string): string {
    var pieces := Split(buffer, '\n');
    pieces[|pieces| - 1]
  }

  // ------------------------------------------------------------------- trimming

  lemma {:induction false} TrimEndOfPadded(s: string, pad: string)
    requires Blank(pad) && s != "" && !IsSpace(s[|s| - 1])
    ensures TrimEnd(s + pad) == s
    decreases |pad|
  {
    if pad == "" {
      assert s + pad == s;
    } else {
      var t := s + pad;
      assert t[..|t| - 1] == s + pad[..|pad| - 1];
      TrimEndOfPadded(s, pad[..|pad| - 1]);
    }
  }

  lemma ThreeParts(s: string, r: string, core: string)
    requires |core| <= |r| <= |s| && r == s[|s| - |r|..] && core == r[..|core|]
    ensures s == s[..|s| - |r|] + core + r[|core|..]
  {
  }

  lemma CutAt(s: string, i: nat, more: string)
    requires i < |s|
    ensures s == s[..i] + [s[i]] + s[i + 1..]
    ensures s + more == s[..i] + [s[i]] + (s[i + 1..] + more)
  {
  }

  /** Trimming the end first, as the drain does, does not change what is handled. */
  lemma TrimOfTrimEnd(s: string)
    ensures Trim(TrimEnd(s)) == Trim(s)
  {
    var r := TrimStart(s);
    TrimStartIs(s);
    TrimEndIs(r);
    if r == "" {
      TrimEndOfBlank(s);
    } else {
      var core := TrimEnd(r);
      assert core != "" && core[0] == r[0] && !IsSpace(core[|core| - 1]);
      var front, back := s[..|s| - |r|], r[|core|..];
      ThreeParts(s, r, core);
      TrimOfParts(front, core, back);
    }
  }

  lemma TrimEndOfBlank(s: string)
    requires Blank(s)
    ensures TrimEnd(s) == "" && Trim(s) == "" && Trim("") == ""
  {
    TrimBlank(s);
  }

  lemma TrimOfParts(front: string, core: string, back: string)
    requires Blank(front) && Blank(back) && core != "" && Trimmed(core)
    ensures Trim(TrimEnd(front + core + back)) == core
  {
    assert (front + core)[|front + core| - 1] == core[|core| - 1];
    TrimEndOfPadded(front + core, back);
    TrimStartOfPadded(front, core);
    TrimmedIsFixed(core);
  }

  // ------------------------------------------------------------------- splitting

  lemma PartsOfSegment(head: string, tail: string)
    requires '\n' !in head
    ensures CompleteLines(head + ['\n'] + tail) == [head] + CompleteLines(tail)
    ensures Pending(head + ['\n'] + tail) == Pending(tail)
  {
    SplitOfSegment(head, tail, '\n');
  }

  lemma PartsOfLine(line: string)
    requires '\n' !in line
    ensures CompleteLines(line) == [] && Pending(line) == line
  {
    SplitWithout(line, '\n');
  }

  lemma ConsAssociates<T>(a: T, b: seq<T>, c: seq<T>)
    ensures [a] + (b + c) == ([a] + b) + c
  {
  }

  /** More text after a buffer only extends the pending part. */
  lemma {:induction false} SplitAppend(buffer: string, more: string)
    ensures Split(buffer + more, '\n') == CompleteLines(buffer) + Split(Pending(buffer) + more, '\n')
    decreases |buffer|
  {
    var i := IndexOf(buffer, '\n');
    IndexOfFinds(buffer, '\n');
    if i == NOT_FOUND {
      PartsOfLine(buffer);
    } else {
      var head, tail := buffer[..i], buffer[i + 1..];
      CutAt(buffer, i, more);
      PartsOfSegment(head, tail);
      SplitOfSegment(head, tail + more, '\n');
      SplitAppend(tail, more);
      ConsAssociates(head, CompleteLines(tail), Split(Pending(tail) + more, '\n'));
    }
  }

  lemma {:induction false} HandleAllAppend<S>(h: Handler<S>, s: Session<S>, xs: seq<string>, ys: seq<string>)
    ensures HandleAll(h, s, xs + ys) == HandleAll(h, HandleAll(h, s, xs), ys)
    decreases |xs|
  {
    if xs == [] {
      assert xs + ys == ys;
    } else {
      assert (xs + ys)[1..] == xs[1..] + ys;
      HandleAllAppend(h, HandleLine(h, s, xs[0]), xs[1..], ys);
    }
  }

  /** Handling a buffer's complete lines first and the pending part later changes nothing. */
  lemma BatchInTwoParts<S>(h: Handler<S>, s: Session<S>, buffer: string, more: string)
    ensures Batch(h, s, buffer + more) == Batch(h, HandleAll(h, s, CompleteLines(buffer)), Pending(buffer) + more)
  {
    SplitAppend(buffer, more);
    HandleAllAppend(h, s, CompleteLines(buffer), Split(Pending(buffer) + more, '\n'));
  }

  // ------------------------------------------------------------------- the server

  method DrainInputBuffer<S>(buffer: string, h: Handler<S>, s: Session<S>) returns (rest: string, s': Session<S>)
    ensures rest == Pending(buffer)
    ensures s' == HandleAll(h, s, CompleteLines(buffer))
  {
    var nextBuffer := buffer;
    s' := s;
    var newlineIndex := IndexOf(nextBuffer, '\n');
    while newlineIndex >= 0
      invariant newlineIndex == IndexOf(nextBuffer, '\n')
      invariant Pending(nextBuffer) == Pending(buffer)
      invariant HandleAll(h, s', CompleteLines(nextBuffer)) == HandleAll(h, s, CompleteLines(buffer))
      decreases |nextBuffer|
    {
      ghost var before := nextBuffer;
      var line := TrimEnd(nextBuffer[..newlineIndex]);
      nextBuffer := nextBuffer[newlineIndex + 1..];
      DrainOne(before, newlineIndex);
      TrimOfTrimEnd(before[..newlineIndex]);
      s' := HandleLine(h, s', line);
      newlineIndex := IndexOf(nextBuffer, '\n');
    }
    IndexOfFinds(nextBuffer, '\n');
    PartsOfLine(nextBuffer);
    return nextBuffer, s';
  }

  lemma DrainOne(buffer: string, i: nat)
    requires i == IndexOf(buffer, '\n') && i < |buffer|
    ensures CompleteLines(buffer) == [buffer[..i]] + CompleteLines(buffer[i + 1..])
    ensures Pending(buffer) == Pending(buffer[i + 1..])
  {
    IndexOfDivides(buffer, '\n');
    PartsOfSegment(buffer[..i], buffer[i + 1..]);
  }

  /** One more chunk: what is handled so far and what is still to come make the same batch. */
  lemma NextChunk<S>(h: Handler<S>, s: Session<S>, buffer: string, chunks: seq<string>, i: nat)
    requires i < |chunks|
    ensures var filled := buffer + chunks[i];
      Batch(h, s, buffer + Concat(chunks[i..])) ==
        Batch(h, HandleAll(h, s, CompleteLines(filled)), Pending(filled) + Concat(chunks[i + 1..]))
    ensures '\n' !in Pending(buffer + chunks[i])
  {
    var filled, later := buffer + chunks[i], Concat(chunks[i + 1..]);
    assert chunks[i..][1..] == chunks[i + 1..];
    assert buffer + (chunks[i] + later) == filled + later;
    BatchInTwoParts(h, s, filled, later);
    LastPieceIsOpen(filled, '\n');
  }

  /** The session over any chunks is the batch session over their concatenation. */
  method ServeMcpStdio<S>(chunks: seq<string>, h: Handler<S>, start: S) returns (s: Session<S>)
    ensures s == Batch(h, Session(start, []), Concat(chunks))
  {
    var buffer := "";
    s := Session(start, []);
    ghost var goal := Batch(h, Session(start, []), Concat(chunks));
    var i := 0;
    assert "" + Concat(chunks) == Concat(chunks) && chunks[0..] == chunks;
    while i < |chunks|
      invariant 0 <= i <= |chunks|
      invariant '\n' !in buffer && goal == Batch(h, s, buffer + Concat(chunks[i..]))
    {
      NextChunk(h, s, buffer, chunks, i);
      buffer := buffer + chunks[i];
      buffer, s := DrainInputBuffer(buffer, h, s);
      i := i + 1;
    }
    assert buffer + Concat(chunks[|chunks|..]) == buffer;
    s := Flush(buffer, h, s);
  }

  lemma HandleOne<S>(h: Handler<S>, s: Session<S>, line: string)
    ensures HandleAll(h, s, [line]) == HandleLine(h, s, line)
  {
    var after := HandleLine(h, s, line);
    assert [line][1..] == [];
    assert HandleAll(h, after, []) == after;
  }

  /** The end of input: a pending line is handled as if a newline followed. */
  method Flush<S>(buffer: string, h: Handler<S>, s: Session<S>) returns (s': Session<S>)
    requires '\n' !in buffer
    ensures s' == Batch(h, s, buffer)
  {
    s' := s;
    SplitWithout(buffer, '\n');
    HandleOne(h, s, buffer);
    TrimOfTrimEnd(buffer);
    if |Trim(buffer)| > 0 {
      s' := HandleLine(h, s, TrimEnd(buffer));
    }
  }

  lemma {:induction false} TrimEndDropsPad(line: string, pad: string)
    requires Blank(pad)
    ensures TrimEnd(line + pad) == TrimEnd(line)
  {
    if pad == "" {
      assert line + pad == line;
    } else {
      var n := |pad| - 1;
      assert (line + pad)[..|line + pad| - 1] == line + pad[..n];
      assert (line + pad)[|line + pad| - 1] == pad[n];
      TrimEndDropsPad(line, pad[..n]);
    }
  }

  /** White space at the end of a line, as a carriage return, and blank lines make no difference. */
  lemma LineEndingsDoNotMatter<S>(h: Handler<S>, s: Session<S>, line: string, pad: string)
    requires Blank(pad)
    ensures HandleLine(h, s, line + pad) == HandleLine(h, s, line)
    ensures HandleLine(h, s, pad) == s
  {
    TrimBlank(pad);
    TrimEndDropsPad(line, pad);
    TrimOfTrimEnd(line + pad);
    TrimOfTrimEnd(line);
  }
}
