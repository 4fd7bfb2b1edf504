/**
 Scalars and inline lists read back: the text of a scalar passes the comment
 scanner untouched, splits at its own commas only, and parses to its value.
 */
module YamlScalars {
  import opened Wrappers
  import opened JsText
  import opened Decimal
  import opened YamlScan
  import opened YamlDocument

  // ---------------------------------------------------------------- comments

  lemma StripCons(c: char, rest: string, quote: Quote)
    requires c == '#' ==> quote.Some?
    ensures StripFrom([c] + rest, quote) == [c] + StripFrom(rest, Toggle(quote, c))
  {
    assert ([c] + rest)[1..] == rest;
  }

  lemma {:induction false} StripQuiet(s: string, tail: string)
    requires IsQuiet(s)
    ensures StripFrom(s + tail, None) == s + StripFrom(tail, None)
  {
    if s == "" {
      assert s + tail == tail;
    } else {
      assert s[0] in s && forall c :: c in s[1..] ==> c in s;
      assert s + tail == [s[0]] + (s[1..] + tail);
      StripCons(s[0], s[1..] + tail, None);
      StripQuiet(s[1..], tail);
      assert [s[0]] + (s[1..] + StripFrom(tail, None)) == s + StripFrom(tail, None);
    }
  }

  /** From inside a quoted part up to and including its closing quote. */
  lemma {:induction false} StripQuotedRun(q: char, s: string, tail: string)
    requires IsQuoteChar(q) && q !in s
    ensures StripFrom(s + ([q] + tail), Some(q)) == s + ([q] + StripFrom(tail, None))
  {
    if s == "" {
      assert s + ([q] + tail) == [q] + tail;
      StripCons(q, tail, Some(q));
    } else {
      var c, more := s[0], s[1..] + ([q] + tail);
      assert c in s && q !in s[1..];
      assert s + ([q] + tail) == [c] + more;
      StripCons(c, more, Some(q));
      StripQuotedRun(q, s[1..], tail);
      assert [c] + (s[1..] + ([q] + StripFrom(tail, None))) == s + ([q] + StripFrom(tail, None));
    }
  }

  lemma StripQuoted(q: char, s: string, tail: string)
    requires IsQuoteChar(q) && q !in s
    ensures StripFrom([q] + s + [q] + tail, None) == [q] + s + [q] + StripFrom(tail, None)
  {
    assert [q] + s + [q] + tail == [q] + (s + ([q] + tail));
    StripCons(q, s + ([q] + tail), None);
    StripQuotedRun(q, s, tail);
    assert [q] + (s + ([q] + StripFrom(tail, None))) == [q] + s + [q] + StripFrom(tail, None);
  }

  lemma {:induction false} StripFlow(f: Flow, inList: bool, tail: string)
    requires ValidFlow(f, inList)
    ensures StripFrom(FlowText(f) + tail, None) == FlowText(f) + StripFrom(tail, None)
    decreases f, 1
  {
    match f
    case FNull => StripQuiet("null", tail);
    case FBool(b) => StripQuiet(FlowText(f), tail);
    case FInt(n) =>
      IntTextChars(n);
      StripQuiet(IntText(n), tail);
    case FPlain(s) => StripQuiet(s, tail);
    case FQuoted(q, s) => StripQuoted(q, s, tail);
    case FList(items) =>
      StripItems(items, "]" + tail);
      StripList(ItemsText(items), tail);
  }

  lemma {:induction false} StripItems(items: seq<Flow>, tail: string)
    requires forall i :: 0 <= i < |items| ==> ValidFlow(items[i], true)
    ensures StripFrom(ItemsText(items) + tail, None) == ItemsText(items) + StripFrom(tail, None)
    decreases items, 0
  {
    if items == [] {
      assert "" + tail == tail;
    } else if |items| == 1 {
      StripFlow(items[0], true, tail);
    } else {
      var rest := ItemsText(items[1..]);
      StripFlow(items[0], true, ", " + (rest + tail));
      StripItems(items[1..], tail);
      StripNext(FlowText(items[0]), rest, tail);
    }
  }

  lemma StripNext(first: string, rest: string, tail: string)
    requires StripFrom(first + (", " + (rest + tail)), None) == first + StripFrom(", " + (rest + tail), None)
    requires StripFrom(rest + tail, None) == rest + StripFrom(tail, None)
    ensures StripFrom(first + ", " + rest + tail, None) == first + ", " + rest + StripFrom(tail, None)
  {
    StripQuiet(", ", rest + tail);
    FourParts(first, ", ", rest, tail);
    FourParts(first, ", ", rest, StripFrom(tail, None));
  }

  lemma FourParts(a: string, b: string, c: string, d: string)
    ensures a + b + c + d == a + (b + (c + d))
  {
  }

  lemma StripList(inner: string, tail: string)
    requires StripFrom(inner + ("]" + tail), None) == inner + StripFrom("]" + tail, None)
    ensures StripFrom("[" + inner + "]" + tail, None) == "[" + inner + "]" + StripFrom(tail, None)
  {
    StripCons('[', inner + ("]" + tail), None);
    StripCons(']', tail, None);
    FourParts("[", inner, "]", tail);
    FourParts("[", inner, "]", StripFrom(tail, None));
  }

  // ------------------------------------------------------------- inline lists

  /** One step of the scan on a character that is not a separating comma. */
  lemma ScanCons(c: char, rest: string, current: string, depth: int, quote: Quote)
    requires c == ',' ==> quote.Some? || depth != 0
    ensures var quote' := Toggle(quote, c);
      SplitInlineFrom([c] + rest, current, depth, quote)
      == SplitInlineFrom(rest, current + [c], DepthAfter(depth, quote', c), quote')
  {
    assert ([c] + rest)[1..] == rest;
  }

  /** Scanning text that changes no scan state only moves it into the current item. */
  lemma {:induction false} ScanInlineSafe(s: string, tail: string, current: string, depth: int)
    requires IsQuiet(s) && IsInlineSafe(s)
    ensures SplitInlineFrom(s + tail, current, depth, None) == SplitInlineFrom(tail, current + s, depth, None)
  {
    if s == "" {
      assert s + tail == tail && current + s == current;
    } else {
      assert s[0] in s && forall c :: c in s[1..] ==> c in s;
      assert s + tail == [s[0]] + (s[1..] + tail);
      ScanCons(s[0], s[1..] + tail, current, depth, None);
      ScanInlineSafe(s[1..], tail, current + [s[0]], depth);
      assert current + [s[0]] + s[1..] == current + s;
    }
  }

  lemma {:induction false} ScanQuotedRun(q: char, s: string, tail: string, current: string, depth: int)
    requires IsQuoteChar(q) && q !in s
    ensures SplitInlineFrom(s + ([q] + tail), current, depth, Some(q))
         == SplitInlineFrom(tail, current + s + [q], depth, None)
  {
    if s == "" {
      assert s + ([q] + tail) == [q] + tail;
      ScanCons(q, tail, current, depth, Some(q));
      assert current + s + [q] == current + [q];
    } else {
      var c, more := s[0], s[1..] + ([q] + tail);
      assert c in s && q !in s[1..];
      assert s + ([q] + tail) == [c] + more;
      ScanCons(c, more, current, depth, Some(q));
      ScanQuotedRun(q, s[1..], tail, current + [c], depth);
      assert current + [c] + s[1..] + [q] == current + s + [q];
    }
  }

  lemma ScanQuoted(q: char, s: string, tail: string, current: string, depth: int)
    requires IsQuoteChar(q) && q !in s
    ensures SplitInlineFrom([q] + s + [q] + tail, current, depth, None)
         == SplitInlineFrom(tail, current + ([q] + s + [q]), depth, None)
  {
    assert [q] + s + [q] + tail == [q] + (s + ([q] + tail));
    ScanCons(q, s + ([q] + tail), current, depth, None);
    ScanQuotedRun(q, s, tail, current + [q], depth);
    assert current + [q] + s + [q] == current + ([q] + s + [q]);
  }

  /** An inline value is scanned as one piece, whatever lists and quotes are in it. */
  lemma {:induction false} ScanFlow(f: Flow, tail: string, current: string, depth: nat)
    requires ValidFlow(f, true)
    ensures SplitInlineFrom(FlowText(f) + tail, current, depth, None)
         == SplitInlineFrom(tail, current + FlowText(f), depth, None)
    decreases f, 1
  {
    match f
    case FNull => ScanInlineSafe("null", tail, current, depth);
    case FBool(b) => ScanInlineSafe(FlowText(f), tail, current, depth);
    case FInt(n) =>
      IntTextChars(n);
      ScanInlineSafe(IntText(n), tail, current, depth);
    case FPlain(s) => ScanInlineSafe(s, tail, current, depth);
    case FQuoted(q, s) => ScanQuoted(q, s, tail, current, depth);
    case FList(items) =>
      var inner := ItemsText(items);
      assert "[" + inner + "]" + tail == "[" + (inner + ("]" + tail));
      ScanCons('[', inner + ("]" + tail), current, depth, None);
      ScanItems(items, "]" + tail, current + "[", depth + 1);
      ScanCons(']', tail, current + "[" + inner, depth + 1, None);
      assert current + "[" + inner + "]" == current + ("[" + inner + "]");
  }

  lemma ItemsApart(first: string, rest: string, tail: string)
    ensures first + ", " + rest + tail == first + ([','] + ([' '] + (rest + tail)))
  {
  }

  lemma ItemsRejoin(current: string, first: string, rest: string)
    ensures current + first + [','] + [' '] + rest == current + (first + ", " + rest)
  {
  }

  lemma {:induction false} ScanItems(items: seq<Flow>, tail: string, current: string, depth: nat)
    requires depth > 0
    requires forall i :: 0 <= i < |items| ==> ValidFlow(items[i], true)
    ensures SplitInlineFrom(ItemsText(items) + tail, current, depth, None)
         == SplitInlineFrom(tail, current + ItemsText(items), depth, None)
    decreases items, 0
  {
    if items == [] {
      assert "" + tail == tail && current + "" == current;
    } else if |items| == 1 {
      ScanFlow(items[0], tail, current, depth);
    } else {
      var first, rest := FlowText(items[0]), ItemsText(items[1..]);
      ItemsApart(first, rest, tail);
      ItemsRejoin(current, first, rest);
      ScanFlow(items[0], [','] + ([' '] + (rest + tail)), current, depth);
      ScanInnerComma(rest + tail, current + first, depth);
      ScanItems(items[1..], tail, current + first + [','] + [' '], depth);
    }
  }

  lemma ScanInnerComma(tail: string, current: string, depth: nat)
    requires depth > 0
    ensures SplitInlineFrom([','] + ([' '] + tail), current, depth, None)
         == SplitInlineFrom(tail, current + [','] + [' '], depth, None)
  {
    ScanCons(',', [' '] + tail, current, depth, None);
    ScanCons(' ', tail, current + [','], depth, None);
  }

  lemma FlowTextSolid(f: Flow, inList: bool)
    requires ValidFlow(f, inList)
    ensures FlowText(f) != "" && Trimmed(FlowText(f))
  {
    if f.FInt? {
      IntTextChars(f.n);
    }
  }

  function Texts(items: seq<Flow>): (r: seq<string>)
    ensures |r| == |items|
    ensures forall i :: 0 <= i < |items| ==> r[i] == FlowText(items[i])
  {
    seq(|items|, i requires 0 <= i < |items| => FlowText(items[i]))
  }

  /** Splitting a rendered list gives the texts of its items, leading blanks trimmed. */
  lemma {:induction false} SplitRendered(items: seq<Flow>, current: string)
    requires forall i :: 0 <= i < |items| ==> ValidFlow(items[i], true)
    requires current == "" || (current == " " && items != [])
    ensures SplitInlineFrom(ItemsText(items), current, 0, None) == Texts(items)
  {
    if items == [] {
      assert Trim("") == "";
    } else if |items| == 1 {
      ScanLast(items[0], current);
      assert Texts(items) == [FlowText(items[0])];
    } else {
      assert SplitInlineFrom(ItemsText(items), current, 0, None)
          == [FlowText(items[0])] + SplitInlineFrom(ItemsText(items[1..]), " ", 0, None) by {
        ScanFirst(items[0], ItemsText(items[1..]), current);
      }
      assert SplitInlineFrom(ItemsText(items[1..]), " ", 0, None) == Texts(items[1..]) by {
        SplitRendered(items[1..], " ");
      }
      assert Texts(items) == [FlowText(items[0])] + Texts(items[1..]);
    }
  }

  lemma ScanLast(f: Flow, current: string)
    requires ValidFlow(f, true) && (current == "" || current == " ")
    ensures SplitInlineFrom(FlowText(f), current, 0, None) == [FlowText(f)]
  {
    assert FlowText(f) + "" == FlowText(f);
    ScanFlow(f, "", current, 0);
    TrimCurrent(f, current);
  }

  lemma ScanFirst(f: Flow, rest: string, current: string)
    requires ValidFlow(f, true) && (current == "" || current == " ")
    ensures SplitInlineFrom(FlowText(f) + ", " + rest, current, 0, None)
         == [FlowText(f)] + SplitInlineFrom(rest, " ", 0, None)
  {
    var first := FlowText(f);
    assert first + ", " + rest == first + ([','] + ([' '] + rest));
    ScanFlow(f, [','] + ([' '] + rest), current, 0);
    ScanComma([' '] + rest, current + first);
    TrimCurrent(f, current);
    ScanCons(' ', rest, "", 0, None);
    assert "" + [' '] == " ";
  }

  lemma ScanComma(rest: string, current: string)
    ensures SplitInlineFrom([','] + rest, current, 0, None) == [Trim(current)] + SplitInlineFrom(rest, "", 0, None)
  {
    assert ([','] + rest)[1..] == rest;
  }

  lemma TrimCurrent(f: Flow, current: string)
    requires ValidFlow(f, true) && (current == "" || current == " ")
    ensures Trim(current + FlowText(f)) == FlowText(f) != ""
  {
    FlowTextSolid(f, true);
    TrimStartOfPadded(current, FlowText(f));
    TrimEndOfSolid(FlowText(f));
  }

  // ------------------------------------------------------------------ scalars

  lemma NoDot(s: string)
    requires AllDigits(s)
    ensures IndexOf(s, '.') == NOT_FOUND
  {
  }

  lemma NumberParts(n: int)
    ensures var digits := if n < 0 then NatText(-n) else NatText(n);
      && Unsigned(IntText(n)) == digits && IntegerPart(IntText(n)) == digits && FractionPart(IntText(n)).None?
      && (StartsWith(IntText(n), "-") <==> n < 0)
  {
    var digits := if n < 0 then NatText(-n) else NatText(n);
    assert Unsigned(IntText(n)) == digits;
    NoDot(digits);
  }

  lemma NumberIsNothingElse(n: int)
    ensures !IsKeyword(IntText(n)) && !IsBracketed(IntText(n)) && !IsQuoted(IntText(n))
  {
    var first := IntText(n)[0];
    assert first == '-' || IsDigit(first);
  }

  lemma NumberReads(n: int)
    ensures IsNumber(IntText(n)) && NumberValue(IntText(n)) == n as real
    ensures !IsKeyword(IntText(n)) && !IsBracketed(IntText(n)) && !IsQuoted(IntText(n))
  {
    NumberParts(n);
    NumberIsNothingElse(n);
  }

  lemma QuotedReads(q: char, s: string)
    requires IsQuoteChar(q)
    ensures var text := [q] + s + [q];
      IsQuoted(text) && Unquote(text) == s && !IsBracketed(text) && !IsKeyword(text)
  {
    var text := [q] + s + [q];
    assert text[0] == q && text[|text| - 1..] == [q];
    assert Inner(text) == s;
  }

  /** The text of every valid scalar or inline list parses to its value. */
  lemma {:induction false} ScalarReads(f: Flow, inList: bool)
    requires ValidFlow(f, inList)
    ensures Scalar(FlowText(f)) == FlowValue(f)
    decreases f
  {
    match f
    case FNull =>
    case FBool(_) =>
    case FInt(n) => NumberReads(n);
    case FPlain(s) =>
      assert s[0] in s;
    case FQuoted(q, s) => QuotedReads(q, s);
    case FList(items) =>
      SplitRendered(items, "");
      ListReads(items);
      forall i | 0 <= i < |items|
        ensures Scalar(Texts(items)[i]) == FlowValue(items[i])
      {
        ScalarReads(items[i], true);
      }
      assert Scalar(FlowText(f)).items == FlowValues(items);
  }

  lemma ListReads(items: seq<Flow>)
    ensures var text := "[" + ItemsText(items) + "]";
      IsBracketed(text) && Inner(text) == ItemsText(items) && !IsKeyword(text)
  {
    var text := "[" + ItemsText(items) + "]";
    assert text[0] == '[' && text[|text| - 1..] == "]";
    assert Inner(text) == ItemsText(items);
  }
}
