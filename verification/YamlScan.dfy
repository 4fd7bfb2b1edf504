/**
 The character scanners of the gate-definition lint: comment stripping, inline
 lists, key/value splitting and plain scalars.  Each scanner that is a loop in
 the source is a method proved against the function of the same meaning.
 */
module YamlScan {
  import opened Wrappers
  import opened JsText
  import opened Decimal

  /** Values of the parsed document; a record keeps its keys in insertion order. */
  datatype Yaml =
    | YNull
    | YBool(b: bool)
    | YNum(r: real)
    | YStr(s: string)
    | YSeq(items: seq<Yaml>)
    | YMap(entries: seq<(string, Yaml)>)

  /** The open quote character, if the scan is inside a quoted part. */
  type Quote = Option<char>

  predicate IsQuoteChar(c: char) {
    c == '"' || c == '\''
  }

  /** `quote = quote === char ? undefined : quote ?? char`, on quote characters only. */
  function Toggle(quote: Quote, c: char): Quote {
    if !IsQuoteChar(c) then quote
    else if quote == Some(c) then None
    else if quote.Some? then quote
    else Some(c)
  }

  function StripFrom(line: string, quote: Quote): string {
    if line == "" then ""
    else if line[0] == '#' && quote == None then ""
    else [line[0]] + StripFrom(line[1..], Toggle(quote, line[0]))
  }

  /** Cuts a line at its first unquoted `#`. */
  method StripYamlComment(line: string) returns (r: string)
    ensures r == StripFrom(line, None)
  {
    var quote: Quote := None;
    for index := 0 to |line|
      invariant StripFrom(line, None) == line[..index] + StripFrom(line[index..], quote)
    {
      var c := line[index];
      if c == '#' && quote == None {
        return line[..index];
      }
      quote := Toggle(quote, c);
      assert line[index..][1..] == line[index + 1..];
      assert line[..index] + [c] == line[..index + 1];
    }
    assert line[..|line|] == line;
    return line;
  }

  function DepthAfter(depth: int, quote: Quote, c: char): int {
    if quote.Some? then depth
    else if c == '[' || c == '{' then depth + 1
    else if c == ']' || c == '}' then depth - 1
    else depth
  }

  function LastItem(current: string): seq<string> {
    if |Trim(current)| > 0 then [Trim(current)] else []
  }

  /** The remaining items of an inline list, given the scan state. */
  function SplitInlineFrom(value: string, current: string, depth: int, quote: Quote): seq<string>
    decreases |value|
  {
    if value == "" then LastItem(current)
    else
      var c := value[0];
      var quote' := Toggle(quote, c);
      var depth' := DepthAfter(depth, quote', c);
      if quote' == None && c == ',' && depth' == 0 then
        [Trim(current)] + SplitInlineFrom(value[1..], "", depth', quote')
      else
        SplitInlineFrom(value[1..], current + [c], depth', quote')
  }

  /** No item is longer than the list it came from, so nested lists are finite. */
  lemma {:induction false} ItemsAreShorter(value: string, current: string, depth: int, quote: Quote)
    ensures forall it :: it in SplitInlineFrom(value, current, depth, quote) ==> |it| <= |value| + |current|
    decreases |value|
  {
    if value != "" {
      var c := value[0];
      var quote' := Toggle(quote, c);
      ItemsAreShorter(value[1..], "", DepthAfter(depth, quote', c), quote');
      ItemsAreShorter(value[1..], current + [c], DepthAfter(depth, quote', c), quote');
    }
  }

  /** Splits an inline list at its depth-zero, unquoted commas. */
  method SplitInline(value: string) returns (items: seq<string>)
    ensures items == SplitInlineFrom(value, "", 0, None)
  {
    items := [];
    var current := "";
    var depth := 0;
    var quote: Quote := None;
    var index := 0;
    while index < |value|
      invariant 0 <= index <= |value|
      invariant SplitInlineFrom(value, "", 0, None)
             == items + SplitInlineFrom(value[index..], current, depth, quote)
    {
      var c := value[index];
      assert value[index..][1..] == value[index + 1..];
      index := index + 1;
      quote := Toggle(quote, c);
      if quote == None {
        if c == '[' || c == '{' {
          depth := depth + 1;
        }
        if c == ']' || c == '}' {
          depth := depth - 1;
        }
        if c == ',' && depth == 0 {
          items := items + [Trim(current)];
          current := "";
          continue;
        }
      }
      current := current + [c];
    }
    if |Trim(current)| > 0 {
      items := items + [Trim(current)];
    }
  }

  /** `value.slice(1, -1)` */
  function Inner(value: string): (r: string)
    ensures |r| <= |value|
    ensures value != "" ==> |r| < |value|
  {
    if |value| < 2 then "" else value[1..|value| - 1]
  }

  predicate IsQuoted(value: string) {
    || (StartsWith(value, "\"") && EndsWith(value, "\""))
    || (StartsWith(value, "'") && EndsWith(value, "'"))
  }

  function Unquote(value: string): string {
    if IsQuoted(value) then Inner(value) else value
  }

  function Unsigned(s: string): string {
    if StartsWith(s, "-") then s[1..] else s
  }

  function IntegerPart(s: string): string {
    var dot := IndexOf(Unsigned(s), '.');
    if dot == NOT_FOUND then Unsigned(s) else Unsigned(s)[..dot]
  }

  function FractionPart(s: string): Option<string> {
    var dot := IndexOf(Unsigned(s), '.');
    if dot == NOT_FOUND then None else Some(Unsigned(s)[dot + 1..])
  }

  /** An optional minus, digits without a leading zero, and an optional fraction. */
  predicate IsNumber(s: string) {
    var whole := IntegerPart(s);
    && (whole == "0" || (whole != "" && AllDigits(whole) && whole[0] != '0'))
    && (FractionPart(s).Some? ==> FractionPart(s).value != "" && AllDigits(FractionPart(s).value))
  }

  function FractionValue(digits: string): real
    requires AllDigits(digits)
  {
    var scale: nat := TenTo(|digits|);
    DigitsValue(digits) as real / scale as real
  }

  /** `Number(value)`, without rounding. */
  function NumberValue(s: string): real
    requires IsNumber(s)
  {
    var whole := DigitsValue(IntegerPart(s)) as real;
    var fraction := match FractionPart(s)
      case None => 0.0
      case Some(f) => FractionValue(f);
    if StartsWith(s, "-") then -(whole + fraction) else whole + fraction
  }

  predicate IsBracketed(value: string) {
    StartsWith(value, "[") && EndsWith(value, "]")
  }

  function Scalar(value: string): Yaml
    decreases |value|
  {
    if value == "true" then YBool(true)
    else if value == "false" then YBool(false)
    else if value == "null" || value == "~" then YNull
    else if IsBracketed(value) then
      var items := SplitInlineFrom(Inner(value), "", 0, None);
      ItemsAreShorter(Inner(value), "", 0, None);
      YSeq(seq(|items|, i requires 0 <= i < |items| =>
        assert items[i] in items; Scalar(items[i])))
    else if IsQuoted(value) then YStr(Unquote(value))
    else if IsNumber(value) then YNum(NumberValue(value))
    else YStr(value)
  }

  datatype PairText = PairText(key: string, value: string)

  function SplitPair(text: string): Option<PairText> {
    var colon := IndexOf(text, ':');
    if colon <= 0 then None
    else Some(PairText(Unquote(Trim(text[..colon])), Trim(text[colon + 1..])))
  }

  predicate IsKeyHead(c: char) {
    c == '$' || 'A' <= c <= 'Z' || c == '_' || 'a' <= c <= 'z'
  }

  predicate IsKeyTail(c: char) {
    IsKeyHead(c) || c == '-' || c == '.' || IsDigit(c)
  }

  /** A name made of a head character and tail characters. */
  predicate IsPlainKey(key: string) {
    key != "" && IsKeyHead(key[0]) && forall k :: 1 <= k < |key| ==> IsKeyTail(key[k])
  }

  function DropQuoteHead(s: string): string {
    if s != "" && IsQuoteChar(s[0]) then s[1..] else s
  }

  function DropQuoteLast(s: string): string {
    if s != "" && IsQuoteChar(s[|s| - 1]) then s[..|s| - 1] else s
  }

  /** Whether the text before the first colon reads as a possibly quoted plain key. */
  predicate LooksLikePair(text: string) {
    var colon := IndexOf(text, ':');
    colon > 0 && IsPlainKey(DropQuoteLast(DropQuoteHead(Trim(text[..colon]))))
  }
}
