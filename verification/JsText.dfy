/**
 The string operations of the source language that the models share: trimming,
 searching and splitting.  A string is a sequence of Unicode scalar values.
 */
module JsText {

  const NOT_FOUND: int := -1

  /** The characters that `trim`, `trimStart` and `trimEnd` remove. */
  predicate IsSpace(c: char) {
    || '\t' <= c <= '\r' || c == ' ' || c == '\U{A0}' || c == '\U{1680}'
    || '\U{2000}' <= c <= '\U{200A}' || c == '\U{2028}' || c == '\U{2029}'
    || c == '\U{202F}' || c == '\U{205F}' || c == '\U{3000}' || c == '\U{FEFF}'
  }

  function TrimStart(s: string): (r: string)
    ensures |r| <= |s|
  {
    if s != "" && IsSpace(s[0]) then TrimStart(s[1..]) else s
  }

  function TrimEnd(s: string): (r: string)
    ensures |r| <= |s|
  {
    if s != "" && IsSpace(s[|s| - 1]) then TrimEnd(s[..|s| - 1]) else s
  }

  function Trim(s: string): (r: string)
    ensures |r| <= |s|
  {
    TrimEnd(TrimStart(s))
  }

  /** `isNonEmptyString` */
  predicate NonBlank(s: string) {
    Trim(s) != ""
  }

  lemma {:induction false} TrimStartIs(s: string)
    ensures var r := TrimStart(s);
      && r == s[|s| - |r|..] && (r != "" ==> !IsSpace(r[0]))
      && forall k :: 0 <= k < |s| - |r| ==> IsSpace(s[k])
  {
    if s != "" && IsSpace(s[0]) {
      TrimStartIs(s[1..]);
      assert forall k :: 1 <= k < |s| ==> s[k] == s[1..][k - 1];
    }
  }

  lemma {:induction false} TrimEndIs(s: string)
    ensures var r := TrimEnd(s);
      && r == s[..|r|] && (r != "" ==> !IsSpace(r[|r| - 1]))
      && forall k :: |r| <= k < |s| ==> IsSpace(s[k])
  {
    if s != "" && IsSpace(s[|s| - 1]) {
      TrimEndIs(s[..|s| - 1]);
    }
  }

  lemma TrimIs(s: string)
    ensures Trimmed(Trim(s))
  {
    TrimStartIs(s);
    TrimEndIs(TrimStart(s));
    var t := TrimStart(s);
    assert Trim(s) != "" ==> Trim(s)[0] == t[0];
  }

  /** Neither end is white space, so trimming changes nothing. */
  predicate Trimmed(s: string) {
    s != "" ==> !IsSpace(s[0]) && !IsSpace(s[|s| - 1])
  }

  predicate Blank(s: string) {
    forall k :: 0 <= k < |s| ==> IsSpace(s[k])
  }

  predicate StartsWith(s: string, prefix: string) {
    prefix <= s
  }

  predicate EndsWith(s: string, suffix: string) {
    |suffix| <= |s| && s[|s| - |suffix|..] == suffix
  }

  function IndexOf(s: string, c: char): (i: int)
    ensures i == NOT_FOUND || 0 <= i < |s|
  {
    if s == "" then NOT_FOUND
    else if s[0] == c then 0
    else
      var rest := IndexOf(s[1..], c);
      if rest == NOT_FOUND then NOT_FOUND else rest + 1
  }

  lemma {:induction false} IndexOfFinds(s: string, c: char)
    ensures var i := IndexOf(s, c); if i == NOT_FOUND then c !in s else s[i] == c && c !in s[..i]
  {
    if s != "" && s[0] != c {
      IndexOfFinds(s[1..], c);
      var i := IndexOf(s, c);
      assert s == [s[0]] + s[1..];
      if i != NOT_FOUND {
        assert s[..i] == [s[0]] + s[1..][..i - 1];
      }
    }
  }

  lemma {:induction false} IndexOfIs(s: string, c: char, i: nat)
    requires i < |s| && s[i] == c && c !in s[..i]
    ensures IndexOf(s, c) == i
  {
    assert s == s[..i] + [c] + s[i + 1..];
    if i == 0 {
    } else {
      assert s[0] == s[..i][0];
      assert s[1..][..i - 1] == s[..i][1..];
      IndexOfIs(s[1..], c, i - 1);
    }
  }

  /** `s.split(c)`: always at least one piece. */
  function Split(s: string, c: char): (pieces: seq<string>)
    ensures |pieces| >= 1
  {
    var i := IndexOf(s, c);
    if i == NOT_FOUND then [s] else [s[..i]] + Split(s[i + 1..], c)
  }

  lemma TrimmedIsFixed(s: string)
    requires Trimmed(s)
    ensures TrimStart(s) == s && TrimEnd(s) == s && Trim(s) == s
  {
  }

  lemma TrimBlank(s: string)
    ensures Trim(s) == "" <==> Blank(s)
  {
    var t := TrimStart(s);
    TrimStartIs(s);
    TrimEndIs(t);
    assert forall k :: 0 <= k < |t| ==> t[k] == s[|s| - |t| + k];
    if t != "" {
      assert s[|s| - |t|] == t[0];
      assert TrimEnd(t) != "";
    }
  }

  /** Leading spaces in front of trimmed text are what `trimStart` removes. */
  lemma {:induction false} TrimStartOfPadded(pad: string, s: string)
    requires Blank(pad) && s != "" && !IsSpace(s[0])
    ensures TrimStart(pad + s) == s
  {
    if pad == "" {
      assert pad + s == s;
    } else {
      assert (pad + s)[1..] == pad[1..] + s;
      TrimStartOfPadded(pad[1..], s);
    }
  }

  lemma TrimEndOfSolid(s: string)
    requires s != "" && !IsSpace(s[|s| - 1])
    ensures TrimEnd(s) == s
  {
  }

  lemma {:induction false} SplitOfSegment(head: string, tail: string, c: char)
    requires c !in head
    ensures Split(head + [c] + tail, c) == [head] + Split(tail, c)
  {
    var s := head + [c] + tail;
    assert s[..|head|] == head;
    IndexOfIs(s, c, |head|);
    assert s[|head| + 1..] == tail;
  }

  lemma {:induction false} LastPieceIsOpen(s: string, c: char)
    ensures c !in Split(s, c)[|Split(s, c)| - 1]
    decreases |s|
  {
    var i := IndexOf(s, c);
    IndexOfFinds(s, c);
    if i != NOT_FOUND {
      LastPieceIsOpen(s[i + 1..], c);
    }
  }

  lemma SplitWithout(s: string, c: char)
    requires c !in s
    ensures Split(s, c) == [s]
  {
    IndexOfFinds(s, c);
  }

  /** The first occurrence of a character divides a text. */
  lemma IndexOfDivides(s: string, c: char)
    requires IndexOf(s, c) != NOT_FOUND
    ensures 0 <= IndexOf(s, c) < |s|
    ensures var i := IndexOf(s, c); s == s[..i] + [c] + s[i + 1..] && c !in s[..i]
  {
    IndexOfFinds(s, c);
  }
}
