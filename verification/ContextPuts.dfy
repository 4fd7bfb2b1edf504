/**
 A context that is put together for a model: values read at positions of one source are
 sanitized, and each is put at a path of a fresh record.  What ends up in that record is
 said here for any puts; the two projections choose the positions and the paths.
 */
module ContextPuts {
  import opened Wrappers
  import opened Json
  import opened Sanitizing

  // ------------------------------------------------------- reading and writing

  /** The value of a property, undefined when it is missing. */
  function Lookup(fields: seq<Field>, key: string): Json {
    Find(fields, key).GetOr(JUndefined)
  }

  function ReadPath(root: Json, segments: seq<string>): Json
    decreases |segments|
  {
    if segments == [] then root
    else if !root.JObj? then JUndefined
    else ReadPath(Lookup(root.fields, segments[0]), segments[1..])
  }

  function SetField(fields: seq<Field>, key: string, value: Json): seq<Field> {
    if fields == [] then [Field(key, value)]
    else if fields[0].key == key then [Field(key, value)] + fields[1..]
    else [fields[0]] + SetField(fields[1..], key, value)
  }

  /** `setContextRef` and `assignProjectionPath`: records are made on the way, replacing what is not one. */
  function Put(fields: seq<Field>, segments: seq<string>, value: Json): seq<Field>
    requires segments != []
    decreases |segments|
  {
    if |segments| == 1 then SetField(fields, segments[0], value)
    else
      var existing := Lookup(fields, segments[0]);
      var inner := if existing.JObj? then existing.fields else [];
      SetField(fields, segments[0], JObj(Put(inner, segments[1..], value)))
  }

  predicate Incomparable(s: seq<string>, t: seq<string>) {
    !(s <= t) && !(t <= s)
  }

  lemma {:induction false} LookupAfterSet(fields: seq<Field>, key: string, value: Json, other: string)
    ensures Lookup(SetField(fields, key, value), other) == if other == key then value else Lookup(fields, other)
  {
    var after := SetField(fields, key, value);
    if fields != [] && fields[0].key != key {
      LookupAfterSet(fields[1..], key, value, other);
      assert after[1..] == SetField(fields[1..], key, value);
    } else {
      assert after[1..] == if fields == [] then [] else fields[1..];
    }
  }

  /** What was put at a path is read there. */
  lemma {:induction false} PutGet(fields: seq<Field>, segments: seq<string>, value: Json)
    requires segments != []
    ensures ReadPath(JObj(Put(fields, segments, value)), segments) == value
    decreases |segments|
  {
    if |segments| == 1 {
      LookupAfterSet(fields, segments[0], value, segments[0]);
      assert segments[1..] == [];
    } else {
      var existing := Lookup(fields, segments[0]);
      var inner := if existing.JObj? then existing.fields else [];
      PutGet(inner, segments[1..], value);
      LookupAfterSet(fields, segments[0], JObj(Put(inner, segments[1..], value)), segments[0]);
    }
  }

  /** Putting at one path does not change what is read at an incomparable one. */
  lemma {:induction false} PutFrame(fields: seq<Field>, segments: seq<string>, value: Json, other: seq<string>)
    requires segments != [] && Incomparable(segments, other)
    ensures ReadPath(JObj(Put(fields, segments, value)), other) == ReadPath(JObj(fields), other)
    decreases |segments|
  {
    var head := segments[0];
    if other[0] != head {
      if |segments| == 1 {
        LookupAfterSet(fields, head, value, other[0]);
      } else {
        var existing := Lookup(fields, head);
        var inner := if existing.JObj? then existing.fields else [];
        LookupAfterSet(fields, head, JObj(Put(inner, segments[1..], value)), other[0]);
      }
    } else {
      SharedHead(segments, other);
      var existing := Lookup(fields, head);
      var inner := if existing.JObj? then existing.fields else [];
      LookupAfterSet(fields, head, JObj(Put(inner, segments[1..], value)), head);
      PutFrame(inner, segments[1..], value, other[1..]);
      if !existing.JObj? {
        NothingInEmpty(other[1..]);
      }
    }
  }

  lemma SharedHead(s: seq<string>, t: seq<string>)
    requires s != [] && t != [] && s[0] == t[0] && Incomparable(s, t)
    ensures |s| > 1 && |t| > 1 && Incomparable(s[1..], t[1..])
  {
    assert s == [s[0]] + s[1..] && t == [t[0]] + t[1..];
  }

  lemma NothingInEmpty(segments: seq<string>)
    requires segments != []
    ensures ReadPath(JObj([]), segments) == JUndefined
  {
  }

  lemma UndefinedStays(segments: seq<string>)
    ensures ReadPath(JUndefined, segments) == JUndefined
  {
  }

  lemma FindFirst(f: Field, rest: seq<Field>, key: string)
    ensures Find([f] + rest, key) == if f.key == key then Some(f.value) else Find(rest, key)
  {
    assert ([f] + rest)[1..] == rest;
  }

  lemma LookupInTwo(a: Field, b: Field, key: string)
    ensures Lookup([a, b], key) == if a.key == key then a.value else if b.key == key then b.value else JUndefined
  {
    FindFirst(a, [b], key);
    FindFirst(b, [], key);
    assert [a] + [b] == [a, b] && [b] + [] == [b];
  }

  lemma ReadFirst(root: Json, first: string, rest: seq<string>)
    ensures ReadPath(root, [first] + rest) == if root.JObj? then ReadPath(Lookup(root.fields, first), rest) else JUndefined
  {
    assert ([first] + rest)[1..] == rest;
  }

  lemma {:induction false} ReadInSteps(v: Json, a: seq<string>, b: seq<string>)
    ensures ReadPath(v, a + b) == ReadPath(ReadPath(v, a), b)
    decreases |a|
  {
    if a == [] {
      assert a + b == b;
    } else if v.JObj? {
      assert (a + b)[1..] == a[1..] + b;
      ReadInSteps(Lookup(v.fields, a[0]), a[1..], b);
    } else if b == [] {
      assert a + b == a;
    }
  }

  /** A put makes a record at every path that it runs through. */
  lemma {:induction false} PutOnTheWay(fields: seq<Field>, segments: seq<string>, value: Json, path: seq<string>)
    requires segments != [] && path < segments
    ensures ReadPath(JObj(Put(fields, segments, value)), path).JObj?
    decreases |segments|
  {
    if path != [] {
      var existing := Lookup(fields, segments[0]);
      var inner := if existing.JObj? then existing.fields else [];
      LookupAfterSet(fields, segments[0], JObj(Put(inner, segments[1..], value)), path[0]);
      PutOnTheWay(inner, segments[1..], value, path[1..]);
    }
  }

  /** Below its path, a put leaves what its value holds. */
  lemma PutUnder(fields: seq<Field>, segments: seq<string>, value: Json, rest: seq<string>)
    requires segments != []
    ensures ReadPath(JObj(Put(fields, segments, value)), segments + rest) == ReadPath(value, rest)
  {
    ReadInSteps(JObj(Put(fields, segments, value)), segments, rest);
    PutGet(fields, segments, value);
  }

  // --------------------------------------------------- positions in the source

  function ValueAt(v: Json, at: Position): Json
    decreases |at|
  {
    if at == [] then v
    else match Child(v, at[0])
      case None => JUndefined
      case Some(child) => ValueAt(child, at[1..])
  }

  function KeySteps(path: seq<string>): Position {
    seq(|path|, i requires 0 <= i < |path| => Key(path[i]))
  }

  lemma KeyStepsOfSum(a: seq<string>, b: seq<string>)
    ensures KeySteps(a + b) == KeySteps(a) + KeySteps(b)
  {
  }

  lemma {:induction false} PresentIsDefined(v: Json, at: Position)
    requires !ValueAt(v, at).JUndefined?
    ensures Present(v, at)
    decreases |at|
  {
    if at != [] {
      PresentIsDefined(Child(v, at[0]).value, at[1..]);
    }
  }

  lemma {:induction false} ValueAtSum(v: Json, a: Position, b: Position)
    requires Present(v, a)
    ensures ValueAt(v, a + b) == ValueAt(ValueAt(v, a), b)
    decreases |a|
  {
    if a == [] {
      assert a + b == b;
    } else {
      assert (a + b)[1..] == a[1..] + b;
      ValueAtSum(Child(v, a[0]).value, a[1..], b);
    }
  }

  /** Along keys, a position is read as a path is. */
  lemma {:induction false} ReadsAtKeys(v: Json, path: seq<string>)
    ensures ValueAt(v, KeySteps(path)) == ReadPath(v, path)
    decreases |path|
  {
    if path != [] {
      assert KeySteps(path)[1..] == KeySteps(path[1..]);
      if v.JObj? {
        if Find(v.fields, path[0]).Some? {
          ReadsAtKeys(Find(v.fields, path[0]).value, path[1..]);
        } else {
          UndefinedStays(path[1..]);
        }
      }
    }
  }

  lemma {:induction false} ProperAt(v: Json, at: Position)
    requires Proper(v)
    ensures Proper(ValueAt(v, at))
    decreases |at|
  {
    if at != [] && Child(v, at[0]).Some? {
      if v.JObj? {
        var k := FoundAt(v.fields, at[0].name);
      }
      ProperAt(Child(v, at[0]).value, at[1..]);
    }
  }

  // --------------------------------------------------------- hidden positions

  /** A position is hidden by what is above it or by what is below. */
  lemma {:induction false} HiddenSplit(p: Policy, v: Json, a: Position, b: Position)
    ensures Hidden(p, v, a + b) <==> Hidden(p, v, a) || (Present(v, a) && Hidden(p, ValueAt(v, a), b))
    decreases |a|
  {
    if a == [] {
      assert a + b == b;
    } else {
      assert (a + b)[1..] == a[1..] + b;
      if Child(v, a[0]).Some? {
        HiddenSplit(p, Child(v, a[0]).value, a[1..], b);
      }
    }
  }

  lemma {:induction false} LookupSanitized(p: Policy, fields: seq<Field>, key: string)
    requires DistinctKeys(fields)
    ensures !Lookup(SanitizeFields(p, fields), key).JUndefined? ==>
      && !p.secretKey(key) && Find(fields, key).Some?
      && Lookup(SanitizeFields(p, fields), key) == Sanitize(p, Find(fields, key).value)
  {
    if fields != [] {
      var f, rest := fields[0], fields[1..];
      var later := SanitizeFields(p, rest);
      LookupSanitized(p, rest, key);
      if SanitizeField(p, f) == [] {
        assert SanitizeFields(p, fields) == later;
        if f.key == key && Find(rest, key).Some? {
          var k := FoundAt(rest, key);
          assert false;
        }
      } else {
        assert SanitizeFields(p, fields)[0].key == f.key && SanitizeFields(p, fields)[1..] == later;
      }
    }
  }

  /** Whatever is read in a sanitized value was not hidden, and is the sanitized value of what was there. */
  lemma {:induction false} SanitizedReads(p: Policy, v: Json, path: seq<string>)
    requires Proper(v) && !ReadPath(Sanitize(p, v), path).JUndefined?
    ensures Present(v, KeySteps(path)) && !Hidden(p, v, KeySteps(path))
    ensures ReadPath(Sanitize(p, v), path) == Sanitize(p, ValueAt(v, KeySteps(path)))
    decreases |path|
  {
    if path != [] {
      assert KeySteps(path)[1..] == KeySteps(path[1..]);
      LookupSanitized(p, v.fields, path[0]);
      if Lookup(SanitizeFields(p, v.fields), path[0]).JUndefined? {
        UndefinedStays(path[1..]);
      }
      var k := FoundAt(v.fields, path[0]);
      SanitizedReads(p, v.fields[k].value, path[1..]);
    }
  }
}
