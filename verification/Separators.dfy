/** Texts joined by a separator, and when the parts can be told from the whole. */
module Separators {

  const NUL := '\U{0}'

  /** A text is divided in one way only by the first separator in it. */
  lemma FirstSeparator(c: char, a: string, x: string, b: string, y: string)
    requires c !in a && c !in b && a + [c] + x == b + [c] + y
    ensures a == b && x == y
  {
    var s := a + [c] + x;
    var t := b + [c] + y;
    assert s[|a|] == c && t[|b|] == c;
    assert forall i :: 0 <= i < |a| ==> s[i] == a[i] && a[i] in a;
    assert forall i :: 0 <= i < |b| ==> t[i] == b[i] && b[i] in b;
    assert |a| == |b|;
    assert s[..|a|] == a && t[..|b|] == b;
    assert s[|a| + 1..] == x && t[|b| + 1..] == y;
  }

  /** If a text can be divided by a separator in two ways, the later way cuts the second part of the earlier one. */
  lemma OtherDivision(c: char, a: string, x: string, b: string, y: string)
    requires c !in a && a + [c] + x == b + [c] + y
    ensures (a == b && x == y) || (|a| < |b| && c in x && x == b[|a| + 1..] + [c] + y)
  {
    var s := a + [c] + x;
    var t := b + [c] + y;
    assert t[|b|] == c && s[|a|] == c;
    assert |a| <= |b| by {
      assert forall i :: 0 <= i < |a| ==> s[i] == a[i] && a[i] in a;
    }
    if |a| == |b| {
      assert s[..|a|] == a && t[..|a|] == b;
      assert s[|a| + 1..] == x && t[|a| + 1..] == y;
    } else {
      assert s[|a| + 1..] == x && t[|a| + 1..] == b[|a| + 1..] + [c] + y;
      assert x[|b| - |a| - 1] == c;
    }
  }

  /** Three texts with a separator between them. */
  function Join(c: char, x: string, y: string, z: string): string {
    x + [c] + y + [c] + z
  }

  /** Three other texts join to the same. */
  ghost predicate JoinIsShared(c: char, x: string, y: string, z: string) {
    exists x', y', z' :: (x' != x || y' != y || z' != z) && Join(c, x', y', z') == Join(c, x, y, z)
  }

  lemma SharedByFirst(c: char, x: string, y: string, z: string, i: nat)
    requires i < |x| && x[i] == c
    ensures JoinIsShared(c, x, y, z)
  {
    var a, b := x[..i], x[i + 1..];
    assert x == a + [c] + b;
    assert Join(c, a, b + [c] + y, z) == Join(c, x, y, z) && |a| < |x|;
  }

  lemma SharedBySecond(c: char, x: string, y: string, z: string, i: nat)
    requires i < |y| && y[i] == c
    ensures JoinIsShared(c, x, y, z)
  {
    var a, b := y[..i], y[i + 1..];
    assert y == a + [c] + b;
    assert Join(c, x + [c] + a, b, z) == Join(c, x, y, z) && |x + [c] + a| > |x|;
  }

  lemma SharedByThird(c: char, x: string, y: string, z: string, i: nat)
    requires i < |z| && z[i] == c
    ensures JoinIsShared(c, x, y, z)
  {
    var a, b := z[..i], z[i + 1..];
    assert z == a + [c] + b;
    assert Join(c, x + [c] + y, a, b) == Join(c, x, y, z) && |x + [c] + y| > |x|;
  }

  lemma OnlyJoin(c: char, x: string, y: string, z: string, x': string, y': string, z': string)
    requires c !in x && c !in y && c !in z && Join(c, x', y', z') == Join(c, x, y, z)
    ensures x' == x && y' == y && z' == z
  {
    var u, v := y + [c] + z, y' + [c] + z';
    assert Join(c, x, y, z) == x + [c] + u && Join(c, x', y', z') == x' + [c] + v;
    assert v[|y'|] == c;
    OtherDivision(c, x, u, x', v);
    if x' == x {
      OtherDivision(c, y, z, y', z');
    } else {
      OtherDivision(c, y, z, x'[|x| + 1..], v);
    }
  }

  /** Joined texts can be told apart from all others exactly when none of them has the separator in it. */
  lemma SharedExactly(c: char, x: string, y: string, z: string)
    ensures JoinIsShared(c, x, y, z) <==> c in x || c in y || c in z
  {
    if c in x {
      var i :| 0 <= i < |x| && x[i] == c;
      SharedByFirst(c, x, y, z, i);
    } else if c in y {
      var i :| 0 <= i < |y| && y[i] == c;
      SharedBySecond(c, x, y, z, i);
    } else if c in z {
      var i :| 0 <= i < |z| && z[i] == c;
      SharedByThird(c, x, y, z, i);
    } else if JoinIsShared(c, x, y, z) {
      var x', y', z' :| (x' != x || y' != y || z' != z) && Join(c, x', y', z') == Join(c, x, y, z);
      OnlyJoin(c, x, y, z, x', y', z');
    }
  }
}
