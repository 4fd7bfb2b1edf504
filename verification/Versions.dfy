/** Three-part versions, their comparison, and version ranges. */
module Versions {
  import opened Wrappers
  import opened JsText
  import opened Decimal

  predicate IsNumber(s: string) {
    s != "" && AllDigits(s)
  }

  /** `^\d+\.\d+\.\d+$` */
  predicate IsVersion(s: string) {
    var parts := Split(s, '.');
    |parts| == 3 && IsNumber(parts[0]) && IsNumber(parts[1]) && IsNumber(parts[2])
  }

  /** A range that pins one version in strict mode. */
  predicate IsExactRange(range: string) {
    IsVersion(range) || (range != "" && range[0] == '=' && IsVersion(range[1..]))
  }

  /** `parseVersion`, on well-formed versions. */
  function Parts(v: string): (parts: seq<nat>)
    requires IsVersion(v)
    ensures |parts| == 3
  {
    var parts := Split(v, '.');
    [DigitsValue(parts[0]), DigitsValue(parts[1]), DigitsValue(parts[2])]
  }

  /** The sign of the first difference, as a difference. */
  function CompareFrom(l: seq<nat>, r: seq<nat>, i: nat): int
    requires |l| == |r| == 3 && i <= 3
    decreases 3 - i
  {
    if i == 3 then 0 else if l[i] != r[i] then l[i] - r[i] else CompareFrom(l, r, i + 1)
  }

  function Compare(l: string, r: string): int
    requires IsVersion(l) && IsVersion(r)
  {
    CompareFrom(Parts(l), Parts(r), 0)
  }

  /** `compareVersions` */
  method CompareVersions(l: string, r: string) returns (c: int)
    requires IsVersion(l) && IsVersion(r)
    ensures c == Compare(l, r)
  {
    var leftParts, rightParts := Parts(l), Parts(r);
    for index := 0 to 3
      invariant CompareFrom(leftParts, rightParts, 0) == CompareFrom(leftParts, rightParts, index)
    {
      if leftParts[index] != rightParts[index] {
        return leftParts[index] as int - rightParts[index] as int;
      }
    }
    return 0;
  }

  /** Comparison is a total order on versions, up to leading zeros. */
  lemma CompareIsOrder(a: string, b: string, c: string)
    requires IsVersion(a) && IsVersion(b) && IsVersion(c)
    ensures Compare(a, b) == -Compare(b, a)
    ensures Compare(a, b) == 0 <==> Parts(a) == Parts(b)
    ensures Compare(a, b) <= 0 && Compare(b, c) <= 0 ==> Compare(a, c) <= 0
    ensures Compare(a, b) <= 0 && Compare(b, c) < 0 ==> Compare(a, c) < 0
    ensures Compare(a, b) < 0 && Compare(b, c) <= 0 ==> Compare(a, c) < 0
  {
    OrderFrom(Parts(a), Parts(b), Parts(c), 0);
    assert Parts(a) == [Parts(a)[0], Parts(a)[1], Parts(a)[2]] && Parts(b) == [Parts(b)[0], Parts(b)[1], Parts(b)[2]];
  }

  lemma {:induction false} OrderFrom(a: seq<nat>, b: seq<nat>, c: seq<nat>, i: nat)
    requires |a| == |b| == |c| == 3 && i <= 3
    ensures CompareFrom(a, b, i) == -CompareFrom(b, a, i)
    ensures CompareFrom(a, b, i) == 0 <==> forall k :: i <= k < 3 ==> a[k] == b[k]
    ensures CompareFrom(a, b, i) <= 0 && CompareFrom(b, c, i) <= 0 ==> CompareFrom(a, c, i) <= 0
    ensures CompareFrom(a, b, i) <= 0 && CompareFrom(b, c, i) < 0 ==> CompareFrom(a, c, i) < 0
    ensures CompareFrom(a, b, i) < 0 && CompareFrom(b, c, i) <= 0 ==> CompareFrom(a, c, i) < 0
    decreases 3 - i
  {
    if i < 3 {
      OrderFrom(a, b, c, i + 1);
    }
  }

  // ---------------------------------------------------------------------- ranges

  datatype Operator = Less | AtMost | Greater | AtLeast | Exactly

  datatype Comparator = Comparator(op: Operator, target: string)

  /** `^(?:[<>]=?|=)?\d+\.\d+\.\d+$`, taken apart */
  function ParseComparator(s: string): (c: Option<Comparator>)
    ensures c.Some? ==> IsVersion(c.value.target)
  {
    var cut :=
      if |s| >= 2 && s[0] == '>' && s[1] == '=' then (AtLeast, 2)
      else if |s| >= 2 && s[0] == '<' && s[1] == '=' then (AtMost, 2)
      else if |s| >= 1 && s[0] == '>' then (Greater, 1)
      else if |s| >= 1 && s[0] == '<' then (Less, 1)
      else if |s| >= 1 && s[0] == '=' then (Exactly, 1)
      else (Exactly, 0);
    if IsVersion(s[cut.1..]) then Some(Comparator(cut.0, s[cut.1..])) else None
  }

  predicate Holds(op: Operator, comparison: int) {
    match op
    case Less => comparison < 0
    case AtMost => comparison <= 0
    case Greater => comparison > 0
    case AtLeast => comparison >= 0
    case Exactly => comparison == 0
  }

  predicate SatisfiesComparator(version: string, comparator: string)
    requires IsVersion(version)
  {
    var parsed := ParseComparator(comparator);
    parsed.Some? && Holds(parsed.value.op, Compare(version, parsed.value.target))
  }

  function FirstSpace(s: string): (i: nat)
    ensures i <= |s|
    ensures i < |s| ==> IsSpace(s[i])
  {
    if s == "" || IsSpace(s[0]) then 0 else 1 + FirstSpace(s[1..])
  }

  /** `range.split(/\s+/u)` */
  function Comparators(range: string): seq<string>
    decreases |range|
  {
    var i := FirstSpace(range);
    if i == |range| then [range] else [range[..i]] + Comparators(TrimStart(range[i + 1..]))
  }

  /** `versionSatisfiesRange` */
  predicate Satisfies(version: string, range: string) {
    range == "*" || (IsVersion(version) && forall i :: 0 <= i < |Comparators(range)| ==>
      SatisfiesComparator(version, Comparators(range)[i]))
  }

  /** A comparator that accepts two versions accepts every version between them. */
  lemma ComparatorIsConvex(low: string, v: string, high: string, comparator: string)
    requires IsVersion(low) && IsVersion(v) && IsVersion(high)
    requires Compare(low, v) <= 0 && Compare(v, high) <= 0
    requires SatisfiesComparator(low, comparator) && SatisfiesComparator(high, comparator)
    ensures SatisfiesComparator(v, comparator)
  {
    var target := ParseComparator(comparator).value.target;
    CompareIsOrder(low, v, target);
    CompareIsOrder(v, high, target);
    CompareIsOrder(target, low, v);
    CompareIsOrder(v, high, target);
    CompareIsOrder(high, target, v);
    CompareIsOrder(low, target, v);
  }

  /** A range that accepts two versions accepts every well-formed version between them. */
  lemma RangeIsConvex(low: string, v: string, high: string, range: string)
    requires IsVersion(low) && IsVersion(v) && IsVersion(high)
    requires Compare(low, v) <= 0 && Compare(v, high) <= 0
    requires Satisfies(low, range) && Satisfies(high, range)
    ensures Satisfies(v, range)
  {
    if range != "*" {
      var comparators := Comparators(range);
      forall i | 0 <= i < |comparators|
        ensures SatisfiesComparator(v, comparators[i])
      {
        ComparatorIsConvex(low, v, high, comparators[i]);
      }
    }
  }
}
