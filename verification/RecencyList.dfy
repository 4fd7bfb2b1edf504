/**
 A bounded list of keys from least to most recently used, and the operations that a cache
 makes on it.
 */
module RecencyList {

  /** Keys from least to most recently used. */
  type Recency = seq<string>

  function Without(keys: Recency, key: string): Recency {
    if keys == [] then []
    else if keys[0] == key then Without(keys[1..], key)
    else [keys[0]] + Without(keys[1..], key)
  }

  lemma {:induction false} WithoutHas(keys: Recency, key: string)
    ensures forall k :: k in Without(keys, key) <==> k in keys && k != key
    ensures |Without(keys, key)| <= |keys|
    ensures key in keys ==> |Without(keys, key)| < |keys|
  {
    if keys != [] {
      assert keys == [keys[0]] + keys[1..];
      WithoutHas(keys[1..], key);
    }
  }

  /** A use moves the key to the most recent end. */
  function Used(keys: Recency, key: string): Recency {
    Without(keys, key) + [key]
  }

  /** The most recent `max` keys: the least recently used ones are dropped. */
  function Newest(keys: Recency, max: nat): Recency {
    if |keys| <= max then keys else keys[|keys| - max..]
  }

  predicate Distinct(keys: seq<string>) {
    forall i, j :: 0 <= i < j < |keys| ==> keys[i] != keys[j]
  }

  lemma {:induction false} WithoutDistinct(keys: seq<string>, key: string)
    requires Distinct(keys)
    ensures Distinct(Without(keys, key))
    ensures key in keys ==> |Without(keys, key)| == |keys| - 1
    ensures key !in keys ==> Without(keys, key) == keys
  {
    if keys != [] {
      WithoutDistinct(keys[1..], key);
      WithoutHas(keys[1..], key);
      assert keys == [keys[0]] + keys[1..];
      assert keys[0] !in keys[1..];
    }
  }

  lemma WithoutHead(keys: seq<string>)
    requires keys != [] && Distinct(keys)
    ensures Without(keys, keys[0]) == keys[1..]
  {
    assert keys[0] !in keys[1..];
    WithoutDistinct(keys[1..], keys[0]);
  }

  lemma {:induction false} SameKeysSameCount(a: seq<string>, b: seq<string>)
    requires Distinct(a) && Distinct(b) && forall k :: k in a <==> k in b
    ensures |a| == |b|
  {
    if a == [] {
      assert forall i :: 0 <= i < |b| ==> b[i] in b;
    } else {
      WithoutHead(a);
      WithoutHas(a, a[0]);
      WithoutHas(b, a[0]);
      WithoutDistinct(b, a[0]);
      assert a[0] in a;
      SameKeysSameCount(a[1..], Without(b, a[0]));
    }
  }

  lemma NewestKeepsLast(keys: Recency, key: string, max: nat)
    requires keys != [] && keys[|keys| - 1] == key && max > 0
    ensures key in Newest(keys, max)
  {
    var kept := Newest(keys, max);
    assert kept[|kept| - 1] == key;
  }

  lemma UsedIsDistinct(keys: seq<string>, key: string)
    requires Distinct(keys) && key !in keys
    ensures Distinct(keys + [key])
    ensures forall k :: k in keys + [key] <==> k in keys || k == key
  {
  }

  lemma WithoutLength(keys: seq<string>, key: string)
    requires Distinct(keys) && key in keys
    ensures |Used(keys, key)| == |keys|
  {
    WithoutDistinct(keys, key);
  }

  /** Dropping the oldest of too many keys leaves the same newest ones. */
  lemma NewestOfRest(keys: Recency, max: nat)
    requires |keys| > max
    ensures Newest(keys[1..], max) == Newest(keys, max)
  {
  }

  // ------------------------------------------------------------------------- runs

  /** What happens to the list: a key is stored, found by a read, or taken out; or all are. */
  datatype Access = Stored(key: string) | Found(key: string) | Removed(key: string) | Cleared

  /** Only storing can overflow, so only storing drops the oldest keys. */
  function Step(keys: Recency, a: Access, max: nat): Recency {
    match a
    case Stored(k) => Newest(Used(keys, k), max)
    case Found(k) => if k in keys then Used(keys, k) else keys
    case Removed(k) => Without(keys, k)
    case Cleared => []
  }

  function RunFrom(keys: Recency, history: seq<Access>, max: nat): Recency {
    if history == [] then keys
    else Step(RunFrom(keys, history[..|history| - 1], max), history[|history| - 1], max)
  }

  /** The list after a whole history. */
  function Run(history: seq<Access>, max: nat): Recency {
    RunFrom([], history, max)
  }

  lemma RunNext(history: seq<Access>, a: Access, max: nat)
    ensures Run(history + [a], max) == Step(Run(history, max), a, max)
  {
    assert (history + [a])[..|history|] == history;
  }
}
