/**
 Whole runs of the recency list behind the snapshot cache, whose history every operation
 of the cache extends: which keys a bounded cache still holds.
 */
module CacheRuns {
  import opened Concatenation
  import opened RecencyList

  predicate Removes(a: Access) {
    a.Removed? || a.Cleared?
  }

  predicate NoneRemoves(history: seq<Access>) {
    forall i :: 0 <= i < |history| ==> !Removes(history[i])
  }

  /** The keys that were used, starting from a list: every key stored, and every key found in it. */
  function Uses(start: Recency, history: seq<Access>, max: nat): seq<string>
    requires NoneRemoves(history)
  {
    if history == [] then []
    else
      var before, last := history[..|history| - 1], history[|history| - 1];
      if last.Found? && last.key !in RunFrom(start, before, max) then Uses(start, before, max)
      else Uses(start, before, max) + [last.key]
  }

  /** The keys of a list and all keys used since, ordered by their last use. */
  function ByLastUse(start: Recency, uses: seq<string>): Recency {
    if uses == [] then start else Used(ByLastUse(start, uses[..|uses| - 1]), uses[|uses| - 1])
  }

  lemma {:induction false} WithoutAppend(a: seq<string>, b: seq<string>, key: string)
    ensures Without(a + b, key) == Without(a, key) + Without(b, key)
  {
    if a == [] {
      assert a + b == b;
    } else {
      assert (a + b)[1..] == a[1..] + b;
      WithoutAppend(a[1..], b, key);
    }
  }

  lemma NewestOfSuffix(front: Recency, back: Recency, max: nat)
    requires |back| >= max
    ensures Newest(front + back, max) == Newest(back, max)
  {
  }

  lemma {:induction false} ByLastUseDistinct(start: Recency, uses: seq<string>)
    requires Distinct(start)
    ensures Distinct(ByLastUse(start, uses))
  {
    if uses != [] {
      var before := ByLastUse(start, uses[..|uses| - 1]);
      ByLastUseDistinct(start, uses[..|uses| - 1]);
      WithoutDistinct(before, uses[|uses| - 1]);
      WithoutHas(before, uses[|uses| - 1]);
    }
  }

  /** Forgetting old keys before a use or after it comes to the same. */
  lemma StackProperty(keys: Recency, key: string, max: nat)
    requires Distinct(keys) && max > 0
    ensures Newest(Used(Newest(keys, max), key), max) == Newest(Used(keys, key), max)
  {
    if |keys| > max {
      var front, back := keys[..|keys| - max], keys[|keys| - max..];
      assert keys == front + back;
      WithoutAppend(front, back, key);
      assert Used(keys, key) == Without(front, key) + Used(back, key);
      assert Distinct(back);
      WithoutDistinct(back, key);
      NewestOfSuffix(Without(front, key), Used(back, key), max);
    }
  }

  lemma {:induction false} RunFromKeepsNewest(start: Recency, history: seq<Access>, max: nat)
    requires Distinct(start) && |start| <= max && max > 0 && NoneRemoves(history)
    ensures RunFrom(start, history, max) == Newest(ByLastUse(start, Uses(start, history, max)), max)
  {
    if history != [] {
      var before, last := history[..|history| - 1], history[|history| - 1];
      RunFromKeepsNewest(start, before, max);
      assert !Removes(last);
      var uses := Uses(start, before, max);
      var keys := ByLastUse(start, uses);
      ByLastUseDistinct(start, uses);
      if last.Stored? || last.key in RunFrom(start, before, max) {
        assert (uses + [last.key])[..|uses|] == uses;
        StackProperty(keys, last.key, max);
        assert Distinct(Newest(keys, max));
        WithoutDistinct(Newest(keys, max), last.key);
      }
    }
  }

  lemma {:induction false} RunInTwoParts(before: seq<Access>, after: seq<Access>, max: nat)
    ensures Run(before + after, max) == RunFrom(Run(before, max), after, max)
  {
    if after == [] {
      assert before + after == before;
    } else {
      var n := |after| - 1;
      assert (before + after)[..|before| + n] == before + after[..n];
      RunInTwoParts(before, after[..n], max);
    }
  }

  /** A run keeps every key once and no more of them than fit. */
  lemma {:induction false} RunFits(history: seq<Access>, max: nat)
    requires max > 0
    ensures Distinct(Run(history, max)) && |Run(history, max)| <= max
  {
    if history != [] {
      var keys, last := Run(history[..|history| - 1], max), history[|history| - 1];
      RunFits(history[..|history| - 1], max);
      if !last.Cleared? {
        WithoutDistinct(keys, last.key);
        WithoutHas(keys, last.key);
        UsedIsDistinct(Without(keys, last.key), last.key);
      }
    }
  }

  /**
   After any history, the cache holds exactly the most recently used of the keys that its
   last removal left and those used since, in order of last use: eviction never takes a
   younger key.  `before` ends anywhere at or after the last removal.
   */
  lemma RunKeepsNewest(before: seq<Access>, after: seq<Access>, max: nat)
    requires max > 0 && NoneRemoves(after)
    ensures var left := Run(before, max);
      Run(before + after, max) == Newest(ByLastUse(left, Uses(left, after, max)), max)
  {
    RunFits(before, max);
    RunInTwoParts(before, after, max);
    RunFromKeepsNewest(Run(before, max), after, max);
  }

  /** A removal takes its own key and no other, and clearing takes all. */
  lemma RemovalTakesItsKey(before: seq<Access>, key: string, max: nat)
    ensures forall k :: k in Run(before + [Removed(key)], max) <==> k in Run(before, max) && k != key
    ensures Run(before + [Cleared], max) == []
  {
    RunNext(before, Removed(key), max);
    RunNext(before, Cleared, max);
    WithoutHas(Run(before, max), key);
  }

  // --------------------------------------------------------------- which keys remain

  predicate TakesOut(a: Access, key: string) {
    a.Cleared? || a == Removed(key)
  }

  /** The other keys that were stored or found. */
  function OthersUsed(history: seq<Access>, key: string): set<string> {
    set a | a in history && (a.Stored? || a.Found?) && a.key != key :: a.key
  }

  lemma {:induction false} DistinctFits(keys: Recency, others: set<string>)
    requires Distinct(keys) && forall k :: k in keys ==> k in others
    ensures |keys| <= |others|
  {
    if keys != [] {
      var rest := keys[1..];
      assert keys[0] !in rest;
      DistinctFits(rest, others - {keys[0]});
    }
  }

  lemma WithoutAround(front: Recency, key: string, back: Recency, other: string)
    requires other != key
    ensures Without(front + [key] + back, other) == Without(front, other) + [key] + Without(back, other)
  {
    WithoutAppend(front + [key], back, other);
    WithoutAppend(front, [key], other);
    assert Without([key], other) == [key];
  }

  lemma BackDistinct(front: Recency, back: Recency, other: string)
    requires Distinct(front + back)
    ensures Distinct(Used(back, other))
  {
    assert forall i :: 0 <= i < |back| ==> back[i] == (front + back)[|front| + i];
    WithoutDistinct(back, other);
    WithoutHas(back, other);
    UsedIsDistinct(Without(back, other), other);
  }

  lemma NewestKeepsTail(front: Recency, tail: Recency, max: nat)
    requires |tail| <= max
    ensures exists kept :: Newest(front + tail, max) == kept + tail
  {
    var all := front + tail;
    var n := if |all| <= max then 0 else |all| - max;
    assert all[n..] == front[n..] + tail;
    assert Newest(all, max) == all[n..];
  }

  lemma OthersGrow(history: seq<Access>, a: Access, key: string)
    ensures OthersUsed(history, key) <= OthersUsed(history + [a], key)
    ensures (a.Stored? || a.Found?) && a.key != key ==> a.key in OthersUsed(history + [a], key)
  {
    assert a in history + [a];
    forall k | k in OthersUsed(history, key)
      ensures k in OthersUsed(history + [a], key)
    {
      var b :| b in history && (b.Stored? || b.Found?) && b.key != key && b.key == k;
      assert b in history + [a];
    }
  }

  lemma KeyUsed(front: Recency, key: string, back: Recency, a: Access, max: nat) returns (front': Recency)
    requires max > 0 && (a == Stored(key) || a == Found(key))
    ensures Step(front + [key] + back, a, max) == front' + [key]
  {
    var keys := front + [key] + back;
    assert keys[|front|] == key;
    front' := Without(keys, key);
    if a.Stored? {
      NewestKeepsTail(Without(keys, key), [key], max);
      front' :| Newest(Without(keys, key) + [key], max) == front' + [key];
    }
  }

  lemma OtherTaken(front: Recency, key: string, back: Recency, other: string, others: set<string>)
    returns (front': Recency, back': Recency)
    requires other != key && forall k :: k in back ==> k in others
    ensures Without(front + [key] + back, other) == front' + [key] + back' && forall k :: k in back' ==> k in others
  {
    front', back' := Without(front, other), Without(back, other);
    WithoutAround(front, key, back, other);
    WithoutHas(back, other);
  }

  lemma UsedAround(front: Recency, key: string, back: Recency, other: string)
    requires other != key
    ensures Used(front + [key] + back, other) == Without(front, other) + [key] + Used(back, other)
  {
    WithoutAround(front, key, back, other);
    Associates(Without(front, other) + [key], Without(back, other), [other]);
  }

  lemma UsedStays(back: Recency, other: string, others: set<string>)
    requires other in others && forall k :: k in back ==> k in others
    ensures forall k :: k in Used(back, other) ==> k in others
  {
    WithoutHas(back, other);
  }

  lemma OtherUsed(front: Recency, key: string, back: Recency, other: string, others: set<string>, max: nat)
    returns (front': Recency)
    requires Distinct(front + [key] + back) && other != key && other in others && |others| < max
    requires forall k :: k in back ==> k in others
    ensures Newest(Used(front + [key] + back, other), max) == front' + [key] + Used(back, other)
  {
    var tail := [key] + Used(back, other);
    UsedAround(front, key, back, other);
    UsedStays(back, other, others);
    BackDistinct(front + [key], back, other);
    DistinctFits(Used(back, other), others);
    Associates(Without(front, other), [key], Used(back, other));
    NewestKeepsTail(Without(front, other), tail, max);
    front' :| Newest(Without(front, other) + tail, max) == front' + tail;
    Associates(front', [key], Used(back, other));
  }

  /** One step keeps a key that is not taken out, as long as too few others are used after it. */
  lemma StepKeepsTail(front: Recency, key: string, back: Recency, a: Access, others: set<string>, max: nat)
    returns (front': Recency, back': Recency)
    requires Distinct(front + [key] + back) && !TakesOut(a, key) && |others| < max
    requires (forall k :: k in back ==> k in others) && ((a.Stored? || a.Found?) && a.key != key ==> a.key in others)
    ensures Step(front + [key] + back, a, max) == front' + [key] + back' && forall k :: k in back' ==> k in others
  {
    front', back' := front, back;
    if a.key == key {
      back' := [];
      front' := KeyUsed(front, key, back, a, max);
      assert front' + [key] + back' == front' + [key];
    } else if a.Removed? {
      front', back' := OtherTaken(front, key, back, a.key, others);
    } else if a.Stored? || a.key in front + [key] + back {
      UsedStays(back, a.key, others);
      back' := Used(back, a.key);
      if a.Stored? {
        front' := OtherUsed(front, key, back, a.key, others, max);
      } else {
        UsedAround(front, key, back, a.key);
        front' := Without(front, a.key);
      }
    }
  }

  lemma {:induction false} TailAfter(before: seq<Access>, key: string, after: seq<Access>, others: set<string>, max: nat)
    returns (front: Recency, back: Recency)
    requires max > 0 && |others| < max && OthersUsed(after, key) <= others
    requires forall i :: 0 <= i < |after| ==> !TakesOut(after[i], key)
    requires Run(before, max) != [] && Run(before, max)[|Run(before, max)| - 1] == key
    ensures Run(before + after, max) == front + [key] + back && forall k :: k in back ==> k in others
  {
    if after == [] {
      var keys := Run(before, max);
      front, back := keys[..|keys| - 1], [];
      assert before + after == before;
      assert keys == front + [key] + back;
    } else {
      var n := |after| - 1;
      var earlier, last := after[..n], after[n];
      assert after == earlier + [last];
      OthersGrow(earlier, last, key);
      front, back := TailAfter(before, key, earlier, others, max);
      assert before + after == (before + earlier) + [last];
      RunNext(before + earlier, last, max);
      RunFits(before + earlier, max);
      front, back := StepKeepsTail(front, key, back, last, others, max);
    }
  }

  /**
   A key is safe after its use, in any history, with removals and without: it is still there
   as long as it is not taken out and fewer than the maximum of other keys are used.
   */
  lemma RecentKeySurvives(before: seq<Access>, use: Access, after: seq<Access>, max: nat)
    requires use.Stored? || (use.Found? && use.key in Run(before, max))
    requires forall i :: 0 <= i < |after| ==> !TakesOut(after[i], use.key)
    requires |OthersUsed(after, use.key)| < max
    ensures use.key in Run(before + [use] + after, max)
  {
    RunNext(before, use, max);
    var used := Used(Run(before, max), use.key);
    assert used[|used| - 1] == use.key;
    var front, back := TailAfter(before + [use], use.key, after, OthersUsed(after, use.key), max);
    assert (front + [use.key] + back)[|front|] == use.key;
  }

  /** The key just stored is always there, and no more keys than fit. */
  lemma LastPutSurvives(history: seq<Access>, key: string, max: nat)
    requires max > 0
    ensures key in Run(history + [Stored(key)], max) && |Run(history + [Stored(key)], max)| <= max
  {
    var none: seq<Access> := [];
    assert history + [Stored(key)] + none == history + [Stored(key)];
    assert OthersUsed(none, key) == {};
    RecentKeySurvives(history, Stored(key), none, max);
    RunFits(history + [Stored(key)], max);
  }

  /** What was taken out stays out until it is stored again. */
  lemma {:induction false} RemovedStaysOut(before: seq<Access>, removal: Access, after: seq<Access>, key: string, max: nat)
    requires TakesOut(removal, key) && forall i :: 0 <= i < |after| ==> after[i] != Stored(key)
    ensures key !in Run(before + [removal] + after, max)
  {
    if after == [] {
      assert before + [removal] + after == before + [removal];
      RunNext(before, removal, max);
      WithoutHas(Run(before, max), key);
    } else {
      var n := |after| - 1;
      var earlier, last := after[..n], after[n];
      RemovedStaysOut(before, removal, earlier, key, max);
      var all := before + [removal] + earlier;
      assert before + [removal] + after == all + [last];
      RunNext(all, last, max);
      if !last.Cleared? {
        WithoutHas(Run(all, max), last.key);
      }
    }
  }
}
