/**
 The snapshot cache of the harness loader: expiry, re-verification on every read and
 least-recently-used eviction, refining a recency list.
 */
module SnapshotCache {
  import opened Wrappers
  import opened RecencyList

  datatype SourceFile = SourceFile(relativePath: string, raw: string)

  datatype Content = Content(files: seq<SourceFile>, dependencies: seq<string>)

  datatype Snapshot = Snapshot(specHash: string, body: string)

  datatype Entry = Entry(specHash: string, snapshot: Snapshot, content: Content, createdAt: int, lastAccessedAt: int)

  /** What `put` recorded last for a key. */
  datatype PutRecord = PutRecord(snapshot: Snapshot, time: int)

  datatype GetResult = Miss | Hit(snapshot: Snapshot) | Poisoned

  // ------------------------------------------------------- entries and their keys

  /** The keys of a map in insertion order. */
  ghost predicate Lists(keys: seq<string>, entries: map<string, Entry>) {
    && Distinct(keys)
    && (forall k :: k in keys <==> k in entries)
  }

  ghost predicate ByLastAccess(keys: Recency, entries: map<string, Entry>) {
    && (forall k :: k in keys ==> k in entries)
    && forall i, j :: 0 <= i < j < |keys| ==> entries[keys[i]].lastAccessedAt < entries[keys[j]].lastAccessedAt
  }

  predicate AllLater(keys: Recency, entries: map<string, Entry>, time: int)
    requires forall k :: k in keys ==> k in entries
  {
    forall k :: k in keys ==> time < entries[k].lastAccessedAt
  }

  lemma HeadIsEarliest(keys: Recency, entries: map<string, Entry>)
    requires keys != [] && ByLastAccess(keys, entries)
    ensures ByLastAccess(keys[1..], entries) && AllLater(keys[1..], entries, entries[keys[0]].lastAccessedAt)
  {
    forall k | k in keys[1..]
      ensures entries[keys[0]].lastAccessedAt < entries[k].lastAccessedAt
    {
      var m :| 0 <= m < |keys[1..]| && keys[1..][m] == k;
      assert keys[m + 1] == k;
    }
  }

  lemma EarlierInFront(key: string, rest: Recency, entries: map<string, Entry>)
    requires key in entries && ByLastAccess(rest, entries) && AllLater(rest, entries, entries[key].lastAccessedAt)
    ensures ByLastAccess([key] + rest, entries)
  {
    assert forall i :: 0 <= i < |rest| ==> rest[i] in rest;
  }

  lemma {:induction false} WithoutKeepsOrder(keys: Recency, key: string, entries: map<string, Entry>)
    requires ByLastAccess(keys, entries)
    ensures ByLastAccess(Without(keys, key), entries)
  {
    if keys != [] {
      HeadIsEarliest(keys, entries);
      WithoutHas(keys[1..], key);
      WithoutKeepsOrder(keys[1..], key, entries);
      if keys[0] != key {
        EarlierInFront(keys[0], Without(keys[1..], key), entries);
      }
    }
  }

  /** One map, listed in insertion order and in order of last access. */
  ghost predicate Keyed(order: seq<string>, recency: Recency, entries: map<string, Entry>) {
    Lists(order, entries) && Lists(recency, entries) && ByLastAccess(recency, entries)
  }

  /** Entries are what the last put of their key recorded, and no access is in the future. */
  ghost predicate Recorded(entries: map<string, Entry>, clock: int, puts: map<string, PutRecord>) {
    forall k :: k in entries ==>
      && entries[k].specHash == k && entries[k].createdAt <= entries[k].lastAccessedAt <= clock
      && k in puts && puts[k] == PutRecord(entries[k].snapshot, entries[k].createdAt)
  }

  /** Recording a put, or a later access to what a put recorded, keeps every entry explained by its last put. */
  lemma RecordedAfterSet(entries: map<string, Entry>, clock: int, puts: map<string, PutRecord>,
                         entry: Entry, now: int, puts': map<string, PutRecord>)
    requires Recorded(entries, clock, puts) && clock < now
    requires entry.createdAt <= entry.lastAccessedAt == now
    requires puts' == puts[entry.specHash := PutRecord(entry.snapshot, entry.createdAt)]
    ensures Recorded(entries[entry.specHash := entry], now, puts')
  {
  }

  lemma RecordedAfterTouch(entries: map<string, Entry>, clock: int, puts: map<string, PutRecord>, key: string, now: int)
    requires Recorded(entries, clock, puts) && clock < now && key in entries
    ensures Recorded(entries[key := entries[key].(lastAccessedAt := now)], now, puts)
  {
  }

  lemma RecordedWithout(entries: map<string, Entry>, clock: int, puts: map<string, PutRecord>, key: string, now: int)
    requires Recorded(entries, clock, puts) && clock <= now
    ensures Recorded(entries - {key}, now, puts)
  {
  }

  /** Nothing in the cache was accessed at or after a later time. */
  lemma NothingLater(entries: map<string, Entry>, clock: int, puts: map<string, PutRecord>, now: int)
    requires Recorded(entries, clock, puts) && clock < now
    ensures forall k :: k in entries ==> entries[k].lastAccessedAt < now
  {
  }

  lemma ByLastAccessFrame(keys: Recency, entries: map<string, Entry>, entries': map<string, Entry>)
    requires ByLastAccess(keys, entries)
    requires forall k :: k in keys ==> k in entries' && entries'[k] == entries[k]
    ensures ByLastAccess(keys, entries')
  {
    assert forall i :: 0 <= i < |keys| ==> keys[i] in keys;
  }

  lemma RemoveKeeps(order: seq<string>, recency: Recency, entries: map<string, Entry>, key: string)
    requires Keyed(order, recency, entries)
    ensures Keyed(Without(order, key), Without(recency, key), entries - {key})
    ensures key in entries ==> |Without(order, key)| < |order| && |Without(recency, key)| < |recency|
    ensures key !in entries ==> Without(order, key) == order && Without(recency, key) == recency
  {
    ListsWithout(order, entries, key);
    ListsWithout(recency, entries, key);
    WithoutKeepsOrder(recency, key, entries);
    WithoutHas(recency, key);
    ByLastAccessFrame(Without(recency, key), entries, entries - {key});
  }

  lemma ListsWithout(keys: seq<string>, entries: map<string, Entry>, key: string)
    requires Lists(keys, entries)
    ensures Lists(Without(keys, key), entries - {key})
    ensures key in entries ==> |Without(keys, key)| < |keys|
    ensures key !in entries ==> Without(keys, key) == keys
  {
    WithoutDistinct(keys, key);
    WithoutHas(keys, key);
  }

  /** Setting an entry accessed later than all others makes its key the most recent. */
  lemma UseKeeps(order: seq<string>, recency: Recency, entries: map<string, Entry>, key: string, entry: Entry)
    requires Keyed(order, recency, entries)
    requires forall k :: k in entries ==> entries[k].lastAccessedAt < entry.lastAccessedAt
    ensures Keyed(if key in entries then order else order + [key], Used(recency, key), entries[key := entry])
  {
    var others := Without(recency, key);
    WithoutHas(recency, key);
    WithoutDistinct(recency, key);
    WithoutKeepsOrder(recency, key, entries);
    ByLastAccessFrame(others, entries, entries[key := entry]);
    UsedIsDistinct(others, key);
    LastIsLatest(others, entries[key := entry], key);
    if key !in entries {
      UsedIsDistinct(order, key);
    }
  }

  lemma LastIsLatest(keys: Recency, entries: map<string, Entry>, key: string)
    requires ByLastAccess(keys, entries) && key in entries
    requires forall k :: k in keys ==> entries[k].lastAccessedAt < entries[key].lastAccessedAt
    ensures ByLastAccess(keys + [key], entries)
  {
    assert forall i :: 0 <= i < |keys| ==> keys[i] in keys;
  }

  lemma {:induction false} SizesAgree(order: seq<string>, recency: Recency, entries: map<string, Entry>)
    requires Keyed(order, recency, entries)
    ensures |order| == |recency|
  {
    SameKeysSameCount(order, recency);
  }

  /** Every entry is one of the others, unchanged. */
  ghost predicate KeptFrom(entries: map<string, Entry>, others: map<string, Entry>) {
    forall k :: k in entries ==> k in others && entries[k] == others[k]
  }

  /** An entry no later than any other is the first of the recency list. */
  lemma FirstIsOldest(recency: Recency, entries: map<string, Entry>, key: string)
    requires ByLastAccess(recency, entries) && key in recency
    requires entries[key].lastAccessedAt <= entries[recency[0]].lastAccessedAt
    ensures recency[0] == key
  {
    var m :| 0 <= m < |recency| && recency[m] == key;
  }

  class SnapshotCache {
    const computeSpecHash: Content -> string
    const maxEntries: nat
    const ttlMs: nat

    /** The entries, with their keys in insertion order. */
    var entries: map<string, Entry>
    var order: seq<string>

    /** The latest clock reading, the recency list with its history, and the last put of every key. */
    ghost var clock: int
    ghost var recency: Recency
    ghost var history: seq<Access>
    ghost var puts: map<string, PutRecord>

    predicate Verifies(e: Entry) {
      computeSpecHash(e.content) == e.specHash && e.snapshot.specHash == e.specHash
    }

    predicate Expired(e: Entry, now: int) {
      now - e.createdAt > ttlMs
    }

    ghost predicate Valid()
      reads this
    {
      && maxEntries > 0 && Keyed(order, recency, entries) && Recorded(entries, clock, puts)
      && |recency| <= maxEntries && recency == Run(history, maxEntries)
    }

    constructor (computeSpecHash: Content -> string, maxEntries: nat, ttlMs: nat)
      requires maxEntries > 0 && ttlMs > 0
      ensures Valid() && history == [] && entries == map[]
      ensures this.computeSpecHash == computeSpecHash && this.maxEntries == maxEntries && this.ttlMs == ttlMs
    {
      this.computeSpecHash := computeSpecHash;
      this.maxEntries := maxEntries;
      this.ttlMs := ttlMs;
      entries, order := map[], [];
      clock, recency, history, puts := 0, [], [], map[];
    }

    /** `entries.delete` */
    method Remove(specHash: string) returns (had: bool)
      requires Keyed(order, recency, entries)
      modifies this`entries, this`order, this`recency
      ensures Keyed(order, recency, entries) && had == (specHash in old(entries))
      ensures entries == old(entries) - {specHash}
      ensures order == Without(old(order), specHash) && recency == Without(old(recency), specHash)
      ensures had ==> |order| < |old(order)|
    {
      had := specHash in entries;
      RemoveKeeps(order, recency, entries, specHash);
      entries, order, recency := entries - {specHash}, Without(order, specHash), Without(recency, specHash);
    }

    method Delete(specHash: string) returns (had: bool)
      requires Valid()
      modifies this`entries, this`order, this`recency, this`history
      ensures Valid() && had == (specHash in old(entries))
      ensures entries == old(entries) - {specHash} && recency == Without(old(recency), specHash)
      ensures history == old(history) + [Removed(specHash)]
    {
      RecordedWithout(entries, clock, puts, specHash, clock);
      had := Forget(specHash);
    }

    method Clear()
      requires Valid()
      modifies this`entries, this`order, this`recency, this`history
      ensures Valid() && entries == map[] && history == old(history) + [Cleared]
    {
      RunNext(history, Cleared, maxEntries);
      entries, order, recency, history := map[], [], [], history + [Cleared];
    }

    /** `entries.set`: an existing key keeps its place in insertion order. */
    method Set(key: string, entry: Entry)
      requires Keyed(order, recency, entries)
      requires forall k :: k in entries ==> entries[k].lastAccessedAt < entry.lastAccessedAt
      modifies this`entries, this`order, this`recency
      ensures Keyed(order, recency, entries)
      ensures entries == old(entries)[key := entry] && recency == Used(old(recency), key)
    {
      UseKeeps(order, recency, entries, key, entry);
      if key !in entries {
        order := order + [key];
      }
      entries := entries[key := entry];
      recency := Used(recency, key);
    }

    /**
     A record that verifies becomes the most recently used entry and the oldest ones
     are evicted down to the maximum; one that does not verify changes nothing.
     */
    method Put(snapshot: Snapshot, content: Content, now: int) returns (ok: bool)
      requires Valid() && clock < now
      modifies this
      ensures Valid() && clock == now
      ensures ok <==> computeSpecHash(content) == snapshot.specHash
      ensures !ok ==> entries == old(entries) && history == old(history) && puts == old(puts)
      ensures ok ==>
        && puts == old(puts)[snapshot.specHash := PutRecord(snapshot, now)]
        && history == old(history) + [Stored(snapshot.specHash)]
        && recency == Newest(Used(old(recency), snapshot.specHash), maxEntries)
        && snapshot.specHash in entries
        && (forall k :: k in entries && k != snapshot.specHash ==> k in old(entries) && entries[k] == old(entries)[k])
        && entries[snapshot.specHash] == Entry(snapshot.specHash, snapshot, content, now, now)
    {
      var key := snapshot.specHash;
      var entry := Entry(key, snapshot, content, now, now);
      clock := now;
      ok := Verifies(entry);
      if !ok {
        return;
      }
      NothingLater(entries, old(clock), puts, now);
      RecordedAfterSet(entries, old(clock), puts, entry, now, puts[key := PutRecord(snapshot, now)]);
      puts := puts[key := PutRecord(snapshot, now)];
      Store(key, entry);
    }

    /** `entries.set`, then eviction. */
    method Store(key: string, entry: Entry)
      requires maxEntries > 0 && Keyed(order, recency, entries) && recency == Run(history, maxEntries)
      requires forall k :: k in entries ==> entries[k].lastAccessedAt < entry.lastAccessedAt
      requires Recorded(entries[key := entry], clock, puts)
      modifies this`entries, this`order, this`recency, this`history
      ensures Valid() && history == old(history) + [Stored(key)]
      ensures recency == Newest(Used(old(recency), key), maxEntries)
      ensures key in entries && KeptFrom(entries, old(entries)[key := entry])
    {
      RunNext(history, Stored(key), maxEntries);
      NewestKeepsLast(Used(recency, key), key, maxEntries);
      Set(key, entry);
      EvictOverflow();
      history := history + [Stored(key)];
      assert key in recency;
    }

    /** The first entry, in insertion order, with the least access time. */
    method Oldest() returns (key: string)
      requires Keyed(order, recency, entries) && order != []
      ensures key in entries && recency != [] && key == recency[0]
    {
      key := order[0];
      assert key in order;
      for i := 1 to |order|
        invariant key in entries
        invariant forall j :: 0 <= j < i ==> order[j] in entries && entries[key].lastAccessedAt <= entries[order[j]].lastAccessedAt
      {
        assert order[i] in order;
        if entries[order[i]].lastAccessedAt < entries[key].lastAccessedAt {
          key := order[i];
        }
      }
      SizesAgree(order, recency, entries);
      assert recency[0] in recency && recency[0] in order;
      FirstIsOldest(recency, entries, key);
    }

    method EvictOldest()
      requires Keyed(order, recency, entries) && Recorded(entries, clock, puts) && order != []
      modifies this`entries, this`order, this`recency
      ensures Keyed(order, recency, entries) && Recorded(entries, clock, puts)
      ensures |order| < |old(order)|
      ensures old(recency) != [] && recency == old(recency)[1..]
      ensures KeptFrom(entries, old(entries)) && forall m :: KeptFrom(old(entries), m) ==> KeptFrom(entries, m)
    {
      var oldest := Oldest();
      WithoutHead(recency);
      RecordedWithout(entries, clock, puts, oldest, clock);
      var _ := Remove(entries[oldest].specHash);
    }

    method EvictOverflow()
      requires Keyed(order, recency, entries) && Recorded(entries, clock, puts)
      modifies this`entries, this`order, this`recency
      ensures Keyed(order, recency, entries) && Recorded(entries, clock, puts)
      ensures recency == Newest(old(recency), maxEntries) && KeptFrom(entries, old(entries))
    {
      SizesAgree(order, recency, entries);
      ghost var all := recency;
      while |order| > maxEntries
        invariant Keyed(order, recency, entries) && Recorded(entries, clock, puts) && |order| == |recency|
        invariant Newest(recency, maxEntries) == Newest(all, maxEntries)
        invariant KeptFrom(entries, old(entries))
        decreases |order|
      {
        NewestOfRest(recency, maxEntries);
        EvictOldest();
        SizesAgree(order, recency, entries);
      }
    }

    /**
     A hit is the last put of the key, still within its time to live and verified
     again at this moment; an expired or poisoned entry is removed.
     */
    method Get(specHash: string, checkedAt: int, now: int) returns (r: GetResult)
      requires Valid() && clock < checkedAt < now
      modifies this`entries, this`order, this`recency, this`clock, this`history
      ensures Valid() && clock == now
      ensures r.Miss? <==> specHash !in old(entries) || Expired(old(entries)[specHash], checkedAt)
      ensures r.Poisoned? <==>
        && specHash in old(entries) && !Expired(old(entries)[specHash], checkedAt) && !Verifies(old(entries)[specHash])
      ensures !r.Hit? ==>
        && entries == old(entries) - {specHash} && recency == Without(old(recency), specHash)
        && history == old(history) + [Removed(specHash)]
      ensures r.Hit? ==>
        && specHash in puts && r.snapshot == puts[specHash].snapshot && checkedAt - puts[specHash].time <= ttlMs
        && recency == Used(old(recency), specHash) && history == old(history) + [Found(specHash)]
        && entries == old(entries)[specHash := old(entries)[specHash].(lastAccessedAt := now)]
    {
      if specHash !in entries || Expired(entries[specHash], checkedAt) {
        r := Miss;
      } else {
        r := if Verifies(entries[specHash]) then Hit(entries[specHash].snapshot) else Poisoned;
      }
      if r.Hit? {
        Touch(specHash, now);
      } else {
        RecordedWithout(entries, clock, puts, specHash, now);
        clock := now;
        var _ := Forget(specHash);
      }
    }

    /** `entry.lastAccessedAt = now` */
    method Touch(specHash: string, now: int)
      requires Valid() && clock < now && specHash in entries
      modifies this`entries, this`order, this`recency, this`clock, this`history
      ensures Valid() && clock == now
      ensures recency == Used(old(recency), specHash) && history == old(history) + [Found(specHash)]
      ensures entries == old(entries)[specHash := old(entries)[specHash].(lastAccessedAt := now)]
    {
      NothingLater(entries, clock, puts, now);
      RecordedAfterTouch(entries, clock, puts, specHash, now);
      clock := now;
      Refresh(specHash, entries[specHash].(lastAccessedAt := now));
    }

    method Refresh(key: string, entry: Entry)
      requires maxEntries > 0 && Keyed(order, recency, entries) && |recency| <= maxEntries
      requires key in entries && recency == Run(history, maxEntries)
      requires forall k :: k in entries ==> entries[k].lastAccessedAt < entry.lastAccessedAt
      requires Recorded(entries[key := entry], clock, puts)
      modifies this`entries, this`order, this`recency, this`history
      ensures Valid() && entries == old(entries)[key := entry]
      ensures recency == Used(old(recency), key) && history == old(history) + [Found(key)]
    {
      WithoutLength(recency, key);
      RunNext(history, Found(key), maxEntries);
      Set(key, entry);
      history := history + [Found(key)];
    }

    method Forget(specHash: string) returns (had: bool)
      requires maxEntries > 0 && Keyed(order, recency, entries) && |recency| <= maxEntries
      requires Recorded(entries - {specHash}, clock, puts) && recency == Run(history, maxEntries)
      modifies this`entries, this`order, this`recency, this`history
      ensures Valid() && had == (specHash in old(entries))
      ensures entries == old(entries) - {specHash} && recency == Without(old(recency), specHash)
      ensures history == old(history) + [Removed(specHash)]
    {
      RunNext(history, Removed(specHash), maxEntries);
      WithoutHas(recency, specHash);
      had := Remove(specHash);
      history := history + [Removed(specHash)];
    }

    /** Test hook: other files under the same key and snapshot. */
    method PoisonForTest(specHash: string, replacement: seq<SourceFile>) returns (had: bool)
      requires Valid()
      modifies this`entries
      ensures Valid() && had == (specHash in old(entries))
      ensures entries == if had then old(entries)[specHash := old(entries)[specHash].(
          content := Content(replacement, old(entries)[specHash].content.dependencies))] else old(entries)
    {
      had := specHash in entries;
      if had {
        var entry := entries[specHash];
        entries := entries[specHash := entry.(content := Content(replacement, entry.content.dependencies))];
      }
    }
  }
}
