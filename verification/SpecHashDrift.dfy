/** The ledger that notices when one version of a package changes its spec hash. */
module SpecHashDrift {
  import opened Separators
  import SortedLists

  datatype Observation = Observation(packageId: string, version: string, specHash: string)

  datatype Signal =
    | Stable(observed: seq<string>)
    | Drift(previous: seq<string>, now: string)

  function LedgerKey(packageId: string, version: string): string {
    packageId + "@" + version
  }

  function KeyOf(o: Observation): string {
    LedgerKey(o.packageId, o.version)
  }

  /** The spec hashes seen under a key, in order of first sight. */
  function SeenUnder(history: seq<Observation>, key: string): seq<string> {
    if history == [] then []
    else
      var before, last := history[..|history| - 1], history[|history| - 1];
      var seen := SeenUnder(before, key);
      if KeyOf(last) == key && last.specHash !in seen then seen + [last.specHash] else seen
  }

  lemma SeenAfter(history: seq<Observation>, o: Observation, key: string)
    ensures SeenUnder(history + [o], key) ==
      var seen := SeenUnder(history, key);
      if KeyOf(o) == key && o.specHash !in seen then seen + [o.specHash] else seen
  {
    assert (history + [o])[..|history|] == history;
  }

  function SortedHashes(hashes: seq<string>): seq<string> {
    SortedLists.Sort(SortedLists.LEX_ORDER, hashes)
  }

  /** What the ledger answers to an observation after a history. */
  function SignalFor(history: seq<Observation>, o: Observation): Signal {
    var seen := SeenUnder(history, KeyOf(o));
    if seen != [] && o.specHash !in seen then Drift(SortedHashes(seen), o.specHash)
    else Stable(SortedHashes(SeenUnder(history + [o], KeyOf(o))))
  }

  function HashesAt(observed: map<string, seq<string>>, key: string): seq<string> {
    if key in observed then observed[key] else []
  }

  ghost predicate Follows(observed: map<string, seq<string>>, history: seq<Observation>) {
    forall key :: HashesAt(observed, key) == SeenUnder(history, key)
  }

  lemma FollowsAfter(observed: map<string, seq<string>>, history: seq<Observation>, o: Observation, hashes: seq<string>)
    requires Follows(observed, history) && hashes == SeenUnder(history + [o], KeyOf(o))
    ensures Follows(observed[KeyOf(o) := hashes], history + [o])
  {
    forall key
      ensures HashesAt(observed[KeyOf(o) := hashes], key) == SeenUnder(history + [o], key)
    {
      assert HashesAt(observed, key) == SeenUnder(history, key);
      SeenAfter(history, o, key);
    }
  }

  class SpecHashDriftLedger {
    var observed: map<string, seq<string>>
    ghost var history: seq<Observation>

    ghost predicate Valid()
      reads this
    {
      Follows(observed, history)
    }

    constructor ()
      ensures Valid() && history == []
    {
      observed, history := map[], [];
    }

    method Observe(o: Observation) returns (signal: Signal)
      requires Valid()
      modifies this
      ensures Valid() && history == old(history) + [o]
      ensures signal == SignalFor(old(history), o)
    {
      var key := KeyOf(o);
      var hashes := HashesAt(observed, key);
      var previous := SortedHashes(hashes);
      SortedLists.InMultiset(previous, hashes);
      assert previous == [] <==> hashes == [];
      SeenAfter(history, o, key);
      if o.specHash !in hashes {
        hashes := hashes + [o.specHash];
      }
      FollowsAfter(observed, history, o, hashes);
      observed := observed[key := hashes];
      history := history + [o];
      if previous != [] && o.specHash !in previous {
        return Drift(previous, o.specHash);
      }
      return Stable(SortedHashes(hashes));
    }
  }

  // ------------------------------------------------------- what the ledger's keys mix

  /** Another package and version have the same ledger key. */
  ghost predicate IsAmbiguous(packageId: string, version: string) {
    exists q, w :: (q != packageId || w != version) && LedgerKey(q, w) == LedgerKey(packageId, version)
  }

  lemma AmbiguousByPackage(p: string, v: string, i: nat)
    requires i < |p| && p[i] == '@'
    ensures IsAmbiguous(p, v)
  {
    var q, w := p[..i], p[i + 1..] + "@" + v;
    assert p == q + "@" + p[i + 1..];
    assert LedgerKey(q, w) == LedgerKey(p, v) && |q| < |p|;
  }

  lemma AmbiguousByVersion(p: string, v: string, i: nat)
    requires i < |v| && v[i] == '@'
    ensures IsAmbiguous(p, v)
  {
    var q, w := p + "@" + v[..i], v[i + 1..];
    assert v == v[..i] + "@" + w;
    assert LedgerKey(q, w) == LedgerKey(p, v) && |q| > |p|;
  }

  lemma OnlyDivision(p: string, v: string, q: string, w: string)
    requires '@' !in p && '@' !in v && LedgerKey(q, w) == LedgerKey(p, v)
    ensures q == p && w == v
  {
    OtherDivision('@', p, v, q, w);
  }

  /** A ledger key stands for one package and version exactly when neither has an at sign. */
  lemma AmbiguousExactly(packageId: string, version: string)
    ensures IsAmbiguous(packageId, version) <==> '@' in packageId || '@' in version
  {
    if '@' in packageId {
      var i :| 0 <= i < |packageId| && packageId[i] == '@';
      AmbiguousByPackage(packageId, version, i);
    } else if '@' in version {
      var i :| 0 <= i < |version| && version[i] == '@';
      AmbiguousByVersion(packageId, version, i);
    } else if IsAmbiguous(packageId, version) {
      var q, w :| (q != packageId || w != version) && LedgerKey(q, w) == LedgerKey(packageId, version);
      OnlyDivision(packageId, version, q, w);
    }
  }

  /** Versions without an at sign keep the packages of one ledger apart, whatever the package ids are. */
  lemma KeysApart(p: string, v: string, q: string, w: string)
    requires '@' !in v && '@' !in w
    ensures LedgerKey(p, v) == LedgerKey(q, w) <==> p == q && v == w
  {
    var s, t := LedgerKey(p, v), LedgerKey(q, w);
    if s == t {
      LaterIsVersion(p, v, |q|);
      LaterIsVersion(q, w, |p|);
      assert s[|p|] == '@' && t[|q|] == '@';
      assert s[..|p|] == p && t[..|q|] == q;
      assert s[|p| + 1..] == v && t[|q| + 1..] == w;
    }
  }

  lemma LaterIsVersion(p: string, v: string, i: int)
    requires 0 <= i < |LedgerKey(p, v)|
    ensures i <= |p| || LedgerKey(p, v)[i] in v
  {
    if |p| < i {
      assert LedgerKey(p, v)[i] == v[i - |p| - 1];
    }
  }

  // --------------------------------------------------------- when its answer is right

  predicate SamePackage(x: Observation, o: Observation) {
    x.packageId == o.packageId && x.version == o.version
  }

  /** The observations of the same package and version. */
  function Own(history: seq<Observation>, o: Observation): seq<Observation> {
    if history == [] then []
    else
      var before, last := history[..|history| - 1], history[|history| - 1];
      if SamePackage(last, o) then Own(before, o) + [last] else Own(before, o)
  }

  lemma {:induction false} OwnHas(history: seq<Observation>, o: Observation)
    ensures forall x :: x in Own(history, o) <==> x in history && SamePackage(x, o)
  {
    if history != [] {
      var before, last := history[..|history| - 1], history[|history| - 1];
      OwnHas(before, o);
      assert history == before + [last];
    }
  }

  predicate Shows(history: seq<Observation>, key: string, hash: string) {
    exists i :: 0 <= i < |history| && KeyOf(history[i]) == key && history[i].specHash == hash
  }

  lemma {:induction false} SeenHas(history: seq<Observation>, key: string, hash: string)
    ensures hash in SeenUnder(history, key) <==> Shows(history, key, hash)
  {
    if history != [] {
      var before, last := history[..|history| - 1], history[|history| - 1];
      SeenHas(before, key, hash);
      assert forall i :: 0 <= i < |before| ==> before[i] == history[i];
    }
  }

  lemma {:induction false} SeenOnce(history: seq<Observation>, key: string)
    ensures forall i, j :: 0 <= i < j < |SeenUnder(history, key)| ==> SeenUnder(history, key)[i] != SeenUnder(history, key)[j]
  {
    if history != [] {
      SeenOnce(history[..|history| - 1], key);
    }
  }

  predicate SameElements(a: seq<string>, b: seq<string>) {
    (forall h :: h in a ==> h in b) && (forall h :: h in b ==> h in a)
  }

  /** Sorted lists of what two ledgers saw are equal exactly when they saw the same. */
  lemma SortedSeenExactly(a: seq<Observation>, b: seq<Observation>, key: string)
    ensures SortedHashes(SeenUnder(a, key)) == SortedHashes(SeenUnder(b, key)) <==>
      SameElements(SeenUnder(a, key), SeenUnder(b, key))
  {
    var s, t := SeenUnder(a, key), SeenUnder(b, key);
    SortedLists.InMultiset(SortedHashes(s), s);
    SortedLists.InMultiset(SortedHashes(t), t);
    if SameElements(s, t) {
      SeenOnce(a, key);
      SeenOnce(b, key);
      SortedLists.DistinctMultiset(s, t);
      SortedLists.LexIsTotal();
      SortedLists.SortIgnoresOrder(SortedLists.LEX_ORDER, s, t);
    }
  }

  /** Every hash seen under the key was also seen for this very package and version. */
  predicate OthersAddNothing(history: seq<Observation>, o: Observation) {
    forall x :: x in history && KeyOf(x) == KeyOf(o) ==> o.(specHash := x.specHash) in history
  }

  /** This package and version were never seen, and the key only with this hash. */
  predicate OnlyThisHash(history: seq<Observation>, o: Observation) {
    forall x :: x in history && KeyOf(x) == KeyOf(o) ==> x.specHash == o.specHash && !SamePackage(x, o)
  }

  lemma SeenByOthers(history: seq<Observation>, o: Observation, h: string)
    ensures h in SeenUnder(history, KeyOf(o)) <==> exists x :: x in history && KeyOf(x) == KeyOf(o) && x.specHash == h
    ensures h in SeenUnder(Own(history, o), KeyOf(o)) <==> o.(specHash := h) in history
  {
    var key, own := KeyOf(o), Own(history, o);
    OwnHas(history, o);
    SeenHas(history, key, h);
    SeenHas(own, key, h);
    if x :| x in history && KeyOf(x) == key && x.specHash == h {
      var i :| 0 <= i < |history| && history[i] == x;
      assert Shows(history, key, h);
    }
    if Shows(own, key, h) {
      var i :| 0 <= i < |own| && KeyOf(own[i]) == key && own[i].specHash == h;
      assert own[i] in own;
      assert own[i] == o.(specHash := h);
    }
    if o.(specHash := h) in history {
      var i :| 0 <= i < |own| && own[i] == o.(specHash := h);
      assert Shows(own, key, h);
    }
  }

  lemma SharedSeen(history: seq<Observation>, o: Observation)
    ensures var all, own := SeenUnder(history, KeyOf(o)), SeenUnder(Own(history, o), KeyOf(o));
      && (forall h :: h in own ==> h in all)
      && (SameElements(all, own) <==> OthersAddNothing(history, o))
      && (own == [] && (forall h :: h in all ==> h == o.specHash) <==> OnlyThisHash(history, o))
  {
    var key := KeyOf(o);
    var all, own := SeenUnder(history, key), SeenUnder(Own(history, o), key);
    forall h
      ensures h in own <==> o.(specHash := h) in history
      ensures h in all <==> exists x :: x in history && KeyOf(x) == key && x.specHash == h
    {
      SeenByOthers(history, o, h);
    }
    forall x | x in history && KeyOf(x) == key
      ensures x.specHash in all
      ensures SamePackage(x, o) ==> x.specHash in own
    {
      assert SamePackage(x, o) ==> x == o.(specHash := x.specHash);
    }
    if own != [] {
      assert o.(specHash := own[0]) in history;
    }
  }

  /** A version with an at sign can bring two packages under one key. */
  lemma AtSignsMix()
    ensures exists p, v, q, w :: p != q && LedgerKey(p, v) == LedgerKey(q, w)
  {
    assert LedgerKey("a", "b@c") == LedgerKey("a@b", "c");
    assert "a" != "a@b" by {
      assert |"a"| != |"a@b"|;
    }
  }

  predicate SeenBefore(history: seq<Observation>, packageId: string, version: string) {
    exists i :: 0 <= i < |history| && history[i].packageId == packageId && history[i].version == version
  }

  predicate PlainVersions(history: seq<Observation>) {
    forall i :: 0 <= i < |history| ==> '@' !in history[i].version
  }

  /**
   Over any history, drift is reported exactly when something was seen under the key of this
   package and version before and nothing with this spec hash, and the answer lists every hash
   seen there.
   */
  lemma DriftIsByKey(history: seq<Observation>, o: Observation)
    ensures var key, signal := KeyOf(o), SignalFor(history, o);
      && (signal.Drift? <==> (exists h :: Shows(history, key, h)) && !Shows(history, key, o.specHash))
      && (signal.Drift? ==> forall h :: h in signal.previous <==> Shows(history, key, h))
      && (signal.Stable? ==> forall h :: h in signal.observed <==> Shows(history + [o], key, h))
  {
    var key := KeyOf(o);
    var seen, more := SeenUnder(history, key), SeenUnder(history + [o], key);
    SortedLists.InMultiset(SortedHashes(seen), seen);
    SortedLists.InMultiset(SortedHashes(more), more);
    forall h
      ensures h in seen <==> Shows(history, key, h)
      ensures h in more <==> Shows(history + [o], key, h)
    {
      SeenHas(history, key, h);
      SeenHas(history + [o], key, h);
    }
    if seen != [] {
      assert seen[0] in seen;
    }
  }

  /**
   Over any history, the answer depends only on what is under the key of this package and
   version; and if no version has an at sign, that is what is known of this very version of
   this package.
   */
  lemma DriftExactly(history: seq<Observation>, o: Observation)
    ensures var key, signal := KeyOf(o), SignalFor(history, o);
      && (signal.Drift? <==> (exists h :: Shows(history, key, h)) && !Shows(history, key, o.specHash))
      && (signal.Drift? ==> forall h :: h in signal.previous <==> Shows(history, key, h))
      && (signal.Stable? ==> forall h :: h in signal.observed <==> Shows(history + [o], key, h))
    ensures PlainVersions(history + [o]) ==> var signal := SignalFor(history, o);
      && (signal.Drift? <==> SeenBefore(history, o.packageId, o.version) && o !in history)
      && (signal.Drift? ==> forall h :: h in signal.previous <==> Observation(o.packageId, o.version, h) in history)
      && (signal.Stable? ==> forall h :: h in signal.observed <==> Observation(o.packageId, o.version, h) in history + [o])
  {
    DriftIsByKey(history, o);
    if PlainVersions(history + [o]) {
      PlainDriftExactly(history, o);
    }
  }

  lemma PlainDriftExactly(history: seq<Observation>, o: Observation)
    requires PlainVersions(history + [o])
    ensures SignalFor(history, o).Drift? <==> SeenBefore(history, o.packageId, o.version) && o !in history
    ensures SignalFor(history, o).Drift? ==>
      forall h :: h in SignalFor(history, o).previous <==> Observation(o.packageId, o.version, h) in history
    ensures SignalFor(history, o).Stable? ==>
      forall h :: h in SignalFor(history, o).observed <==> Observation(o.packageId, o.version, h) in history + [o]
  {
    assert o == (history + [o])[|history|];
    assert forall i :: 0 <= i < |history| ==> history[i] == (history + [o])[i];
    SeenIsObserved(history, o);
    SeenIsObserved(history + [o], o);
    var seen, more := SeenUnder(history, KeyOf(o)), SeenUnder(history + [o], KeyOf(o));
    SortedLists.InMultiset(SortedHashes(seen), seen);
    SortedLists.InMultiset(SortedHashes(more), more);
    if SeenBefore(history, o.packageId, o.version) {
      var i :| 0 <= i < |history| && history[i].packageId == o.packageId && history[i].version == o.version;
      assert Observation(o.packageId, o.version, history[i].specHash) == history[i];
      assert seen != [];
    }
    if seen != [] {
      assert Observation(o.packageId, o.version, seen[0]) in history;
    }
  }

  lemma {:induction false} SeenIsObserved(history: seq<Observation>, o: Observation)
    requires PlainVersions(history) && '@' !in o.version
    ensures forall h :: h in SeenUnder(history, KeyOf(o)) <==> Observation(o.packageId, o.version, h) in history
  {
    if history != [] {
      var before, last := history[..|history| - 1], history[|history| - 1];
      SeenIsObserved(before, o);
      KeysApart(last.packageId, last.version, o.packageId, o.version);
      assert history == before + [last];
    }
  }

  /**
   Over any history, the ledger answers as if it had seen this package and version alone
   exactly when nothing else under its key showed another hash, or when it is new and
   whatever else is under its key showed the hash it shows now.
   */
  lemma AnswerIsOwnExactly(history: seq<Observation>, o: Observation)
    ensures SignalFor(history, o) == SignalFor(Own(history, o), o) <==>
      OthersAddNothing(history, o) || OnlyThisHash(history, o)
  {
    var key, own := KeyOf(o), Own(history, o);
    SharedSeen(history, o);
    SortedSeenExactly(history, own, key);
    SortedSeenExactly(history + [o], own + [o], key);
    SeenAfter(history, o, key);
    SeenAfter(own, o, key);
    AnswersAgree(SeenUnder(history, key), SeenUnder(own, key), o.specHash);
  }

  lemma AnswersAgree(all: seq<string>, own: seq<string>, h: string)
    requires forall g :: g in own ==> g in all
    ensures var more, mine := if h in all then all else all + [h], if h in own then own else own + [h];
      (if all != [] && h !in all then own != [] && h !in own && SameElements(all, own)
       else (own == [] || h in own) && SameElements(more, mine))
      <==> SameElements(all, own) || (own == [] && forall g :: g in all ==> g == h)
  {
    if own != [] {
      assert own[0] in own;
    }
    if h in all {
      if h !in own && own != [] {
        assert !SameElements(all, own);
      }
    } else if all != [] {
      assert all[0] in all;
    }
  }
}
