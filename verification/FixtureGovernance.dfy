/**
 Governance of gate fixtures: the files on disk against a manifest, with changes allowed
 only under a migration descriptor that lists exactly the fixtures it changed.
 */
module FixtureGovernance {
  import opened Wrappers
  import opened JsText
  import opened Concatenation
  import opened SortedLists
  import Decimal
  import Versions

  datatype File = File(path: string, sha256: string)

  datatype Fixture = Fixture(fixtureId: string, files: seq<File>, descriptorId: Option<string>)

  datatype Descriptor = Descriptor(
    id: string, fromVersion: string, toVersion: string, affectedFixtures: seq<string>, rationale: string)

  datatype Change = FileMissing(path: string) | FileHashChanged(path: string) | FileUnexpected(path: string)

  datatype Finding =
    | FixtureMissing(fixtureId: string)
    | FixtureUnexpected(fixtureId: string)
    | Changed(fixtureId: string, change: Change)
    | DescriptorMissing(fixtureId: string)
    | DescriptorInvalid(fixtureId: string)

  // ------------------------------------------------------------------- descriptors

  predicate NoLeadingZero(part: string) {
    part == "0" || (part != "" && part[0] != '0')
  }

  predicate IsSemver(v: string) {
    Versions.IsVersion(v) && forall part :: part in Split(v, '.') ==> NoLeadingZero(part)
  }

  function TrimmedIds(ids: seq<string>): seq<string> {
    seq(|ids|, i requires 0 <= i < |ids| => Trim(ids[i]))
  }

  predicate HasDuplicates(ids: seq<string>) {
    exists i, j :: 0 <= i < j < |ids| && ids[i] == ids[j]
  }

  /** The descriptor passes its schema; texts are trimmed on the way. */
  predicate WellFormed(d: Descriptor) {
    var ids := TrimmedIds(d.affectedFixtures);
    && Trim(d.id) != "" && Trim(d.rationale) != ""
    && IsSemver(d.fromVersion) && IsSemver(d.toVersion) && Versions.Compare(d.toVersion, d.fromVersion) >= 0
    && ids != [] && "" !in ids && !HasDuplicates(ids)
  }

  function NormalizedIds(ids: seq<string>): seq<string> {
    SortedDistinct(LEX_ORDER, ids)
  }

  /** `validateMigrationDescriptor` */
  predicate Validates(d: Descriptor, changed: seq<string>) {
    WellFormed(d) && NormalizedIds(TrimmedIds(d.affectedFixtures)) == NormalizedIds(changed)
  }

  /** A descriptor validates exactly when it is well formed and lists the changed fixtures, in any order. */
  lemma ValidatesExactly(d: Descriptor, changed: seq<string>)
    ensures Validates(d, changed) <==>
      WellFormed(d) && forall id :: id in TrimmedIds(d.affectedFixtures) <==> id in changed
  {
    LexIsTotal();
    SortedDistinctExactly(LEX_ORDER, TrimmedIds(d.affectedFixtures), changed);
  }

  // ---------------------------------------------------------------------- entries

  /** `new Map(...)` keeps the last entry of an id. */
  function Latest(fixtures: seq<Fixture>, id: string): Option<Fixture> {
    if fixtures == [] then None
    else
      var last := fixtures[|fixtures| - 1];
      if last.fixtureId == id then Some(last) else Latest(fixtures[..|fixtures| - 1], id)
  }

  function LatestHash(files: seq<File>, path: string): Option<string> {
    if files == [] then None
    else
      var last := files[|files| - 1];
      if last.path == path then Some(last.sha256) else LatestHash(files[..|files| - 1], path)
  }

  function Ids(fixtures: seq<Fixture>): seq<string> {
    Distinct(seq(|fixtures|, i requires 0 <= i < |fixtures| => fixtures[i].fixtureId))
  }

  function Paths(files: seq<File>): seq<string> {
    Distinct(seq(|files|, i requires 0 <= i < |files| => files[i].path))
  }

  lemma {:induction false} IdsAreKeys(fixtures: seq<Fixture>, id: string)
    ensures id in Ids(fixtures) <==> Latest(fixtures, id).Some?
    ensures Latest(fixtures, id).Some? ==> Latest(fixtures, id).value.fixtureId == id
  {
    var all := seq(|fixtures|, i requires 0 <= i < |fixtures| => fixtures[i].fixtureId);
    if fixtures != [] {
      var n := |fixtures| - 1;
      IdsAreKeys(fixtures[..n], id);
      var earlier := seq(n, i requires 0 <= i < n => fixtures[..n][i].fixtureId);
      assert all == earlier + [fixtures[n].fixtureId];
    }
  }

  lemma {:induction false} PathsAreKeys(files: seq<File>, path: string)
    ensures path in Paths(files) <==> LatestHash(files, path).Some?
  {
    var all := seq(|files|, i requires 0 <= i < |files| => files[i].path);
    if files != [] {
      var n := |files| - 1;
      PathsAreKeys(files[..n], path);
      var earlier := seq(n, i requires 0 <= i < n => files[..n][i].path);
      assert all == earlier + [files[n].path];
    }
  }

  function DeclaredChange(m: Fixture, a: Fixture, path: string): seq<Change> {
    var actual := LatestHash(a.files, path);
    if actual.None? then [FileMissing(path)]
    else if actual != LatestHash(m.files, path) then [FileHashChanged(path)]
    else []
  }

  function UndeclaredChange(m: Fixture, path: string): seq<Change> {
    if LatestHash(m.files, path).None? then [FileUnexpected(path)] else []
  }

  function DeclaredChanges(m: Fixture, a: Fixture): seq<seq<Change>> {
    var paths := Paths(m.files);
    seq(|paths|, i requires 0 <= i < |paths| => DeclaredChange(m, a, paths[i]))
  }

  function UndeclaredChanges(m: Fixture, a: Fixture): seq<seq<Change>> {
    var paths := Paths(a.files);
    seq(|paths|, i requires 0 <= i < |paths| => UndeclaredChange(m, paths[i]))
  }

  function Compare(m: Fixture, a: Fixture): seq<Change> {
    Flat(DeclaredChanges(m, a)) + Flat(UndeclaredChanges(m, a))
  }

  /** `compareFixtureEntry` */
  method CompareFixtureEntry(m: Fixture, a: Fixture) returns (changes: seq<Change>)
    ensures changes == Compare(m, a)
  {
    changes := [];
    var paths := Paths(m.files);
    ghost var parts := DeclaredChanges(m, a);
    var i := 0;
    while i < |paths|
      invariant i <= |paths| == |parts| && changes == Flat(parts[..i])
    {
      FlatNext(parts, i);
      var actual := LatestHash(a.files, paths[i]);
      if actual.None? {
        changes := changes + [FileMissing(paths[i])];
      } else if actual != LatestHash(m.files, paths[i]) {
        changes := changes + [FileHashChanged(paths[i])];
      }
      i := i + 1;
    }
    FlatAll(parts);
    ghost var declared := changes;
    paths, parts, i := Paths(a.files), UndeclaredChanges(m, a), 0;
    while i < |paths|
      invariant i <= |paths| == |parts| && changes == declared + Flat(parts[..i])
    {
      AppendNext(declared, parts, i);
      if LatestHash(m.files, paths[i]).None? {
        changes := changes + [FileUnexpected(paths[i])];
      }
      i := i + 1;
    }
    FlatAll(parts);
  }

  /** Two fixtures have the same files with the same hashes. */
  ghost predicate SameFiles(m: Fixture, a: Fixture) {
    forall path :: LatestHash(m.files, path) == LatestHash(a.files, path)
  }

  /** There is a change exactly when some path has different files or hashes. */
  lemma NoChangeExactly(m: Fixture, a: Fixture)
    ensures Compare(m, a) == [] <==> SameFiles(m, a)
  {
    var declared, undeclared := DeclaredChanges(m, a), UndeclaredChanges(m, a);
    FlatEmpty(declared);
    FlatEmpty(undeclared);
    if Compare(m, a) == [] {
      forall i | 0 <= i < |Paths(m.files)|
        ensures LatestHash(m.files, Paths(m.files)[i]) == LatestHash(a.files, Paths(m.files)[i])
      {
        assert declared[i] == [];
      }
      forall i | 0 <= i < |Paths(a.files)|
        ensures LatestHash(m.files, Paths(a.files)[i]).Some?
      {
        assert undeclared[i] == [];
      }
      forall path
        ensures LatestHash(m.files, path) == LatestHash(a.files, path)
      {
        PathsAreKeys(m.files, path);
        PathsAreKeys(a.files, path);
      }
    }
    if SameFiles(m, a) {
      forall i | 0 <= i < |declared|
        ensures declared[i] == []
      {
        PathsAreKeys(m.files, Paths(m.files)[i]);
      }
      forall i | 0 <= i < |undeclared|
        ensures undeclared[i] == []
      {
        PathsAreKeys(a.files, Paths(a.files)[i]);
      }
    }
  }

  // -------------------------------------------------------------------- governance

  /** The fixture is declared and on disk, and differs. */
  predicate IsChanged(manifest: seq<Fixture>, actual: seq<Fixture>, id: string) {
    Latest(manifest, id).Some? && Latest(actual, id).Some?
    && Compare(Latest(manifest, id).value, Latest(actual, id).value) != []
  }

  /** The fixture changed under the named descriptor. */
  predicate ChangedUnder(manifest: seq<Fixture>, actual: seq<Fixture>, id: string, descriptorId: string) {
    IsChanged(manifest, actual, id) && Latest(manifest, id).value.descriptorId == Some(descriptorId)
  }

  function Tagged(id: string, changes: seq<Change>): seq<Finding> {
    seq(|changes|, i requires 0 <= i < |changes| => Changed(id, changes[i]))
  }

  function Report(manifest: seq<Fixture>, actual: seq<Fixture>, id: string, last: Finding): seq<Finding>
    requires IsChanged(manifest, actual, id)
  {
    Tagged(id, Compare(Latest(manifest, id).value, Latest(actual, id).value)) + [last]
  }

  function DeclaredFindings(manifest: seq<Fixture>, actual: seq<Fixture>, id: string): seq<Finding> {
    if Latest(actual, id).None? then [FixtureMissing(id)]
    else if IsChanged(manifest, actual, id) && Latest(manifest, id).value.descriptorId.None?
    then Report(manifest, actual, id, DescriptorMissing(id))
    else []
  }

  function UndeclaredFindings(manifest: seq<Fixture>, id: string): seq<Finding> {
    if Latest(manifest, id).None? then [FixtureUnexpected(id)] else []
  }

  /** The fixtures that changed under a descriptor, in the order of the manifest. */
  function ChangedBy(manifest: seq<Fixture>, actual: seq<Fixture>, ids: seq<string>, descriptorId: string): (changed: seq<string>)
    ensures forall id :: id in changed <==> id in ids && ChangedUnder(manifest, actual, id, descriptorId)
  {
    if ids == [] then []
    else
      var n := |ids| - 1;
      assert ids == ids[..n] + [ids[n]];
      ChangedBy(manifest, actual, ids[..n], descriptorId)
      + (if ChangedUnder(manifest, actual, ids[n], descriptorId) then [ids[n]] else [])
  }

  /** The descriptors that changed fixtures name, in the order in which they are first named. */
  function NamedBy(manifest: seq<Fixture>, actual: seq<Fixture>, ids: seq<string>): seq<string> {
    if ids == [] then []
    else
      var n := |ids| - 1;
      var earlier, fixture := NamedBy(manifest, actual, ids[..n]), Latest(manifest, ids[n]);
      if IsChanged(manifest, actual, ids[n]) && fixture.value.descriptorId.Some? && fixture.value.descriptorId.value !in earlier
      then earlier + [fixture.value.descriptorId.value] else earlier
  }

  datatype DescriptorState = Absent | Invalid | Valid

  function StateOf(descriptors: map<string, Descriptor>, descriptorId: string, changed: seq<string>): DescriptorState {
    if descriptorId !in descriptors then Absent
    else if Validates(descriptors[descriptorId], changed) then Valid
    else Invalid
  }

  function EachReport(manifest: seq<Fixture>, actual: seq<Fixture>, changed: seq<string>, absent: bool): seq<seq<Finding>>
    requires forall id :: id in changed ==> IsChanged(manifest, actual, id)
  {
    seq(|changed|, i requires 0 <= i < |changed| =>
      assert changed[i] in changed;
      Report(manifest, actual, changed[i], if absent then DescriptorMissing(changed[i]) else DescriptorInvalid(changed[i])))
  }

  function DescriptorFindings(manifest: seq<Fixture>, actual: seq<Fixture>, descriptors: map<string, Descriptor>,
                              descriptorId: string): seq<Finding>
  {
    var changed := ChangedBy(manifest, actual, Ids(manifest), descriptorId);
    var state := StateOf(descriptors, descriptorId, changed);
    if state.Valid? then [] else Flat(EachReport(manifest, actual, changed, state.Absent?))
  }

  function AllDeclared(manifest: seq<Fixture>, actual: seq<Fixture>): seq<seq<Finding>> {
    var ids := Ids(manifest);
    seq(|ids|, i requires 0 <= i < |ids| => DeclaredFindings(manifest, actual, ids[i]))
  }

  function AllUndeclared(manifest: seq<Fixture>, actual: seq<Fixture>): seq<seq<Finding>> {
    var ids := Ids(actual);
    seq(|ids|, i requires 0 <= i < |ids| => UndeclaredFindings(manifest, ids[i]))
  }

  function AllDescriptors(manifest: seq<Fixture>, actual: seq<Fixture>, descriptors: map<string, Descriptor>): seq<seq<Finding>> {
    var named := NamedBy(manifest, actual, Ids(manifest));
    seq(|named|, i requires 0 <= i < |named| => DescriptorFindings(manifest, actual, descriptors, named[i]))
  }

  /** The findings of `assertFixtureGovernance`. */
  function Governance(manifest: seq<Fixture>, actual: seq<Fixture>, descriptors: map<string, Descriptor>): seq<Finding> {
    Flat(AllDeclared(manifest, actual)) + Flat(AllUndeclared(manifest, actual))
    + Flat(AllDescriptors(manifest, actual, descriptors))
  }

  // --------------------------------------------------------------------- the loops

  ghost predicate SameMembers(byDescriptor: map<string, seq<string>>, named: seq<string>) {
    forall d :: d in byDescriptor <==> d in named
  }

  lemma PutKeepsMembers(byDescriptor: map<string, seq<string>>, named: seq<string>, mine: string, list: seq<string>)
    requires SameMembers(byDescriptor, named)
    ensures SameMembers(byDescriptor[mine := list], if mine in byDescriptor then named else named + [mine])
  {
  }

  /** What the first loop has gathered: the changed fixtures by descriptor, and the descriptors in order. */
  ghost predicate Gathered(manifest: seq<Fixture>, actual: seq<Fixture>, ids: seq<string>,
                           byDescriptor: map<string, seq<string>>, named: seq<string>)
  {
    && named == NamedBy(manifest, actual, ids)
    && SameMembers(byDescriptor, named)
    && (forall d :: ListOf(byDescriptor, d) == ChangedBy(manifest, actual, ids, d))
  }

  lemma ChangedByNext(manifest: seq<Fixture>, actual: seq<Fixture>, ids: seq<string>, i: nat, d: string)
    requires i < |ids|
    ensures ChangedBy(manifest, actual, ids[..i + 1], d) ==
      ChangedBy(manifest, actual, ids[..i], d) + (if ChangedUnder(manifest, actual, ids[i], d) then [ids[i]] else [])
  {
    assert ids[..i + 1][..i] == ids[..i];
  }

  lemma NamedByNext(manifest: seq<Fixture>, actual: seq<Fixture>, ids: seq<string>, i: nat)
    requires i < |ids|
    ensures var earlier := NamedBy(manifest, actual, ids[..i]);
      NamedBy(manifest, actual, ids[..i + 1]) ==
        if IsChanged(manifest, actual, ids[i]) && Latest(manifest, ids[i]).value.descriptorId.Some?
           && Latest(manifest, ids[i]).value.descriptorId.value !in earlier
        then earlier + [Latest(manifest, ids[i]).value.descriptorId.value] else earlier
  {
    assert ids[..i + 1][..i] == ids[..i];
  }

  function ListOf(byDescriptor: map<string, seq<string>>, d: string): seq<string> {
    if d in byDescriptor then byDescriptor[d] else []
  }

  lemma GatherOther(manifest: seq<Fixture>, actual: seq<Fixture>, ids: seq<string>, i: nat,
                    byDescriptor: map<string, seq<string>>, named: seq<string>)
    requires i < |ids| && Gathered(manifest, actual, ids[..i], byDescriptor, named)
    requires forall d :: !ChangedUnder(manifest, actual, ids[i], d)
    ensures Gathered(manifest, actual, ids[..i + 1], byDescriptor, named)
  {
    NamedByNext(manifest, actual, ids, i);
    assert IsChanged(manifest, actual, ids[i]) && Latest(manifest, ids[i]).value.descriptorId.Some? ==>
      ChangedUnder(manifest, actual, ids[i], Latest(manifest, ids[i]).value.descriptorId.value);
    forall d
      ensures ListOf(byDescriptor, d) == ChangedBy(manifest, actual, ids[..i + 1], d)
    {
      ChangedByNext(manifest, actual, ids, i, d);
    }
  }

  lemma GatherChanged(manifest: seq<Fixture>, actual: seq<Fixture>, ids: seq<string>, i: nat,
                      byDescriptor: map<string, seq<string>>, named: seq<string>, mine: string)
    requires i < |ids| && Gathered(manifest, actual, ids[..i], byDescriptor, named)
    requires ChangedUnder(manifest, actual, ids[i], mine)
    ensures Gathered(manifest, actual, ids[..i + 1], byDescriptor[mine := ListOf(byDescriptor, mine) + [ids[i]]],
                     if mine in byDescriptor then named else named + [mine])
  {
    var next := byDescriptor[mine := ListOf(byDescriptor, mine) + [ids[i]]];
    var namedNext := if mine in byDescriptor then named else named + [mine];
    assert namedNext == NamedBy(manifest, actual, ids[..i + 1]) by {
      NamedByNext(manifest, actual, ids, i);
    }
    forall d
      ensures ListOf(next, d) == ChangedBy(manifest, actual, ids[..i + 1], d)
    {
      GatheredList(manifest, actual, ids, i, byDescriptor, mine, d);
    }
    PutKeepsMembers(byDescriptor, named, mine, ListOf(byDescriptor, mine) + [ids[i]]);
    assert Gathered(manifest, actual, ids[..i + 1], next, namedNext);
  }

  lemma GatheredList(manifest: seq<Fixture>, actual: seq<Fixture>, ids: seq<string>, i: nat,
                     byDescriptor: map<string, seq<string>>, mine: string, d: string)
    requires i < |ids| && ChangedUnder(manifest, actual, ids[i], mine)
    requires ListOf(byDescriptor, d) == ChangedBy(manifest, actual, ids[..i], d)
    ensures ListOf(byDescriptor[mine := ListOf(byDescriptor, mine) + [ids[i]]], d) ==
      ChangedBy(manifest, actual, ids[..i + 1], d)
  {
    ChangedByNext(manifest, actual, ids, i, d);
  }

  method CheckOneDeclared(manifest: seq<Fixture>, actual: seq<Fixture>, ids: seq<string>, i: nat, before: seq<Finding>,
                          gathered: map<string, seq<string>>, namedBefore: seq<string>)
    returns (findings: seq<Finding>, byDescriptor: map<string, seq<string>>, named: seq<string>)
    requires i < |ids| && Latest(manifest, ids[i]).Some? && Gathered(manifest, actual, ids[..i], gathered, namedBefore)
    ensures findings == before + DeclaredFindings(manifest, actual, ids[i])
    ensures Gathered(manifest, actual, ids[..i + 1], byDescriptor, named)
  {
    findings, byDescriptor, named := before, gathered, namedBefore;
    var id := ids[i];
    var declared, found := Latest(manifest, id).value, Latest(actual, id);
    if found.None? {
      findings := findings + [FixtureMissing(id)];
    } else {
      var changes := CompareFixtureEntry(declared, found.value);
      if changes != [] && declared.descriptorId.None? {
        findings := findings + (Tagged(id, changes) + [DescriptorMissing(id)]);
      } else if changes != [] {
        var d := declared.descriptorId.value;
        GatherChanged(manifest, actual, ids, i, gathered, namedBefore, d);
        named := if d in gathered then named else named + [d];
        byDescriptor := byDescriptor[d := ListOf(gathered, d) + [id]];
        return;
      }
    }
    GatherOther(manifest, actual, ids, i, gathered, namedBefore);
  }

  /** The first loop of `assertFixtureGovernance`. */
  method CheckDeclared(manifest: seq<Fixture>, actual: seq<Fixture>)
    returns (findings: seq<Finding>, byDescriptor: map<string, seq<string>>, named: seq<string>)
    ensures findings == Flat(AllDeclared(manifest, actual))
    ensures Gathered(manifest, actual, Ids(manifest), byDescriptor, named)
  {
    findings, byDescriptor, named := [], map[], [];
    var ids, i := Ids(manifest), 0;
    ghost var parts := AllDeclared(manifest, actual);
    while i < |ids|
      invariant i <= |ids| == |parts| && findings == Flat(parts[..i])
      invariant Gathered(manifest, actual, ids[..i], byDescriptor, named)
    {
      var id := ids[i];
      FlatNext(parts, i);
      assert Latest(manifest, id).Some? by {
        assert id in ids;
        IdsAreKeys(manifest, id);
      }
      findings, byDescriptor, named := CheckOneDeclared(manifest, actual, ids, i, findings, byDescriptor, named);
      i := i + 1;
    }
    FlatAll(parts);
    assert ids[..i] == ids;
  }

  method ReportEach(manifest: seq<Fixture>, actual: seq<Fixture>, changed: seq<string>, absent: bool, before: seq<Finding>)
    returns (findings: seq<Finding>)
    requires forall id :: id in changed ==> IsChanged(manifest, actual, id)
    ensures findings == before + Flat(EachReport(manifest, actual, changed, absent))
  {
    findings := before;
    ghost var parts := EachReport(manifest, actual, changed, absent);
    var i := 0;
    while i < |changed|
      invariant i <= |changed| == |parts| && findings == before + Flat(parts[..i])
    {
      AppendNext(before, parts, i);
      var id := changed[i];
      assert id in changed;
      var changes := CompareFixtureEntry(Latest(manifest, id).value, Latest(actual, id).value);
      findings := findings + (Tagged(id, changes) + [if absent then DescriptorMissing(id) else DescriptorInvalid(id)]);
      i := i + 1;
    }
    FlatAll(parts);
  }

  method CheckUndeclared(manifest: seq<Fixture>, actual: seq<Fixture>, before: seq<Finding>) returns (findings: seq<Finding>)
    ensures findings == before + Flat(AllUndeclared(manifest, actual))
  {
    findings := before;
    var ids, i := Ids(actual), 0;
    ghost var parts := AllUndeclared(manifest, actual);
    while i < |ids|
      invariant i <= |ids| == |parts| && findings == before + Flat(parts[..i])
    {
      AppendNext(before, parts, i);
      if Latest(manifest, ids[i]).None? {
        findings := findings + [FixtureUnexpected(ids[i])];
      }
      i := i + 1;
    }
    FlatAll(parts);
  }

  /** `assertFixtureGovernance` */
  method AssertFixtureGovernance(manifest: seq<Fixture>, actual: seq<Fixture>, descriptors: map<string, Descriptor>)
    returns (findings: seq<Finding>)
    ensures findings == Governance(manifest, actual, descriptors)
  {
    var byDescriptor, named;
    findings, byDescriptor, named := CheckDeclared(manifest, actual);
    findings := CheckUndeclared(manifest, actual, findings);
    ghost var before, parts := findings, AllDescriptors(manifest, actual, descriptors);
    var i := 0;
    while i < |named|
      invariant i <= |named| == |parts| && findings == before + Flat(parts[..i])
    {
      AppendNext(before, parts, i);
      var descriptorId := named[i];
      assert descriptorId in named;
      var changed := byDescriptor[descriptorId];
      if descriptorId !in descriptors {
        findings := ReportEach(manifest, actual, changed, true, findings);
      } else if !Validates(descriptors[descriptorId], changed) {
        findings := ReportEach(manifest, actual, changed, false, findings);
      }
      i := i + 1;
    }
    FlatAll(parts);
  }

  // ----------------------------------------------------------------------- theorem

  /** The descriptor is there, is well formed, and lists exactly the fixtures changed under it. */
  ghost predicate Covers(manifest: seq<Fixture>, actual: seq<Fixture>, descriptors: map<string, Descriptor>, d: string) {
    && d in descriptors && WellFormed(descriptors[d])
    && forall id :: id in TrimmedIds(descriptors[d].affectedFixtures) <==> ChangedUnder(manifest, actual, id, d)
  }

  /** A changed fixture names a descriptor that covers it. */
  ghost predicate Covered(manifest: seq<Fixture>, actual: seq<Fixture>, descriptors: map<string, Descriptor>, id: string) {
    IsChanged(manifest, actual, id) ==>
      && Latest(manifest, id).value.descriptorId.Some?
      && Covers(manifest, actual, descriptors, Latest(manifest, id).value.descriptorId.value)
  }

  lemma {:induction false} NamedByHas(manifest: seq<Fixture>, actual: seq<Fixture>, ids: seq<string>, d: string)
    ensures d in NamedBy(manifest, actual, ids) <==> exists id :: id in ids && ChangedUnder(manifest, actual, id, d)
  {
    if ids != [] {
      var n := |ids| - 1;
      assert ids == ids[..n] + [ids[n]];
      NamedByHas(manifest, actual, ids[..n], d);
      if ChangedUnder(manifest, actual, ids[n], d) {
        assert ids[n] in ids;
      }
    }
  }

  lemma ChangedByHas(manifest: seq<Fixture>, actual: seq<Fixture>, d: string, id: string)
    ensures id in ChangedBy(manifest, actual, Ids(manifest), d) <==> ChangedUnder(manifest, actual, id, d)
  {
    IdsAreKeys(manifest, id);
  }

  lemma ReportsAreSome(manifest: seq<Fixture>, actual: seq<Fixture>, changed: seq<string>, absent: bool)
    requires changed != [] && forall id :: id in changed ==> IsChanged(manifest, actual, id)
    ensures Flat(EachReport(manifest, actual, changed, absent)) != []
  {
    var parts := EachReport(manifest, actual, changed, absent);
    FlatEmpty(parts);
    assert parts[0] != [];
  }

  /** What validates is what covers, once the changed fixtures are known. */
  lemma CoversExactly(manifest: seq<Fixture>, actual: seq<Fixture>, descriptors: map<string, Descriptor>, d: string, changed: seq<string>)
    requires forall id :: id in changed <==> ChangedUnder(manifest, actual, id, d)
    ensures Covers(manifest, actual, descriptors, d) <==> d in descriptors && Validates(descriptors[d], changed)
  {
    if d in descriptors {
      ValidatesExactly(descriptors[d], changed);
    }
  }

  lemma DescriptorFindingsExactly(manifest: seq<Fixture>, actual: seq<Fixture>, descriptors: map<string, Descriptor>, d: string)
    requires exists id :: ChangedUnder(manifest, actual, id, d)
    ensures DescriptorFindings(manifest, actual, descriptors, d) == [] <==> Covers(manifest, actual, descriptors, d)
  {
    var changed := ChangedBy(manifest, actual, Ids(manifest), d);
    forall id
      ensures id in changed <==> ChangedUnder(manifest, actual, id, d)
    {
      ChangedByHas(manifest, actual, d, id);
    }
    var some :| ChangedUnder(manifest, actual, some, d);
    assert some in changed;
    CoversExactly(manifest, actual, descriptors, d, changed);
    ReportsAreSome(manifest, actual, changed, StateOf(descriptors, d, changed).Absent?);
  }

  /** The fixture is on disk and, if changed, names a descriptor. */
  predicate Accounted(manifest: seq<Fixture>, actual: seq<Fixture>, id: string)
    requires Latest(manifest, id).Some?
  {
    Latest(actual, id).Some? && (IsChanged(manifest, actual, id) ==> Latest(manifest, id).value.descriptorId.Some?)
  }

  lemma DeclaredFindingsOne(manifest: seq<Fixture>, actual: seq<Fixture>, id: string)
    requires Latest(manifest, id).Some?
    ensures DeclaredFindings(manifest, actual, id) == [] <==> Accounted(manifest, actual, id)
  {
    if Latest(actual, id).Some? && IsChanged(manifest, actual, id) && Latest(manifest, id).value.descriptorId.None? {
      assert |Report(manifest, actual, id, DescriptorMissing(id))| > 0;
    }
  }

  lemma DeclaredFindingsExactly(manifest: seq<Fixture>, actual: seq<Fixture>)
    ensures Flat(AllDeclared(manifest, actual)) == [] <==>
      forall id :: Latest(manifest, id).Some? ==> Accounted(manifest, actual, id)
  {
    var ids, parts := Ids(manifest), AllDeclared(manifest, actual);
    FlatEmpty(parts);
    if Flat(parts) == [] {
      forall id | Latest(manifest, id).Some?
        ensures Accounted(manifest, actual, id)
      {
        IdsAreKeys(manifest, id);
        var i :| 0 <= i < |ids| && ids[i] == id;
        assert parts[i] == [];
        DeclaredFindingsOne(manifest, actual, id);
      }
    } else {
      var i :| 0 <= i < |parts| && parts[i] != [];
      assert ids[i] in ids;
      IdsAreKeys(manifest, ids[i]);
      DeclaredFindingsOne(manifest, actual, ids[i]);
    }
  }

  lemma UndeclaredFindingsExactly(manifest: seq<Fixture>, actual: seq<Fixture>)
    ensures Flat(AllUndeclared(manifest, actual)) == [] <==>
      forall id :: Latest(actual, id).Some? ==> Latest(manifest, id).Some?
  {
    var ids, parts := Ids(actual), AllUndeclared(manifest, actual);
    FlatEmpty(parts);
    if Flat(parts) == [] {
      forall id | Latest(actual, id).Some?
        ensures Latest(manifest, id).Some?
      {
        IdsAreKeys(actual, id);
        var i :| 0 <= i < |ids| && ids[i] == id;
        assert parts[i] == [];
      }
    } else {
      var i :| 0 <= i < |parts| && parts[i] != [];
      assert ids[i] in ids;
      IdsAreKeys(actual, ids[i]);
    }
  }

  ghost predicate SameIds(manifest: seq<Fixture>, actual: seq<Fixture>) {
    forall id :: Latest(manifest, id).Some? <==> Latest(actual, id).Some?
  }

  ghost predicate AllCovered(manifest: seq<Fixture>, actual: seq<Fixture>, descriptors: map<string, Descriptor>) {
    forall id :: Covered(manifest, actual, descriptors, id)
  }

  /**
   Governance reports nothing exactly when the declared and the actual fixtures are the
   same and every changed fixture is covered by its descriptor.
   */
  lemma GovernanceExactly(manifest: seq<Fixture>, actual: seq<Fixture>, descriptors: map<string, Descriptor>)
    ensures Governance(manifest, actual, descriptors) == [] <==>
      SameIds(manifest, actual) && AllCovered(manifest, actual, descriptors)
  {
    var declared, undeclared := Flat(AllDeclared(manifest, actual)), Flat(AllUndeclared(manifest, actual));
    var covered := Flat(AllDescriptors(manifest, actual, descriptors));
    assert Governance(manifest, actual, descriptors) == [] <==> declared == [] && undeclared == [] && covered == [];
    assert declared == [] && undeclared == [] ==> SameIds(manifest, actual) by {
      DeclaredFindingsExactly(manifest, actual);
      UndeclaredFindingsExactly(manifest, actual);
    }
    assert SameIds(manifest, actual) ==> undeclared == [] by {
      UndeclaredFindingsExactly(manifest, actual);
    }
    if SameIds(manifest, actual) {
      assert declared == [] && covered == [] <==> AllCovered(manifest, actual, descriptors) by {
        DeclaredFindingsExactly(manifest, actual);
        DescriptorsExactly(manifest, actual, descriptors);
        AccountedAndCovered(manifest, actual, descriptors);
      }
    }
  }

  lemma AccountedAndCovered(manifest: seq<Fixture>, actual: seq<Fixture>, descriptors: map<string, Descriptor>)
    requires SameIds(manifest, actual)
    ensures AllCovered(manifest, actual, descriptors) <==>
      && (forall id :: Latest(manifest, id).Some? ==> Accounted(manifest, actual, id))
      && (forall id, d :: ChangedUnder(manifest, actual, id, d) ==> Covers(manifest, actual, descriptors, d))
  {
    if AllCovered(manifest, actual, descriptors) {
      forall id, d | ChangedUnder(manifest, actual, id, d)
        ensures Covers(manifest, actual, descriptors, d)
      {
        assert Covered(manifest, actual, descriptors, id);
      }
      forall id | Latest(manifest, id).Some?
        ensures Accounted(manifest, actual, id)
      {
        assert Covered(manifest, actual, descriptors, id);
      }
    } else {
      var id :| !Covered(manifest, actual, descriptors, id);
      var named := Latest(manifest, id).value.descriptorId;
      assert named.Some? ==> ChangedUnder(manifest, actual, id, named.value);
      assert named.None? ==> !Accounted(manifest, actual, id);
    }
  }

  lemma NamedIsUsed(manifest: seq<Fixture>, actual: seq<Fixture>, d: string)
    ensures d in NamedBy(manifest, actual, Ids(manifest)) <==> exists id :: ChangedUnder(manifest, actual, id, d)
  {
    NamedByHas(manifest, actual, Ids(manifest), d);
    forall id | ChangedUnder(manifest, actual, id, d)
      ensures id in Ids(manifest)
    {
      IdsAreKeys(manifest, id);
    }
  }

  lemma NamedIsCovered(manifest: seq<Fixture>, actual: seq<Fixture>, descriptors: map<string, Descriptor>, i: nat)
    requires i < |NamedBy(manifest, actual, Ids(manifest))|
    ensures AllDescriptors(manifest, actual, descriptors)[i] == [] <==>
      Covers(manifest, actual, descriptors, NamedBy(manifest, actual, Ids(manifest))[i])
  {
    var d := NamedBy(manifest, actual, Ids(manifest))[i];
    NamedIsUsed(manifest, actual, d);
    DescriptorFindingsExactly(manifest, actual, descriptors, d);
  }

  lemma DescriptorsExactly(manifest: seq<Fixture>, actual: seq<Fixture>, descriptors: map<string, Descriptor>)
    ensures Flat(AllDescriptors(manifest, actual, descriptors)) == [] <==>
      forall id, d :: ChangedUnder(manifest, actual, id, d) ==> Covers(manifest, actual, descriptors, d)
  {
    var named, parts := NamedBy(manifest, actual, Ids(manifest)), AllDescriptors(manifest, actual, descriptors);
    FlatEmpty(parts);
    if Flat(parts) == [] {
      forall id, d | ChangedUnder(manifest, actual, id, d)
        ensures Covers(manifest, actual, descriptors, d)
      {
        NamedIsUsed(manifest, actual, d);
        var i :| 0 <= i < |named| && named[i] == d;
        assert parts[i] == [];
        NamedIsCovered(manifest, actual, descriptors, i);
      }
    } else {
      var i :| 0 <= i < |parts| && parts[i] != [];
      NamedIsUsed(manifest, actual, named[i]);
      NamedIsCovered(manifest, actual, descriptors, i);
    }
  }
}
