/** What a harness package asks for, what a grant allows it, and which grant applies. */
module CapabilityGrant {
  import opened Wrappers
  import opened SortedLists
  import opened Versions

  datatype Kind = Tool | RequireApproval | ToolDefinition | PolicyEffect | PolicyLayer | RuntimeInvariantTool

  /** Six lists of names. */
  datatype Surface = Surface(
    tools: seq<string>, requireApproval: seq<string>, toolDefinitions: seq<string>,
    policyEffects: seq<string>, policyLayers: seq<string>, runtimeInvariantToolIds: seq<string>)
  {
    function Of(kind: Kind): seq<string> {
      match kind
      case Tool => tools
      case RequireApproval => requireApproval
      case ToolDefinition => toolDefinitions
      case PolicyEffect => policyEffects
      case PolicyLayer => policyLayers
      case RuntimeInvariantTool => runtimeInvariantToolIds
    }
  }

  datatype Grant = Grant(
    grantId: string, packageId: string, wellFormed: bool, versionPins: seq<string>,
    versionRange: Option<string>, allowed: Surface)

  function Normalize(less: TextOrder, s: Surface): Surface {
    Surface(SortedDistinct(less, s.tools), SortedDistinct(less, s.requireApproval),
            SortedDistinct(less, s.toolDefinitions), SortedDistinct(less, s.policyEffects),
            SortedDistinct(less, s.policyLayers), SortedDistinct(less, s.runtimeInvariantToolIds))
  }

  function Difference(requested: seq<string>, granted: seq<string>): (r: seq<string>)
    ensures forall x :: x in r <==> x in requested && x !in granted
  {
    if requested == [] then []
    else (if requested[0] in granted then [] else [requested[0]]) + Difference(requested[1..], granted)
  }

  function Outside(requested: Surface, granted: Surface): Surface {
    Surface(Difference(requested.tools, granted.tools), Difference(requested.requireApproval, granted.requireApproval),
            Difference(requested.toolDefinitions, granted.toolDefinitions),
            Difference(requested.policyEffects, granted.policyEffects),
            Difference(requested.policyLayers, granted.policyLayers),
            Difference(requested.runtimeInvariantToolIds, granted.runtimeInvariantToolIds))
  }

  datatype DeniedName = Denied(kind: Kind, name: string)

  function Names(kind: Kind, names: seq<string>): seq<DeniedName> {
    seq(|names|, i requires 0 <= i < |names| => Denied(kind, names[i]))
  }

  function DeniedNames(s: Surface): seq<DeniedName> {
    Names(Tool, s.tools) + Names(RequireApproval, s.requireApproval) + Names(ToolDefinition, s.toolDefinitions)
    + Names(PolicyEffect, s.policyEffects) + Names(PolicyLayer, s.policyLayers)
    + Names(RuntimeInvariantTool, s.runtimeInvariantToolIds)
  }

  datatype Evaluation = Evaluation(granted: bool, requested: Surface, allowed: Surface, overGrant: Surface, denied: seq<DeniedName>)

  /** `evaluateGrant` */
  function EvaluateGrant(less: TextOrder, requested: Surface, grant: Grant): Evaluation {
    var asked, allowed := Normalize(less, requested), Normalize(less, grant.allowed);
    var over := Normalize(less, Outside(asked, allowed));
    Evaluation(DeniedNames(over) == [], asked, allowed, over, DeniedNames(over))
  }

  predicate ContainedOf(a: Surface, b: Surface, kind: Kind) {
    forall x :: x in a.Of(kind) ==> x in b.Of(kind)
  }

  predicate Contained(a: Surface, b: Surface) {
    forall kind: Kind :: ContainedOf(a, b, kind)
  }

  lemma NormalizeHas(less: TextOrder, s: Surface, kind: Kind)
    ensures forall x :: x in Normalize(less, s).Of(kind) <==> x in s.Of(kind)
  {
    SortedDistinctHas(less, s.Of(kind));
  }

  lemma OverGrantHas(less: TextOrder, requested: Surface, grant: Grant, kind: Kind)
    ensures forall x :: x in EvaluateGrant(less, requested, grant).overGrant.Of(kind) <==>
      x in requested.Of(kind) && x !in grant.allowed.Of(kind)
  {
    var asked, allowed := Normalize(less, requested), Normalize(less, grant.allowed);
    NormalizeHas(less, requested, kind);
    NormalizeHas(less, grant.allowed, kind);
    NormalizeHas(less, Outside(asked, allowed), kind);
  }

  predicate NoNames(s: Surface) {
    forall kind: Kind :: s.Of(kind) == []
  }

  lemma NoNamesExactly(s: Surface)
    ensures DeniedNames(s) == [] <==> NoNames(s)
  {
    if DeniedNames(s) == [] {
      forall kind: Kind
        ensures s.Of(kind) == []
      {
        assert |Names(kind, s.Of(kind))| <= |DeniedNames(s)|;
      }
    } else {
      assert s.Of(Tool) != [] || s.Of(RequireApproval) != [] || s.Of(ToolDefinition) != []
          || s.Of(PolicyEffect) != [] || s.Of(PolicyLayer) != [] || s.Of(RuntimeInvariantTool) != [];
    }
  }

  lemma NoOverGrantExactly(less: TextOrder, requested: Surface, grant: Grant, kind: Kind)
    ensures EvaluateGrant(less, requested, grant).overGrant.Of(kind) == [] <==> ContainedOf(requested, grant.allowed, kind)
  {
    var over := EvaluateGrant(less, requested, grant).overGrant.Of(kind);
    OverGrantHas(less, requested, grant, kind);
    if over != [] {
      assert over[0] in over;
    }
  }

  lemma GrantedIsNoOverGrant(less: TextOrder, requested: Surface, grant: Grant)
    ensures EvaluateGrant(less, requested, grant).granted <==> NoNames(EvaluateGrant(less, requested, grant).overGrant)
  {
    NoNamesExactly(EvaluateGrant(less, requested, grant).overGrant);
  }

  lemma NoNamesIsContained(over: Surface, requested: Surface, allowed: Surface)
    requires forall kind: Kind :: over.Of(kind) == [] <==> ContainedOf(requested, allowed, kind)
    ensures NoNames(over) <==> Contained(requested, allowed)
  {
    if NoNames(over) {
      forall kind: Kind
        ensures ContainedOf(requested, allowed, kind)
      {
        assert over.Of(kind) == [];
      }
    } else {
      var kind: Kind :| over.Of(kind) != [];
      assert !ContainedOf(requested, allowed, kind);
    }
  }

  /** A package is granted exactly when each of its six lists is contained in the grant's. */
  lemma GrantedExactly(less: TextOrder, requested: Surface, grant: Grant)
    ensures EvaluateGrant(less, requested, grant).granted <==> Contained(requested, grant.allowed)
  {
    var over := EvaluateGrant(less, requested, grant).overGrant;
    GrantedIsNoOverGrant(less, requested, grant);
    forall kind: Kind
      ensures over.Of(kind) == [] <==> ContainedOf(requested, grant.allowed, kind)
    {
      NoOverGrantExactly(less, requested, grant, kind);
    }
    NoNamesIsContained(over, requested, grant.allowed);
  }

  /** The requested names that the grant allows. */
  function Permitted(asked: seq<string>, over: seq<string>): seq<string> {
    Difference(asked, over)
  }

  /** The over-grant and the permitted part divide the normalized request between them. */
  lemma OverGrantPartitions(less: TextOrder, requested: Surface, grant: Grant, kind: Kind)
    ensures var e := EvaluateGrant(less, requested, grant);
      var asked, over := e.requested.Of(kind), e.overGrant.Of(kind);
      && multiset(asked) == multiset(over) + multiset(Permitted(asked, over))
      && (forall x :: x in Permitted(asked, over) ==> x in grant.allowed.Of(kind))
      && (forall x :: x in over ==> x !in grant.allowed.Of(kind))
  {
    var e := EvaluateGrant(less, requested, grant);
    NormalizeHas(less, requested, kind);
    OverGrantHas(less, requested, grant, kind);
    Divide(less, requested.Of(kind), Outside(e.requested, e.allowed).Of(kind));
  }

  lemma Divide(less: TextOrder, requested: seq<string>, outside: seq<string>)
    requires forall x :: x in outside ==> x in requested
    ensures var asked, over := SortedDistinct(less, requested), SortedDistinct(less, outside);
      multiset(asked) == multiset(over) + multiset(Permitted(asked, over))
  {
    var asked, over := SortedDistinct(less, requested), SortedDistinct(less, outside);
    SortedDistinctHas(less, requested);
    SortedDistinctHas(less, outside);
    SortedDistinctOnce(less, requested);
    SortedDistinctOnce(less, outside);
    forall x
      ensures multiset(asked)[x] == multiset(over)[x] + multiset(Permitted(asked, over))[x]
    {
      DifferenceCount(asked, over, x);
      assert x in asked <==> x in multiset(asked);
      assert x in over <==> x in multiset(over);
    }
  }

  lemma SortedDistinctOnce(less: TextOrder, values: seq<string>)
    ensures forall x :: multiset(SortedDistinct(less, values))[x] <= 1
  {
    forall x
      ensures multiset(SortedDistinct(less, values))[x] <= 1
    {
      AtMostOnce(Distinct(values), x);
    }
  }

  lemma {:induction false} DifferenceCount(a: seq<string>, b: seq<string>, x: string)
    ensures multiset(Difference(a, b))[x] == if x in b then 0 else multiset(a)[x]
  {
    if a != [] {
      assert a == [a[0]] + a[1..];
      DifferenceCount(a[1..], b, x);
    }
  }

  lemma ContainedChains(a: Surface, b: Surface, c: Surface)
    requires Contained(a, b) && Contained(b, c)
    ensures Contained(a, c)
  {
    forall kind: Kind
      ensures ContainedOf(a, c, kind)
    {
      assert ContainedOf(a, b, kind) && ContainedOf(b, c, kind);
    }
  }

  /** Enlarging a grant never revokes what it granted. */
  lemma GrantsAreMonotone(less: TextOrder, requested: Surface, grant: Grant, larger: Grant)
    requires EvaluateGrant(less, requested, grant).granted && Contained(grant.allowed, larger.allowed)
    ensures EvaluateGrant(less, requested, larger).granted
  {
    GrantedExactly(less, requested, grant);
    ContainedChains(requested, grant.allowed, larger.allowed);
    GrantedExactly(less, requested, larger);
  }

  // -------------------------------------------------------------- which grant applies

  /** `grantAuthorizesVersion` */
  predicate Authorizes(grant: Grant, version: string) {
    version in grant.versionPins || (grant.versionRange.Some? && Satisfies(version, grant.versionRange.value))
  }

  function Before(less: TextOrder): (Grant, Grant) -> bool {
    (a: Grant, b: Grant) => less(a.grantId, b.grantId)
  }

  function ForPackage(grants: seq<Grant>, packageId: string): seq<Grant> {
    if grants == [] then []
    else
      var last := grants[|grants| - 1];
      ForPackage(grants[..|grants| - 1], packageId) + (if last.packageId == packageId then [last] else [])
  }

  datatype Malformed = MalformedGrant

  function FirstAuthorizing(grants: seq<Grant>, version: string): Result<Option<Grant>, Malformed> {
    if grants == [] then Ok(None)
    else if !grants[0].wellFormed then Err(MalformedGrant)
    else if Authorizes(grants[0], version) then Ok(Some(grants[0]))
    else FirstAuthorizing(grants[1..], version)
  }

  /** What a registry answers: the grants of the package in the order of their ids, the first that authorizes. */
  function ResolvedGrant(less: TextOrder, grants: seq<Grant>, packageId: string, version: string)
    : Result<Option<Grant>, Malformed>
  {
    FirstAuthorizing(Sort(Before(less), ForPackage(grants, packageId)), version)
  }

  lemma BeforeIsStrict(less: TextOrder)
    requires StrictTotal(less)
    ensures StrictOrder(Before(less))
  {
    var before := Before(less);
    forall x: Grant, y: Grant, z: Grant
      ensures before(x, y) ==> !before(y, x)
      ensures before(x, y) && before(y, z) ==> before(x, z)
      ensures before(x, z) ==> before(x, y) || before(y, z)
    {
      TextOrderOfThree(less, x.grantId, y.grantId, z.grantId);
    }
  }

  lemma TextOrderOfThree(less: TextOrder, x: string, y: string, z: string)
    requires StrictTotal(less)
    ensures less(x, y) ==> !less(y, x)
    ensures less(x, y) && less(y, z) ==> less(x, z)
    ensures less(x, z) ==> less(x, y) || less(y, z)
  {
  }

  lemma {:induction false} ForPackageHas(grants: seq<Grant>, packageId: string)
    ensures forall g :: g in ForPackage(grants, packageId) <==> g in grants && g.packageId == packageId
  {
    if grants != [] {
      var earlier := grants[..|grants| - 1];
      assert grants == earlier + [grants[|grants| - 1]];
      ForPackageHas(earlier, packageId);
    }
  }

  function ListOf(byPackage: map<string, seq<Grant>>, packageId: string): seq<Grant> {
    if packageId in byPackage then byPackage[packageId] else []
  }

  /** The lists hold the given grants, each sorted. */
  ghost predicate Indexed(less: TextOrder, given: seq<Grant>, byPackage: map<string, seq<Grant>>) {
    forall id :: ListOf(byPackage, id) == Sort(Before(less), ForPackage(given, id))
  }

  /** `RegistryGrantSource`: grants by package, each list kept in the order of grant ids. */
  class RegistryGrantSource {
    const less: TextOrder
    ghost const given: seq<Grant>
    var grantsByPackageId: map<string, seq<Grant>>

    ghost predicate Valid()
      reads this
    {
      StrictTotal(less) && Indexed(less, given, grantsByPackageId)
    }

    /** Each grant is pushed onto its package's list, which is then sorted again. */
    constructor (less: TextOrder, grants: seq<Grant>)
      requires StrictTotal(less)
      ensures this.less == less && given == grants && Valid()
    {
      var byPackage: map<string, seq<Grant>> := map[];
      var i := 0;
      while i < |grants|
        invariant 0 <= i <= |grants|
        invariant Indexed(less, grants[..i], byPackage)
      {
        var packageGrants := Sort(Before(less), ListOf(byPackage, grants[i].packageId) + [grants[i]]);
        PushAndSort(less, grants, i, byPackage);
        byPackage := byPackage[grants[i].packageId := packageGrants];
        i := i + 1;
      }
      assert grants[..i] == grants;
      this.less := less;
      given := grants;
      grantsByPackageId := byPackage;
    }

    method ResolveGrant(packageId: string, version: string) returns (r: Result<Option<Grant>, Malformed>)
      requires Valid()
      ensures r == ResolvedGrant(less, given, packageId, version)
      ensures r == Ok(None) <==> NothingStops(given, packageId, version)
      ensures r != Ok(None) ==> exists g :: IsFirstStop(less, given, packageId, version, g) && r == OutcomeOf(g)
    {
      ResolvedGrantIs(less, given, packageId, version);
      var packageGrants := ListOf(grantsByPackageId, packageId);
      var i := 0;
      while i < |packageGrants|
        invariant 0 <= i <= |packageGrants|
        invariant FirstAuthorizing(packageGrants, version) == FirstAuthorizing(packageGrants[i..], version)
      {
        if !packageGrants[i].wellFormed {
          return Err(MalformedGrant);
        }
        if Authorizes(packageGrants[i], version) {
          return Ok(Some(packageGrants[i]));
        }
        i := i + 1;
      }
      return Ok(None);
    }
  }

  /** Sorting after every push gives what sorting once at the end would give. */
  lemma PushAndSort(less: TextOrder, grants: seq<Grant>, i: nat, byPackage: map<string, seq<Grant>>)
    requires StrictTotal(less) && i < |grants|
    requires Indexed(less, grants[..i], byPackage)
    ensures var next := byPackage[grants[i].packageId := Sort(Before(less), ListOf(byPackage, grants[i].packageId) + [grants[i]])];
      Indexed(less, grants[..i + 1], next)
  {
    var mine := grants[i].packageId;
    var list := Sort(Before(less), ListOf(byPackage, mine) + [grants[i]]);
    var next := byPackage[mine := list];
    forall id
      ensures ListOf(next, id) == Sort(Before(less), ForPackage(grants[..i + 1], id))
    {
      ListAfterSet(byPackage, mine, list, id);
      ListOfPushed(less, grants, i, byPackage, id);
    }
  }

  lemma ListAfterSet(byPackage: map<string, seq<Grant>>, mine: string, list: seq<Grant>, id: string)
    ensures ListOf(byPackage[mine := list], id) == if id == mine then list else ListOf(byPackage, id)
  {
  }

  lemma ListOfPushed(less: TextOrder, grants: seq<Grant>, i: nat, byPackage: map<string, seq<Grant>>, id: string)
    requires StrictTotal(less) && i < |grants| && ListOf(byPackage, id) == Sort(Before(less), ForPackage(grants[..i], id))
    ensures Sort(Before(less), ForPackage(grants[..i + 1], id)) ==
      if id == grants[i].packageId then Sort(Before(less), ListOf(byPackage, id) + [grants[i]]) else ListOf(byPackage, id)
  {
    if id == grants[i].packageId {
      SortAgain(less, grants, i);
    } else {
      OtherPackage(grants, i, id);
    }
  }

  lemma OtherPackage(grants: seq<Grant>, i: nat, id: string)
    requires i < |grants| && grants[i].packageId != id
    ensures ForPackage(grants[..i + 1], id) == ForPackage(grants[..i], id)
  {
    assert grants[..i + 1][..i] == grants[..i];
    assert ForPackage(grants[..i], id) + [] == ForPackage(grants[..i], id);
  }

  lemma SortAgain(less: TextOrder, grants: seq<Grant>, i: nat)
    requires StrictTotal(less) && i < |grants|
    ensures var id := grants[i].packageId;
      Sort(Before(less), Sort(Before(less), ForPackage(grants[..i], id)) + [grants[i]]) ==
        Sort(Before(less), ForPackage(grants[..i + 1], id))
  {
    var id := grants[i].packageId;
    assert grants[..i + 1][..i] == grants[..i];
    BeforeIsStrict(less);
    SortAfterPush(Before(less), ForPackage(grants[..i], id), grants[i]);
  }

  // ------------------------------------------------------- when listing order matters

  /** The search ends at this grant: it is malformed, or it authorizes the version. */
  predicate Stops(g: Grant, version: string) {
    !g.wellFormed || Authorizes(g, version)
  }

  function OutcomeOf(g: Grant): Result<Option<Grant>, Malformed> {
    if g.wellFormed then Ok(Some(g)) else Err(MalformedGrant)
  }

  /** The search ends in this grant's class: no id before its own has a grant that ends it. */
  predicate IsFirstStop(less: TextOrder, grants: seq<Grant>, packageId: string, version: string, g: Grant) {
    && g in grants && g.packageId == packageId && Stops(g, version)
    && forall h :: h in grants && h.packageId == packageId && Stops(h, version) ==> !less(h.grantId, g.grantId)
  }

  predicate NothingStops(grants: seq<Grant>, packageId: string, version: string) {
    forall g :: g in grants && g.packageId == packageId ==> !Stops(g, version)
  }

  lemma {:induction false} SearchEnds(less: TextOrder, sorted: seq<Grant>, version: string)
    returns (g: Option<Grant>)
    requires Sorted(Before(less), sorted) && forall id :: !less(id, id)
    ensures g.None? ==> FirstAuthorizing(sorted, version) == Ok(None) && forall h :: h in sorted ==> !Stops(h, version)
    ensures g.Some? ==>
      && g.value in sorted && Stops(g.value, version) && FirstAuthorizing(sorted, version) == OutcomeOf(g.value)
      && forall h :: h in sorted && Stops(h, version) ==> !less(h.grantId, g.value.grantId)
  {
    if sorted == [] {
      g := None;
    } else if Stops(sorted[0], version) {
      g := Some(sorted[0]);
      forall h | h in sorted
        ensures h == sorted[0] || !less(h.grantId, sorted[0].grantId)
      {
        var i :| 0 <= i < |sorted| && sorted[i] == h;
        assert i == 0 || !Before(less)(sorted[i], sorted[0]);
      }
    } else {
      assert sorted == [sorted[0]] + sorted[1..];
      g := SearchEnds(less, sorted[1..], version);
    }
  }

  lemma {:induction false} ForPackageMultiset(grants: seq<Grant>, packageId: string, g: Grant)
    ensures multiset(ForPackage(grants, packageId))[g] == if g.packageId == packageId then multiset(grants)[g] else 0
  {
    if grants != [] {
      var earlier := grants[..|grants| - 1];
      assert grants == earlier + [grants[|grants| - 1]];
      ForPackageMultiset(earlier, packageId, g);
    }
  }

  /**
   What a registry answers: nothing exactly when no grant of the package ends the search, and
   else the outcome of a grant that ends it under the first id that has one.
   */
  lemma ResolvedGrantIs(less: TextOrder, grants: seq<Grant>, packageId: string, version: string)
    requires StrictTotal(less)
    ensures var r := ResolvedGrant(less, grants, packageId, version);
      && (r == Ok(None) <==> NothingStops(grants, packageId, version))
      && (r != Ok(None) ==> exists g :: IsFirstStop(less, grants, packageId, version, g) && r == OutcomeOf(g))
  {
    var mine := ForPackage(grants, packageId);
    var sorted := Sort(Before(less), mine);
    BeforeIsStrict(less);
    SortSorts(Before(less), mine);
    InMultiset(sorted, mine);
    ForPackageHas(grants, packageId);
    var g := SearchEnds(less, sorted, version);
    if g.Some? {
      assert IsFirstStop(less, grants, packageId, version, g.value);
    }
  }

  /** The grants in which the search can end have one outcome. */
  ghost predicate FirstStopsAgree(less: TextOrder, grants: seq<Grant>, packageId: string, version: string) {
    forall g, h ::
      IsFirstStop(less, grants, packageId, version, g) && IsFirstStop(less, grants, packageId, version, h) ==>
        OutcomeOf(g) == OutcomeOf(h)
  }

  ghost predicate OrderDoesNotMatter(less: TextOrder, grants: seq<Grant>, packageId: string, version: string) {
    forall other :: multiset(other) == multiset(grants) ==>
      ResolvedGrant(less, other, packageId, version) == ResolvedGrant(less, grants, packageId, version)
  }

  /** Listed first, a grant in which the search can end is the one in which it ends. */
  lemma {:induction false} SearchMeetsInserted(less: TextOrder, g: Grant, sorted: seq<Grant>, version: string)
    requires Stops(g, version)
    requires forall h :: h in sorted && Stops(h, version) ==> !less(h.grantId, g.grantId)
    ensures FirstAuthorizing(Insert(Before(less), g, sorted), version) == OutcomeOf(g)
  {
    if sorted != [] {
      var first, rest := sorted[0], sorted[1..];
      assert sorted == [first] + rest;
      InsertInto(Before(less), g, first, rest);
      if Before(less)(first, g) {
        assert first in sorted;
        SearchMeetsInserted(less, g, rest, version);
        assert ([first] + Insert(Before(less), g, rest))[1..] == Insert(Before(less), g, rest);
      }
    }
  }

  lemma {:induction false} ForPackageFirst(g: Grant, rest: seq<Grant>)
    ensures ForPackage([g] + rest, g.packageId) == [g] + ForPackage(rest, g.packageId)
  {
    if rest == [] {
      assert [g] + rest == [g];
      assert ForPackage([g][..0], g.packageId) == [];
    } else {
      var n := |rest| - 1;
      assert ([g] + rest)[..|[g] + rest| - 1] == [g] + rest[..n];
      ForPackageFirst(g, rest[..n]);
    }
  }

  function ListedFirst(grants: seq<Grant>, i: nat): seq<Grant>
    requires i < |grants|
  {
    [grants[i]] + (grants[..i] + grants[i + 1..])
  }

  lemma ListedFirstIsPermutation(grants: seq<Grant>, i: nat)
    requires i < |grants|
    ensures multiset(ListedFirst(grants, i)) == multiset(grants)
  {
    assert grants == grants[..i] + ([grants[i]] + grants[i + 1..]);
  }

  lemma ListedFirstResolves(less: TextOrder, grants: seq<Grant>, packageId: string, version: string, i: nat)
    requires StrictTotal(less) && i < |grants| && IsFirstStop(less, grants, packageId, version, grants[i])
    ensures ResolvedGrant(less, ListedFirst(grants, i), packageId, version) == OutcomeOf(grants[i])
  {
    var g, rest := grants[i], grants[..i] + grants[i + 1..];
    var mine := ForPackage(rest, packageId);
    ForPackageFirst(g, rest);
    ForPackageHas(rest, packageId);
    assert ([g] + mine)[1..] == mine;
    InMultiset(Sort(Before(less), mine), mine);
    SearchMeetsInserted(less, g, Sort(Before(less), mine), version);
  }

  /**
   The order in which a registry lists its grants does not change what it answers exactly
   when the grants in which the search can end have one outcome, as they have when no two
   grants of a package share an id.
   */
  lemma ResolutionIgnoresOrder(less: TextOrder, grants: seq<Grant>, packageId: string, version: string)
    requires StrictTotal(less)
    ensures OrderDoesNotMatter(less, grants, packageId, version) <==> FirstStopsAgree(less, grants, packageId, version)
  {
    if FirstStopsAgree(less, grants, packageId, version) {
      forall other | multiset(other) == multiset(grants)
        ensures ResolvedGrant(less, other, packageId, version) == ResolvedGrant(less, grants, packageId, version)
      {
        SameAnswer(less, grants, other, packageId, version);
      }
    } else {
      var g, h :| IsFirstStop(less, grants, packageId, version, g) && IsFirstStop(less, grants, packageId, version, h)
        && OutcomeOf(g) != OutcomeOf(h);
      var i :| 0 <= i < |grants| && grants[i] == g;
      var j :| 0 <= j < |grants| && grants[j] == h;
      ListedFirstIsPermutation(grants, i);
      ListedFirstIsPermutation(grants, j);
      ListedFirstResolves(less, grants, packageId, version, i);
      ListedFirstResolves(less, grants, packageId, version, j);
    }
  }

  lemma SameAnswer(less: TextOrder, grants: seq<Grant>, other: seq<Grant>, packageId: string, version: string)
    requires StrictTotal(less) && multiset(other) == multiset(grants)
    requires FirstStopsAgree(less, grants, packageId, version)
    ensures ResolvedGrant(less, other, packageId, version) == ResolvedGrant(less, grants, packageId, version)
  {
    InMultiset(other, grants);
    ResolvedGrantIs(less, grants, packageId, version);
    ResolvedGrantIs(less, other, packageId, version);
    if !NothingStops(grants, packageId, version) {
      var g :| IsFirstStop(less, grants, packageId, version, g)
        && ResolvedGrant(less, grants, packageId, version) == OutcomeOf(g);
      var h :| IsFirstStop(less, other, packageId, version, h)
        && ResolvedGrant(less, other, packageId, version) == OutcomeOf(h);
      assert IsFirstStop(less, grants, packageId, version, h);
    }
  }

  /** Grants of one package have different ids. */
  predicate DistinctIds(grants: seq<Grant>) {
    forall a, b :: a in grants && b in grants && a.packageId == b.packageId && a.grantId == b.grantId ==> a == b
  }

  lemma DistinctIdsAgree(less: TextOrder, grants: seq<Grant>, packageId: string, version: string)
    requires StrictTotal(less) && DistinctIds(grants)
    ensures FirstStopsAgree(less, grants, packageId, version)
  {
    forall g, h | IsFirstStop(less, grants, packageId, version, g) && IsFirstStop(less, grants, packageId, version, h)
      ensures g == h
    {
      assert g.grantId == h.grantId || less(g.grantId, h.grantId) || less(h.grantId, g.grantId);
    }
  }

  /** Two grants with one id that authorize the same version: whichever is listed first is resolved. */
  lemma TiedGrantsDiffer(less: TextOrder, g: Grant, h: Grant, version: string)
    requires StrictTotal(less) && g != h && g.packageId == h.packageId && g.grantId == h.grantId
    requires g.wellFormed && h.wellFormed && Authorizes(g, version) && Authorizes(h, version)
    ensures ResolvedGrant(less, [g, h], g.packageId, version) == Ok(Some(g))
    ensures ResolvedGrant(less, [h, g], g.packageId, version) == Ok(Some(h))
  {
    ListedFirstResolves(less, [g, h], g.packageId, version, 0);
    ListedFirstResolves(less, [h, g], g.packageId, version, 0);
    assert ListedFirst([g, h], 0) == [g, h] && ListedFirst([h, g], 0) == [h, g];
  }
}
