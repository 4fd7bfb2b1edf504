/** Resolving a harness package's declared dependencies to reviewed pins. */
module DependencyPins {
  import opened Wrappers
  import opened Separators
  import opened SortedLists
  import opened Versions

  datatype Declaration = Declaration(
    name: string, versionRange: string, pinnedHash: Option<string>, trustTier: Option<string>)

  datatype Pin = Pin(name: string, version: string, contentHash: string, trustTier: Option<string>)

  datatype Reason =
    | DependencyConflict | DependencyUnpinned | DependencyRangeNotPinned
    | DependencyUnresolved | TrustTierViolation | HashMismatch

  datatype Resolution = Resolution(declarations: seq<Declaration>, resolved: seq<Pin>)

  predicate DeclarationBefore(less: TextOrder, a: Declaration, b: Declaration) {
    if a.name != b.name then less(a.name, b.name)
    else if a.versionRange != b.versionRange then less(a.versionRange, b.versionRange)
    else less(a.pinnedHash.GetOr(""), b.pinnedHash.GetOr(""))
  }

  predicate PinBefore(less: TextOrder, a: Pin, b: Pin) {
    if a.name != b.name then less(a.name, b.name)
    else if a.contentHash != b.contentHash then less(a.contentHash, b.contentHash)
    else less(a.version, b.version)
  }

  function DeclarationOrder(less: TextOrder): (Declaration, Declaration) -> bool {
    (a: Declaration, b: Declaration) => DeclarationBefore(less, a, b)
  }

  function PinOrder(less: TextOrder): (Pin, Pin) -> bool {
    (a: Pin, b: Pin) => PinBefore(less, a, b)
  }

  function CanonicalDeclarations(less: TextOrder, declarations: seq<Declaration>): seq<Declaration> {
    Sort(DeclarationOrder(less), declarations)
  }

  /** `canonicalizeResolvedDependencies` */
  function CanonicalPins(less: TextOrder, pins: seq<Pin>): seq<Pin> {
    Sort(PinOrder(less), pins)
  }

  function HashSegment(p: Pin): string {
    "dependency" + [NUL] + Join(NUL, p.name, p.version, p.contentHash)
  }

  function Segments(pins: seq<Pin>): seq<string> {
    seq(|pins|, i requires 0 <= i < |pins| => HashSegment(pins[i]))
  }

  /** `canonicalDependencyHashSegments` */
  function HashSegments(less: TextOrder, pins: seq<Pin>): seq<string> {
    Segments(CanonicalPins(less, pins))
  }

  // ------------------------------------------------------------------ declarations

  /** The last declaration of a name. */
  function LastDeclared(declarations: seq<Declaration>, name: string): Option<Declaration> {
    if declarations == [] then None
    else
      var last := declarations[|declarations| - 1];
      if last.name == name then Some(last) else LastDeclared(declarations[..|declarations| - 1], name)
  }

  function DeclarationFault(seen: Option<Declaration>, d: Declaration, strict: bool): Option<Reason> {
    if seen.Some? && seen.value != d then Some(DependencyConflict)
    else if strict && d.pinnedHash.None? then Some(DependencyUnpinned)
    else if strict && !IsExactRange(d.versionRange) then Some(DependencyRangeNotPinned)
    else None
  }

  /** What `validateDeclarationsFailClosed` throws, if anything. */
  function DeclarationsFault(declarations: seq<Declaration>, strict: bool): Option<Reason> {
    if declarations == [] then None
    else
      var earlier, last := declarations[..|declarations| - 1], declarations[|declarations| - 1];
      var fault := DeclarationsFault(earlier, strict);
      if fault.Some? then fault else DeclarationFault(LastDeclared(earlier, last.name), last, strict)
  }

  /** The map holds the last declaration of every name. */
  ghost predicate HoldsLast(seen: map<string, Declaration>, declarations: seq<Declaration>) {
    forall name :: LastDeclared(declarations, name) == if name in seen then Some(seen[name]) else None
  }

  lemma HoldsNext(seen: map<string, Declaration>, declarations: seq<Declaration>, i: nat)
    requires i < |declarations| && HoldsLast(seen, declarations[..i])
    ensures HoldsLast(seen[declarations[i].name := declarations[i]], declarations[..i + 1])
  {
    assert declarations[..i + 1][..i] == declarations[..i];
  }

  /** `validateDeclarationsFailClosed` */
  method ValidateDeclarations(declarations: seq<Declaration>, strict: bool) returns (fault: Option<Reason>)
    ensures fault == DeclarationsFault(declarations, strict)
  {
    var seen: map<string, Declaration> := map[];
    var i := 0;
    while i < |declarations|
      invariant 0 <= i <= |declarations|
      invariant DeclarationsFault(declarations[..i], strict).None? && HoldsLast(seen, declarations[..i])
    {
      var d := declarations[i];
      assert declarations[..i + 1][..i] == declarations[..i];
      FaultStays(declarations, strict, i + 1);
      HoldsNext(seen, declarations, i);
      assert LastDeclared(declarations[..i], d.name) == if d.name in seen then Some(seen[d.name]) else None;
      if d.name in seen && seen[d.name] != d {
        return Some(DependencyConflict);
      }
      seen := seen[d.name := d];
      if strict && d.pinnedHash.None? {
        return Some(DependencyUnpinned);
      }
      if strict && !IsExactRange(d.versionRange) {
        return Some(DependencyRangeNotPinned);
      }
      i := i + 1;
    }
    assert declarations[..i] == declarations;
    return None;
  }

  lemma {:induction false} FaultStays(declarations: seq<Declaration>, strict: bool, i: nat)
    requires i <= |declarations|
    ensures DeclarationsFault(declarations[..i], strict).Some? ==>
      DeclarationsFault(declarations, strict) == DeclarationsFault(declarations[..i], strict)
    decreases |declarations| - i
  {
    if i == |declarations| {
      assert declarations[..i] == declarations;
    } else {
      assert declarations[..i + 1][..i] == declarations[..i];
      FaultStays(declarations, strict, i + 1);
    }
  }

  /** Declarations of one name agree, and in strict mode each pins one version and its hash. */
  predicate Agree(declarations: seq<Declaration>, strict: bool) {
    && (forall a, b :: a in declarations && b in declarations && a.name == b.name ==> a == b)
    && (strict ==> forall a :: a in declarations ==> a.pinnedHash.Some? && IsExactRange(a.versionRange))
  }

  lemma {:induction false} LastDeclaredIs(declarations: seq<Declaration>, name: string)
    ensures LastDeclared(declarations, name).None? <==> forall a :: a in declarations ==> a.name != name
    ensures LastDeclared(declarations, name).Some? ==>
      LastDeclared(declarations, name).value in declarations && LastDeclared(declarations, name).value.name == name
  {
    if declarations != [] {
      var earlier, last := declarations[..|declarations| - 1], declarations[|declarations| - 1];
      assert declarations == earlier + [last];
      LastDeclaredIs(earlier, name);
    }
  }

  /** Declarations are accepted exactly when they agree. */
  lemma {:induction false} AcceptedExactly(declarations: seq<Declaration>, strict: bool)
    ensures DeclarationsFault(declarations, strict).None? <==> Agree(declarations, strict)
  {
    if declarations != [] {
      var earlier, last := declarations[..|declarations| - 1], declarations[|declarations| - 1];
      assert declarations == earlier + [last];
      AcceptedExactly(earlier, strict);
      LastDeclaredIs(earlier, last.name);
    }
  }

  // ------------------------------------------------------------------------- pins

  function LastPin(pins: seq<Pin>, name: string): Option<Pin> {
    if pins == [] then None
    else
      var last := pins[|pins| - 1];
      if last.name == name then Some(last) else LastPin(pins[..|pins| - 1], name)
  }

  /** The resolver returned different pins for one name. */
  predicate Conflicting(pins: seq<Pin>) {
    exists a, b :: a in pins && b in pins && a.name == b.name && a != b
  }

  function RequiredTier(d: Declaration, packageTier: Option<string>): Option<string> {
    if d.trustTier.Some? then d.trustTier else packageTier
  }

  function PinFor(d: Declaration, pins: seq<Pin>, packageTier: Option<string>): Result<Pin, Reason> {
    match LastPin(pins, d.name)
    case None => Err(DependencyUnresolved)
    case Some(pin) =>
      var tier := RequiredTier(d, packageTier);
      if tier.Some? && pin.trustTier != tier then Err(TrustTierViolation)
      else if d.pinnedHash.Some? && d.pinnedHash.value != pin.contentHash then Err(HashMismatch)
      else Ok(pin)
  }

  function PinsFor(declarations: seq<Declaration>, pins: seq<Pin>, packageTier: Option<string>): Result<seq<Pin>, Reason> {
    if declarations == [] then Ok([])
    else
      var earlier :- PinsFor(declarations[..|declarations| - 1], pins, packageTier);
      var last :- PinFor(declarations[|declarations| - 1], pins, packageTier);
      Ok(earlier + [last])
  }

  /** `verifyResolvedPins` */
  function VerifyPins(less: TextOrder, declarations: seq<Declaration>, pins: seq<Pin>, packageTier: Option<string>)
    : Result<Resolution, Reason>
  {
    if Conflicting(pins) then Err(DependencyConflict)
    else
      var resolved :- PinsFor(declarations, pins, packageTier);
      Ok(Resolution(CanonicalDeclarations(less, declarations), CanonicalPins(less, resolved)))
  }

  method CollectPins(pins: seq<Pin>) returns (byName: Option<map<string, Pin>>)
    ensures byName.None? <==> Conflicting(pins)
    ensures byName.Some? ==> forall name ::
      LastPin(pins, name) == if name in byName.value then Some(byName.value[name]) else None
  {
    var collected: map<string, Pin> := map[];
    var i := 0;
    while i < |pins|
      invariant 0 <= i <= |pins|
      invariant !Conflicting(pins[..i])
      invariant forall name :: LastPin(pins[..i], name) == if name in collected then Some(collected[name]) else None
    {
      var pin := pins[i];
      LastPinIs(pins[..i], pin.name);
      assert pins[..i + 1] == pins[..i] + [pin] && pins[..i + 1][..i] == pins[..i];
      if pin.name in collected && collected[pin.name] != pin {
        assert collected[pin.name] in pins && pin in pins;
        return None;
      }
      NoNewConflict(pins[..i], pin);
      collected := collected[pin.name := pin];
      i := i + 1;
    }
    assert pins[..i] == pins;
    return Some(collected);
  }

  lemma NoNewConflict(pins: seq<Pin>, pin: Pin)
    requires !Conflicting(pins) && (LastPin(pins, pin.name).None? || LastPin(pins, pin.name) == Some(pin))
    ensures !Conflicting(pins + [pin])
  {
    LastPinIs(pins, pin.name);
  }

  lemma {:induction false} LastPinIs(pins: seq<Pin>, name: string)
    ensures LastPin(pins, name).None? <==> forall a :: a in pins ==> a.name != name
    ensures LastPin(pins, name).Some? ==> LastPin(pins, name).value in pins && LastPin(pins, name).value.name == name
  {
    if pins != [] {
      var earlier, last := pins[..|pins| - 1], pins[|pins| - 1];
      assert pins == earlier + [last];
      LastPinIs(earlier, name);
    }
  }

  /** `verifyResolvedPins`, over a map of pins by name. */
  method VerifyResolvedPins(less: TextOrder, declarations: seq<Declaration>, pins: seq<Pin>, packageTier: Option<string>)
    returns (r: Result<Resolution, Reason>)
    ensures r == VerifyPins(less, declarations, pins, packageTier)
  {
    var collected := CollectPins(pins);
    if collected.None? {
      return Err(DependencyConflict);
    }
    var byName, resolved := collected.value, [];
    var i := 0;
    while i < |declarations|
      invariant 0 <= i <= |declarations|
      invariant PinsFor(declarations[..i], pins, packageTier) == Ok(resolved)
    {
      var d := declarations[i];
      assert declarations[..i + 1][..i] == declarations[..i];
      PinsFaultStays(declarations, pins, packageTier, i + 1);
      if d.name !in byName {
        return Err(DependencyUnresolved);
      }
      var tier := RequiredTier(d, packageTier);
      if tier.Some? && byName[d.name].trustTier != tier {
        return Err(TrustTierViolation);
      }
      if d.pinnedHash.Some? && d.pinnedHash.value != byName[d.name].contentHash {
        return Err(HashMismatch);
      }
      resolved := resolved + [byName[d.name]];
      i := i + 1;
    }
    assert declarations[..i] == declarations;
    return Ok(Resolution(CanonicalDeclarations(less, declarations), CanonicalPins(less, resolved)));
  }

  lemma {:induction false} PinsFaultStays(declarations: seq<Declaration>, pins: seq<Pin>, packageTier: Option<string>, i: nat)
    requires i <= |declarations|
    ensures PinsFor(declarations[..i], pins, packageTier).Err? ==>
      PinsFor(declarations, pins, packageTier) == PinsFor(declarations[..i], pins, packageTier)
    decreases |declarations| - i
  {
    if i == |declarations| {
      assert declarations[..i] == declarations;
    } else {
      assert declarations[..i + 1][..i] == declarations[..i];
      PinsFaultStays(declarations, pins, packageTier, i + 1);
    }
  }

  /** The pin is what the declaration asks for. */
  predicate Matches(d: Declaration, pin: Pin, packageTier: Option<string>) {
    && pin.name == d.name
    && (d.pinnedHash.Some? ==> pin.contentHash == d.pinnedHash.value)
    && (RequiredTier(d, packageTier).Some? ==> pin.trustTier == RequiredTier(d, packageTier))
  }

  /** On success there is one pin per declaration, and it is the one that was asked for. */
  lemma {:induction false} OnePinEach(declarations: seq<Declaration>, pins: seq<Pin>, packageTier: Option<string>)
    requires PinsFor(declarations, pins, packageTier).Ok?
    ensures var resolved := PinsFor(declarations, pins, packageTier).value;
      |resolved| == |declarations| && forall i :: 0 <= i < |declarations| ==>
        resolved[i] in pins && Matches(declarations[i], resolved[i], packageTier)
  {
    if declarations != [] {
      var n := |declarations| - 1;
      OnePinEach(declarations[..n], pins, packageTier);
      LastPinIs(pins, declarations[n].name);
    }
  }

  predicate HasMatch(d: Declaration, pins: seq<Pin>, packageTier: Option<string>) {
    exists pin :: pin in pins && Matches(d, pin, packageTier)
  }

  lemma PinForExactly(d: Declaration, pins: seq<Pin>, packageTier: Option<string>)
    requires !Conflicting(pins)
    ensures PinFor(d, pins, packageTier).Ok? <==> HasMatch(d, pins, packageTier)
  {
    LastPinIs(pins, d.name);
    if PinFor(d, pins, packageTier).Ok? {
      assert Matches(d, LastPin(pins, d.name).value, packageTier);
    }
  }

  /** Without conflicting pins, all declarations are pinned exactly when each has a pin that matches. */
  lemma {:induction false} PinnedExactly(declarations: seq<Declaration>, pins: seq<Pin>, packageTier: Option<string>)
    requires !Conflicting(pins)
    ensures PinsFor(declarations, pins, packageTier).Ok? <==>
      forall d :: d in declarations ==> HasMatch(d, pins, packageTier)
  {
    if declarations != [] {
      var earlier, last := declarations[..|declarations| - 1], declarations[|declarations| - 1];
      assert declarations == earlier + [last];
      PinnedExactly(earlier, pins, packageTier);
      PinForExactly(last, pins, packageTier);
      assert last in declarations;
    }
  }

  // ------------------------------------------------------------------------ order

  /** What a resolver returns for the canonical declarations. */
  type Resolver = seq<Declaration> -> seq<Pin>

  /** `resolveAndPinDependencies` */
  function ResolveAndPin(less: TextOrder, resolver: Resolver, declared: seq<Declaration>, strict: bool,
                         packageTier: Option<string>): Result<Resolution, Reason>
  {
    var declarations := CanonicalDeclarations(less, declared);
    if declarations == [] then Ok(Resolution([], []))
    else match DeclarationsFault(declarations, strict)
      case Some(reason) => Err(reason)
      case None => VerifyPins(less, declarations, resolver(declarations), packageTier)
  }

  lemma DeclarationOrderIsStrict(less: TextOrder)
    requires StrictTotal(less)
    ensures StrictOrder(DeclarationOrder(less))
  {
    forall x: Declaration, y: Declaration, z: Declaration
      ensures DeclarationBefore(less, x, y) ==> !DeclarationBefore(less, y, x)
      ensures DeclarationBefore(less, x, y) && DeclarationBefore(less, y, z) ==> DeclarationBefore(less, x, z)
      ensures DeclarationBefore(less, x, z) ==> DeclarationBefore(less, x, y) || DeclarationBefore(less, y, z)
    {
      OrderOfThree(less, x, y, z);
    }
  }

  lemma OrderOfThree(less: TextOrder, x: Declaration, y: Declaration, z: Declaration)
    requires StrictTotal(less)
    ensures DeclarationBefore(less, x, y) ==> !DeclarationBefore(less, y, x)
    ensures DeclarationBefore(less, x, y) && DeclarationBefore(less, y, z) ==> DeclarationBefore(less, x, z)
    ensures DeclarationBefore(less, x, z) ==> DeclarationBefore(less, x, y) || DeclarationBefore(less, y, z)
  {
  }

  lemma CanonicalIgnoresOrder(less: TextOrder, a: seq<Declaration>, b: seq<Declaration>, strict: bool)
    requires StrictTotal(less) && multiset(a) == multiset(b) && Agree(a, strict)
    ensures CanonicalDeclarations(less, a) == CanonicalDeclarations(less, b)
  {
    var before := DeclarationOrder(less);
    DeclarationOrderIsStrict(less);
    forall x, y | x in a && y in a
      ensures x == y || before(x, y) || before(y, x)
    {
      assert x.name == y.name || less(x.name, y.name) || less(y.name, x.name);
    }
    SortIgnoresOrder(before, a, b);
  }

  lemma AgreeIgnoresOrder(a: seq<Declaration>, b: seq<Declaration>, strict: bool)
    requires multiset(a) == multiset(b)
    ensures Agree(a, strict) <==> Agree(b, strict)
  {
    InMultiset(a, b);
  }

  lemma {:induction false} PinsForIgnoresOrder(declarations: seq<Declaration>, pins: seq<Pin>, other: seq<Pin>,
                                               packageTier: Option<string>)
    requires forall name :: LastPin(pins, name) == LastPin(other, name)
    ensures PinsFor(declarations, pins, packageTier) == PinsFor(declarations, other, packageTier)
  {
    if declarations != [] {
      PinsForIgnoresOrder(declarations[..|declarations| - 1], pins, other, packageTier);
    }
  }

  lemma VerifyIgnoresOrder(less: TextOrder, declarations: seq<Declaration>, pins: seq<Pin>, other: seq<Pin>,
                           packageTier: Option<string>)
    requires multiset(pins) == multiset(other)
    ensures VerifyPins(less, declarations, pins, packageTier) == VerifyPins(less, declarations, other, packageTier)
  {
    InMultiset(pins, other);
    if !Conflicting(pins) {
      forall name
        ensures LastPin(pins, name) == LastPin(other, name)
      {
        LastPinIs(pins, name);
        LastPinIs(other, name);
      }
      PinsForIgnoresOrder(declarations, pins, other, packageTier);
    }
  }

  /** Each declaration has a pin that it asks for, and each pin a declaration that asks for it. */
  predicate PinnedAlike(declared: seq<Declaration>, resolved: seq<Pin>, packageTier: Option<string>) {
    && |resolved| == |declared|
    && (forall d :: d in declared ==> HasMatch(d, resolved, packageTier))
    && (forall pin :: pin in resolved ==> IsAskedFor(pin, declared, packageTier))
  }

  predicate IsAskedFor(pin: Pin, declared: seq<Declaration>, packageTier: Option<string>) {
    exists d :: d in declared && Matches(d, pin, packageTier)
  }

  lemma PinnedInOrder(declarations: seq<Declaration>, pins: seq<Pin>, packageTier: Option<string>)
    requires |pins| == |declarations|
    requires forall i :: 0 <= i < |declarations| ==> Matches(declarations[i], pins[i], packageTier)
    ensures PinnedAlike(declarations, pins, packageTier)
  {
    forall d | d in declarations
      ensures HasMatch(d, pins, packageTier)
    {
      var i :| 0 <= i < |declarations| && declarations[i] == d;
      assert pins[i] in pins;
    }
    forall pin | pin in pins
      ensures IsAskedFor(pin, declarations, packageTier)
    {
      var i :| 0 <= i < |pins| && pins[i] == pin;
      assert declarations[i] in declarations;
    }
  }

  lemma PinnedInAnyOrder(a: seq<Declaration>, pins: seq<Pin>, b: seq<Declaration>, resolved: seq<Pin>, packageTier: Option<string>)
    requires PinnedAlike(a, pins, packageTier) && |a| == |b| && |pins| == |resolved|
    requires (forall d :: d in a <==> d in b) && (forall pin :: pin in pins <==> pin in resolved)
    ensures PinnedAlike(b, resolved, packageTier)
  {
    forall d | d in b
      ensures HasMatch(d, resolved, packageTier)
    {
      assert HasMatch(d, pins, packageTier);
      var pin :| pin in pins && Matches(d, pin, packageTier);
      assert pin in resolved;
    }
    forall pin | pin in resolved
      ensures IsAskedFor(pin, b, packageTier)
    {
      assert IsAskedFor(pin, a, packageTier);
      var d :| d in a && Matches(d, pin, packageTier);
      assert d in b;
    }
  }

  /**
   What a successful resolution holds: as many pins as there are declarations, one that each
   declaration asks for, and none that no declaration asks for.
   */
  lemma ResolutionHasOnePinEach(less: TextOrder, resolver: Resolver, declared: seq<Declaration>, strict: bool,
                                packageTier: Option<string>)
    requires ResolveAndPin(less, resolver, declared, strict, packageTier).Ok?
    ensures PinnedAlike(declared, ResolveAndPin(less, resolver, declared, strict, packageTier).value.resolved, packageTier)
  {
    var declarations := CanonicalDeclarations(less, declared);
    InMultiset(declarations, declared);
    if declarations != [] {
      SortedPinsAlike(less, declarations, resolver(declarations), declared, packageTier);
    }
  }

  lemma SortedPinsAlike(less: TextOrder, declarations: seq<Declaration>, given: seq<Pin>, declared: seq<Declaration>,
                        packageTier: Option<string>)
    requires PinsFor(declarations, given, packageTier).Ok?
    requires |declarations| == |declared| && forall d :: d in declarations <==> d in declared
    ensures PinnedAlike(declared, CanonicalPins(less, PinsFor(declarations, given, packageTier).value), packageTier)
  {
    var pins := PinsFor(declarations, given, packageTier).value;
    OnePinEach(declarations, given, packageTier);
    PinnedInOrder(declarations, pins, packageTier);
    InMultiset(CanonicalPins(less, pins), pins);
    PinnedInAnyOrder(declarations, pins, declared, CanonicalPins(less, pins), packageTier);
  }

  /**
   Permuting the declarations, or what the resolver returns, changes neither whether the
   dependencies are accepted nor the resolution, and so none of its hash segments.
   */
  lemma PinningIgnoresOrder(less: TextOrder, resolver: Resolver, other: Resolver,
                            a: seq<Declaration>, b: seq<Declaration>, strict: bool, packageTier: Option<string>)
    requires StrictTotal(less) && multiset(a) == multiset(b)
    requires forall ds :: multiset(resolver(ds)) == multiset(other(ds))
    ensures var x, y := ResolveAndPin(less, resolver, a, strict, packageTier), ResolveAndPin(less, other, b, strict, packageTier);
      (x.Ok? <==> y.Ok?) && (x.Ok? ==> x == y)
  {
    var ca, cb := CanonicalDeclarations(less, a), CanonicalDeclarations(less, b);
    AgreeIgnoresOrder(a, b, strict);
    AgreeIgnoresOrder(ca, a, strict);
    AgreeIgnoresOrder(cb, b, strict);
    AcceptedExactly(ca, strict);
    AcceptedExactly(cb, strict);
    InMultiset(ca, a);
    InMultiset(cb, b);
    InMultiset(a, b);
    if Agree(a, strict) {
      CanonicalIgnoresOrder(less, a, b, strict);
      VerifyIgnoresOrder(less, ca, resolver(ca), other(ca), packageTier);
    }
  }

  /**
   A package's dependencies are accepted exactly when there are none, or the declarations
   agree, the resolver returns one pin for each name it returns, and each declaration has
   a pin that matches it.
   */
  lemma AcceptedOverall(less: TextOrder, resolver: Resolver, declared: seq<Declaration>, strict: bool, packageTier: Option<string>)
    ensures var pins := resolver(CanonicalDeclarations(less, declared));
      ResolveAndPin(less, resolver, declared, strict, packageTier).Ok? <==>
        declared == [] || (Agree(declared, strict) && !Conflicting(pins)
                           && forall d :: d in declared ==> HasMatch(d, pins, packageTier))
  {
    var declarations := CanonicalDeclarations(less, declared);
    var pins := resolver(declarations);
    InMultiset(declarations, declared);
    AgreeIgnoresOrder(declarations, declared, strict);
    AcceptedExactly(declarations, strict);
    if !Conflicting(pins) {
      PinnedExactly(declarations, pins, packageTier);
    }
  }

  // ------------------------------------------------------------------ hash segments

  /** The part of a pin that its segment holds. */
  function Bare(p: Pin): Pin {
    p.(trustTier := None)
  }

  function BareAll(pins: seq<Pin>): seq<Pin> {
    MapAll(Bare, pins)
  }

  /** Sorting does not look at trust tiers. */
  lemma BareSort(less: TextOrder, pins: seq<Pin>)
    ensures BareAll(CanonicalPins(less, pins)) == CanonicalPins(less, BareAll(pins))
  {
    var before := PinOrder(less);
    forall x: Pin, y: Pin
      ensures before(Bare(x), Bare(y)) == before(x, y)
    {
    }
    SortMapped(before, Bare, pins);
  }

  lemma PinOrderOfThree(less: TextOrder, x: Pin, y: Pin, z: Pin)
    requires StrictTotal(less)
    ensures PinBefore(less, x, y) ==> !PinBefore(less, y, x)
    ensures PinBefore(less, x, y) && PinBefore(less, y, z) ==> PinBefore(less, x, z)
    ensures PinBefore(less, x, z) ==> PinBefore(less, x, y) || PinBefore(less, y, z)
    ensures Bare(x) == Bare(y) || PinBefore(less, x, y) || PinBefore(less, y, x)
  {
    assert forall s, t :: s == t || less(s, t) || less(t, s);
  }

  /** Pins that differ only in trust tiers are the only ones that sorting may leave in any order. */
  lemma BareCanonical(less: TextOrder, a: seq<Pin>, b: seq<Pin>)
    requires StrictTotal(less) && multiset(BareAll(a)) == multiset(BareAll(b))
    ensures CanonicalPins(less, BareAll(a)) == CanonicalPins(less, BareAll(b))
  {
    var before := PinOrder(less);
    assert StrictOrder(before) by {
      forall x: Pin, y: Pin, z: Pin
        ensures PinBefore(less, x, y) ==> !PinBefore(less, y, x)
        ensures PinBefore(less, x, y) && PinBefore(less, y, z) ==> PinBefore(less, x, z)
        ensures PinBefore(less, x, z) ==> PinBefore(less, x, y) || PinBefore(less, y, z)
      {
        PinOrderOfThree(less, x, y, z);
      }
    }
    forall x, y | x in BareAll(a) && y in BareAll(a)
      ensures x == y || before(x, y) || before(y, x)
    {
      var i :| 0 <= i < |BareAll(a)| && BareAll(a)[i] == x;
      var j :| 0 <= j < |BareAll(a)| && BareAll(a)[j] == y;
      assert x == Bare(a[i]) && y == Bare(a[j]);
      PinOrderOfThree(less, x, y, x);
    }
    SortIgnoresOrder(before, BareAll(a), BareAll(b));
  }

  predicate NulFree(p: Pin) {
    NUL !in p.name && NUL !in p.version
  }

  lemma SegmentBinds(p: Pin, q: Pin)
    requires NulFree(p) && NulFree(q)
    ensures HashSegment(p) == HashSegment(q) <==> Bare(p) == Bare(q)
  {
    if HashSegment(p) == HashSegment(q) {
      var x, y := p.version + [NUL] + p.contentHash, q.version + [NUL] + q.contentHash;
      SegmentText(p, q);
      assert Join(NUL, p.name, p.version, p.contentHash) == p.name + [NUL] + x;
      assert Join(NUL, q.name, q.version, q.contentHash) == q.name + [NUL] + y;
      FirstSeparator(NUL, p.name, x, q.name, y);
      FirstSeparator(NUL, p.version, p.contentHash, q.version, q.contentHash);
    }
  }

  lemma SegmentText(p: Pin, q: Pin)
    ensures HashSegment(p) == HashSegment(q) <==>
      Join(NUL, p.name, p.version, p.contentHash) == Join(NUL, q.name, q.version, q.contentHash)
  {
    assert HashSegment(p)[11..] == Join(NUL, p.name, p.version, p.contentHash);
    assert HashSegment(q)[11..] == Join(NUL, q.name, q.version, q.contentHash);
  }

  /** Another name, version or content hash has the same segment. */
  ghost predicate SegmentIsShared(p: Pin) {
    exists q :: Bare(q) != Bare(p) && HashSegment(q) == HashSegment(p)
  }

  /** A segment stands for one pin exactly when none of its three parts has a NUL character. */
  lemma SegmentSharedExactly(p: Pin)
    ensures SegmentIsShared(p) <==> NUL in p.name || NUL in p.version || NUL in p.contentHash
  {
    SharedExactly(NUL, p.name, p.version, p.contentHash);
    if JoinIsShared(NUL, p.name, p.version, p.contentHash) {
      var x, y, z :| (x != p.name || y != p.version || z != p.contentHash)
        && Join(NUL, x, y, z) == Join(NUL, p.name, p.version, p.contentHash);
      var q := Pin(x, y, z, None);
      SegmentText(p, q);
      assert Bare(q) != Bare(p);
    }
    if SegmentIsShared(p) {
      var q :| Bare(q) != Bare(p) && HashSegment(q) == HashSegment(p);
      SegmentText(p, q);
      assert JoinIsShared(NUL, p.name, p.version, p.contentHash);
    }
  }

  /** Two segments tell these pins apart: neither has a NUL in its name or version, or the first has none anywhere. */
  predicate Separable(p: Pin, q: Pin) {
    NulFree(p) && (NulFree(q) || NUL !in p.contentHash)
  }

  /**
   Lists of the same names, versions and content hashes, each as often and in any order, have
   the same hash segments; and no others do, if the names and versions of both have no NUL
   character, or if nothing in one of them has.
   */
  lemma SegmentsExactly(less: TextOrder, a: seq<Pin>, b: seq<Pin>)
    requires StrictTotal(less)
    ensures multiset(BareAll(a)) == multiset(BareAll(b)) ==> HashSegments(less, a) == HashSegments(less, b)
    ensures (forall p, q :: p in a && q in b ==> Separable(p, q)) ==>
      (HashSegments(less, a) == HashSegments(less, b) <==> multiset(BareAll(a)) == multiset(BareAll(b)))
  {
    var ca, cb := CanonicalPins(less, a), CanonicalPins(less, b);
    BareSort(less, a);
    BareSort(less, b);
    if multiset(BareAll(a)) == multiset(BareAll(b)) {
      BareCanonical(less, a, b);
      SameBareSameSegments(ca, cb);
    } else {
      assert multiset(CanonicalPins(less, BareAll(a))) == multiset(BareAll(a));
      assert multiset(CanonicalPins(less, BareAll(b))) == multiset(BareAll(b));
      InMultiset(ca, a);
      InMultiset(cb, b);
      if (forall p, q :: p in a && q in b ==> Separable(p, q)) && Segments(ca) == Segments(cb) {
        SameSegments(ca, cb);
      }
    }
  }

  lemma SameBareSameSegments(a: seq<Pin>, b: seq<Pin>)
    requires BareAll(a) == BareAll(b)
    ensures Segments(a) == Segments(b)
  {
    assert |BareAll(a)| == |a| && |BareAll(b)| == |b|;
    forall i | 0 <= i < |a|
      ensures HashSegment(a[i]) == HashSegment(b[i])
    {
      assert BareAll(a)[i] == Bare(a[i]) && BareAll(b)[i] == Bare(b[i]);
    }
  }

  lemma SameSegments(a: seq<Pin>, b: seq<Pin>)
    requires Segments(a) == Segments(b) && forall p, q :: p in a && q in b ==> Separable(p, q)
    ensures BareAll(a) == BareAll(b)
  {
    assert |Segments(a)| == |a| && |Segments(b)| == |b|;
    forall i | 0 <= i < |a|
      ensures Bare(a[i]) == Bare(b[i])
    {
      assert Segments(a)[i] == HashSegment(a[i]) && Segments(b)[i] == HashSegment(b[i]);
      assert Separable(a[i], b[i]);
      if NulFree(b[i]) {
        SegmentBinds(a[i], b[i]);
      } else {
        SegmentSharedExactly(a[i]);
      }
    }
  }
}
