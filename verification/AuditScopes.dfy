/**
 The production audit spreads the locked dependency roots of all workspaces over scopes that hold one version
 per name, first fit. Scopes are plain objects, so a name every object inherits is found in a scope that does
 not hold it; that decides when the number of scopes is the smallest possible.
 */
module AuditScopes {
  import opened Prelude

  datatype Locked = Locked(specifier: string, version: string)

  /** A declared root; a lock file may lack the version. */
  datatype Entry = Entry(name: string, specifier: string, version: Option<string>)

  /** The locked dependencies of one workspace, in the order of the lock file. */
  datatype Importer = Importer(dependencies: seq<Entry>, optional: seq<Entry>)

  datatype Failure = MissingImporter(directory: string) | InvalidDependency(name: string) | NothingToAudit

  /** A plain object: its own entries, and the prototype that assigning `__proto__` replaces. */
  datatype Scope = Scope(own: map<string, Locked>, proto: Option<Locked>)

  const EMPTY := Scope(map[], None)

  const PROTO := "__proto__"

  /** The other names every object inherits. */
  const INHERITED: set<string> := {
    "constructor", "hasOwnProperty", "isPrototypeOf", "propertyIsEnumerable", "toLocaleString", "toString",
    "valueOf", "__defineGetter__", "__defineSetter__", "__lookupGetter__", "__lookupSetter__"
  }

  /** The entries of an object spread: an optional dependency replaces its namesake in place. */
  function Roots(i: Importer): seq<Entry> { Spread(i.dependencies, i.optional) }

  function Spread(a: seq<Entry>, b: seq<Entry>): seq<Entry>
    decreases |b|
  {
    if b == [] then a else Spread(Assign(a, b[0]), b[1..])
  }

  function Assign(a: seq<Entry>, e: Entry): seq<Entry> {
    if a == [] then [e]
    else if a[0].name == e.name then [e] + a[1..]
    else [a[0]] + Assign(a[1..], e)
  }

  predicate IsLink(version: string) { "link:" <= version }

  /** The roots that must be audited: everything locked outside the workspace set. */
  predicate External(e: Entry) { e.version.Some? && !IsLink(e.version.value) }

  // ---------------------------------------------------------------- first fit

  /** What a lookup finds: nothing or an empty string, a locked version, or something without a version. */
  datatype Looked = Missing | Version(version: string) | Foreign

  function LookUp(inherited: set<string>, scope: Scope, name: string): Looked {
    if name == PROTO then if scope.proto.Some? then Version(scope.proto.value.version) else Foreign
    else if name in scope.own then Version(scope.own[name].version)
    else if scope.proto.Some? && name == "version" then
      if scope.proto.value.version == "" then Missing else Foreign
    else if scope.proto.Some? && name == "specifier" then
      if scope.proto.value.specifier == "" then Missing else Foreign
    else if name in inherited then Foreign
    else Missing
  }

  predicate Fits(inherited: set<string>, scope: Scope, name: string, version: string) {
    var found := LookUp(inherited, scope, name);
    found.Missing? || found == Version(version)
  }

  function Put(scope: Scope, e: Entry): Scope
    requires External(e)
  {
    var l := Locked(e.specifier, e.version.value);
    if e.name == PROTO then scope.(proto := Some(l)) else scope.(own := scope.own[e.name := l])
  }

  function FirstFit(inherited: set<string>, scopes: seq<Scope>, name: string, version: string): (i: nat)
    ensures i <= |scopes|
    ensures forall k | 0 <= k < i :: !Fits(inherited, scopes[k], name, version)
    ensures i < |scopes| ==> Fits(inherited, scopes[i], name, version)
  {
    if scopes == [] || Fits(inherited, scopes[0], name, version) then 0
    else 1 + FirstFit(inherited, scopes[1..], name, version)
  }

  /** One root goes into the first scope it fits, into a new one if it fits none. */
  function Place(inherited: set<string>, scopes: seq<Scope>, e: Entry): seq<Scope> {
    if !External(e) then scopes
    else
      var i := FirstFit(inherited, scopes, e.name, e.version.value);
      if i < |scopes| then scopes[i := Put(scopes[i], e)] else scopes + [Put(EMPTY, e)]
  }

  function PlaceAll(inherited: set<string>, seen: seq<Entry>): seq<Scope> {
    if seen == [] then [] else Place(inherited, PlaceAll(inherited, seen[..|seen| - 1]), seen[|seen| - 1])
  }

  // ---------------------------------------------------------------- what the scopes hold

  ghost predicate Holds(scopes: seq<Scope>, name: string, version: string) {
    exists i | 0 <= i < |scopes| :: name in scopes[i].own && scopes[i].own[name].version == version
  }

  /** Any scopes that hold every external root at its version. */
  ghost predicate Partition(scopes: seq<Scope>, seen: seq<Entry>) {
    forall e | e in seen && External(e) :: Holds(scopes, e.name, e.version.value)
  }

  ghost predicate Minimal(scopes: seq<Scope>, seen: seq<Entry>) {
    forall other | Partition(other, seen) :: |scopes| <= |other|
  }

  /** The roots are all held, and by as few scopes as can be. */
  ghost predicate Smallest(scopes: seq<Scope>, seen: seq<Entry>) { Partition(scopes, seen) && Minimal(scopes, seen) }

  predicate Root(seen: seq<Entry>, name: string, l: Locked) {
    Entry(name, l.specifier, Some(l.version)) in seen && !IsLink(l.version)
  }

  /** Whatever the scopes hold is an external root among `seen`. */
  ghost predicate NothingElse(scopes: seq<Scope>, seen: seq<Entry>) {
    forall i, name | 0 <= i < |scopes| && name in scopes[i].own ::
      name != PROTO && Root(seen, name, scopes[i].own[name])
  }

  /** All external roots are held, but for one named `__proto__`, which only replaces a prototype. */
  ghost predicate HoldsRoots(scopes: seq<Scope>, seen: seq<Entry>) {
    forall e | e in seen && External(e) && e.name != PROTO :: Holds(scopes, e.name, e.version.value)
  }

  predicate NoProto(seen: seq<Entry>) { forall e | e in seen && External(e) :: e.name != PROTO }

  lemma PlaceHolds(inherited: set<string>, scopes: seq<Scope>, e: Entry, name: string, version: string)
    requires Holds(scopes, name, version)
    ensures Holds(Place(inherited, scopes, e), name, version)
  {
    var k :| 0 <= k < |scopes| && name in scopes[k].own && scopes[k].own[name].version == version;
    var r := Place(inherited, scopes, e);
    assert name in r[k].own && r[k].own[name].version == version;
  }

  lemma PlaceHoldsNew(inherited: set<string>, scopes: seq<Scope>, e: Entry)
    requires External(e) && e.name != PROTO
    ensures Holds(Place(inherited, scopes, e), e.name, e.version.value)
  {
    var i := FirstFit(inherited, scopes, e.name, e.version.value);
    assert e.name in Place(inherited, scopes, e)[i].own;
  }

  lemma PlaceNothingElse(inherited: set<string>, scopes: seq<Scope>, seen: seq<Entry>, e: Entry)
    requires NothingElse(scopes, seen)
    ensures NothingElse(Place(inherited, scopes, e), seen + [e])
  {
    var r := Place(inherited, scopes, e);
    assert (seen + [e])[|seen|] == e;
    forall k, name | 0 <= k < |r| && name in r[k].own
      ensures name != PROTO && Root(seen + [e], name, r[k].own[name])
    {
      if k < |scopes| && name in scopes[k].own && r[k].own[name] == scopes[k].own[name] {
        assert Root(seen, name, scopes[k].own[name]);
      } else {
        assert r[k].own[name] == Locked(e.specifier, e.version.value) && name == e.name;
      }
    }
  }

  /** The scopes hold exactly the external roots, whatever their names, `__proto__` alone excepted. */
  lemma {:induction false} ScopesAreExact(inherited: set<string>, seen: seq<Entry>)
    ensures HoldsRoots(PlaceAll(inherited, seen), seen) && NothingElse(PlaceAll(inherited, seen), seen)
    ensures Partition(PlaceAll(inherited, seen), seen) <==> NoProto(seen)
  {
    if seen != [] {
      var front, e := seen[..|seen| - 1], seen[|seen| - 1];
      assert seen == front + [e];
      ScopesAreExact(inherited, front);
      var before := PlaceAll(inherited, front);
      PlaceNothingElse(inherited, before, front, e);
      forall x | x in seen && External(x) && x.name != PROTO
        ensures Holds(PlaceAll(inherited, seen), x.name, x.version.value)
      {
        if x in front { PlaceHolds(inherited, before, e, x.name, x.version.value); } else {
          PlaceHoldsNew(inherited, before, e);
        }
      }
    }
  }

  const PROTO_ROOTS := [Entry(PROTO, "^1", Some("1.0.0"))]

  /** A root named `__proto__` is held by no scope. */
  lemma ProtoExample()
    ensures !Partition(PlaceAll(INHERITED, PROTO_ROOTS), PROTO_ROOTS)
  {
    ScopesAreExact(INHERITED, PROTO_ROOTS);
    assert "1.0.0"[0] == '1' && External(PROTO_ROOTS[0]);
  }

  // ---------------------------------------------------------------- the shape of the scopes

  /** The scopes that hold some version of `name` are an initial part of the list. */
  ghost predicate Initial(scopes: seq<Scope>, name: string) {
    forall i, j | 0 <= i < j < |scopes| && name in scopes[j].own :: name in scopes[i].own
  }

  /** Each scope that holds `name` holds a version of its own. */
  ghost predicate Apart(scopes: seq<Scope>, name: string) {
    forall i, j | 0 <= i < j < |scopes| && name in scopes[i].own && name in scopes[j].own ::
      scopes[i].own[name].version != scopes[j].own[name].version
  }

  predicate PlainScopes(scopes: seq<Scope>) { forall i | 0 <= i < |scopes| :: scopes[i].proto.None? }

  lemma {:induction false} ScopesShaped(inherited: set<string>, seen: seq<Entry>, name: string)
    requires NoProto(seen)
    ensures PlainScopes(PlaceAll(inherited, seen)) && Apart(PlaceAll(inherited, seen), name)
    ensures name !in inherited && name != PROTO ==> Initial(PlaceAll(inherited, seen), name)
  {
    if seen != [] {
      var front, e := seen[..|seen| - 1], seen[|seen| - 1];
      assert seen == front + [e];
      ScopesShaped(inherited, front, name);
      PlaceShaped(inherited, PlaceAll(inherited, front), e, name);
    }
  }

  lemma PlaceShaped(inherited: set<string>, scopes: seq<Scope>, e: Entry, name: string)
    requires External(e) ==> e.name != PROTO
    requires PlainScopes(scopes) && Apart(scopes, name)
    requires name !in inherited && name != PROTO ==> Initial(scopes, name)
    ensures PlainScopes(Place(inherited, scopes, e)) && Apart(Place(inherited, scopes, e), name)
    ensures name !in inherited && name != PROTO ==> Initial(Place(inherited, scopes, e), name)
  {
    if External(e) && e.name == name {
      var i := FirstFit(inherited, scopes, name, e.version.value);
      forall k | 0 <= k < |scopes| && k != i && name in scopes[k].own
        ensures scopes[k].own[name].version != e.version.value
      {
        assert k < i ==> !Fits(inherited, scopes[k], name, e.version.value);
        assert i < k ==> Fits(inherited, scopes[i], name, e.version.value);
      }
    }
  }

  // ---------------------------------------------------------------- counting scopes

  /** The different versions a name is locked at outside the workspace set. */
  function Versions(seen: seq<Entry>, name: string): set<string> {
    set e | e in seen && External(e) && e.name == name :: e.version.value
  }

  /** Names and versions of the external roots with an inherited name. */
  function Pairs(inherited: set<string>, seen: seq<Entry>): set<(string, string)> {
    set e | e in seen && External(e) && e.name in inherited :: (e.name, e.version.value)
  }

  /** Those that first appear after the first `i` roots. */
  function Late(inherited: set<string>, seen: seq<Entry>, i: nat): set<(string, string)>
    requires i <= |seen|
  {
    Pairs(inherited, seen) - Pairs(inherited, seen[..i])
  }

  /** Scopes in use for `name` after the first `i` roots, plus one for every inherited name and version that
      is still to come. */
  function Load(inherited: set<string>, seen: seq<Entry>, i: nat, name: string): nat
    requires i <= |seen|
  {
    |Versions(seen[..i], name)| + |Late(inherited, seen, i)|
  }

  lemma {:induction false} BoundedSet(used: set<int>, n: nat)
    requires forall u | u in used :: 0 <= u < n
    ensures |used| <= n
  {
    if n == 0 {
      assert forall u :: u !in used;
      assert used == {};
    } else {
      BoundedSet(used - {n - 1}, n - 1);
    }
  }

  /** Different versions of one name are held by different scopes. */
  lemma {:induction false} HomesOf(scopes: seq<Scope>, name: string, versions: set<string>) returns (used: set<int>)
    requires forall v | v in versions :: Holds(scopes, name, v)
    ensures |used| == |versions| && forall u | u in used :: 0 <= u < |scopes| && name in scopes[u].own
    ensures forall u | u in used :: scopes[u].own[name].version in versions
    decreases versions
  {
    used := {};
    if versions != {} {
      var v :| v in versions;
      var before := HomesOf(scopes, name, versions - {v});
      var u :| 0 <= u < |scopes| && name in scopes[u].own && scopes[u].own[name].version == v;
      used := before + {u};
    }
  }

  /** Every partition has at least as many scopes as any name has versions. */
  lemma PartitionBound(scopes: seq<Scope>, seen: seq<Entry>, name: string)
    requires Partition(scopes, seen)
    ensures |Versions(seen, name)| <= |scopes|
  {
    var used := HomesOf(scopes, name, Versions(seen, name));
    BoundedSet(used, |scopes|);
  }

  lemma {:induction false} VersionsOf(scopes: seq<Scope>, name: string, n: nat) returns (versions: set<string>)
    requires Apart(scopes, name) && n <= |scopes| && forall i | 0 <= i < n :: name in scopes[i].own
    ensures |versions| == n
    ensures forall v :: v in versions <==> exists i | 0 <= i < n :: scopes[i].own[name].version == v
  {
    versions := {};
    if n > 0 {
      var before := VersionsOf(scopes, name, n - 1);
      var v := scopes[n - 1].own[name].version;
      assert forall i | 0 <= i < n - 1 :: scopes[i].own[name].version != v;
      versions := before + {v};
    }
  }

  lemma HeldVersions(scopes: seq<Scope>, seen: seq<Entry>, name: string, version: string)
    requires Partition(scopes, seen) && NothingElse(scopes, seen)
    ensures version in Versions(seen, name) <==> Holds(scopes, name, version)
  {
    if Holds(scopes, name, version) {
      var i :| 0 <= i < |scopes| && name in scopes[i].own && scopes[i].own[name].version == version;
      assert Root(seen, name, scopes[i].own[name]);
      assert External(Entry(name, scopes[i].own[name].specifier, Some(version)));
    }
  }

  /** With `name` in the first `n` scopes and no other, it has `n` versions. */
  lemma VersionsCounted(scopes: seq<Scope>, seen: seq<Entry>, name: string, n: nat)
    requires Partition(scopes, seen) && NothingElse(scopes, seen) && Apart(scopes, name) && n <= |scopes|
    requires forall i | 0 <= i < |scopes| :: name in scopes[i].own <==> i < n
    ensures |Versions(seen, name)| == n
  {
    var versions := VersionsOf(scopes, name, n);
    forall v ensures v in versions <==> v in Versions(seen, name) { HeldVersions(scopes, seen, name, v); }
    assert versions == Versions(seen, name);
  }

  /** An ordinary name in a version nobody holds fits the first scope without it. */
  lemma PlainFit(inherited: set<string>, scopes: seq<Scope>, name: string, version: string)
    requires PlainScopes(scopes) && Initial(scopes, name) && !Holds(scopes, name, version)
    requires name !in inherited && name != PROTO
    ensures forall k | 0 <= k < |scopes| :: name in scopes[k].own <==> k < FirstFit(inherited, scopes, name, version)
  {
    var i := FirstFit(inherited, scopes, name, version);
    forall k | 0 <= k < |scopes| ensures name in scopes[k].own <==> k < i {
      assert name in scopes[k].own <==> !Fits(inherited, scopes[k], name, version);
    }
  }

  lemma HeldFits(inherited: set<string>, scopes: seq<Scope>, name: string, version: string)
    requires Holds(scopes, name, version) && name != PROTO
    ensures FirstFit(inherited, scopes, name, version) < |scopes|
  {
    var k :| 0 <= k < |scopes| && name in scopes[k].own && scopes[k].own[name].version == version;
    assert Fits(inherited, scopes[k], name, version);
  }

  lemma InheritedFits(inherited: set<string>, scopes: seq<Scope>, name: string, version: string)
    requires PlainScopes(scopes) && !Holds(scopes, name, version) && name in inherited && name != PROTO
    ensures FirstFit(inherited, scopes, name, version) == |scopes|
  {
    assert forall k | 0 <= k < |scopes| :: !Fits(inherited, scopes[k], name, version);
  }

  /** A root opens a scope exactly if its version is new and its name is inherited, or every scope already
      holds the name. */
  lemma StepCount(inherited: set<string>, front: seq<Entry>, e: Entry)
    requires NoProto(front + [e])
    ensures var scopes, n := PlaceAll(inherited, front), |PlaceAll(inherited, front)|;
            |Place(inherited, scopes, e)| ==
            if !External(e) || e.version.value in Versions(front, e.name) then n
            else if e.name in inherited then n + 1
            else if n <= |Versions(front, e.name)| then |Versions(front, e.name)| + 1 else n
  {
    hide FirstFit, Fits, PlaceAll, Versions, Holds;
    assert NoProto(front) && e in front + [e];
    if External(e) {
      var scopes, name, version := PlaceAll(inherited, front), e.name, e.version.value;
      ScopesAreExact(inherited, front);
      ScopesShaped(inherited, front, name);
      HeldVersions(scopes, front, name, version);
      if Holds(scopes, name, version) {
        HeldFits(inherited, scopes, name, version);
      } else if name in inherited {
        InheritedFits(inherited, scopes, name, version);
      } else {
        PlainFit(inherited, scopes, name, version);
        VersionsCounted(scopes, front, name, FirstFit(inherited, scopes, name, version));
      }
    }
  }

  lemma PairsStep(inherited: set<string>, front: seq<Entry>, e: Entry)
    ensures Pairs(inherited, front + [e]) ==
            Pairs(inherited, front) + if External(e) && e.name in inherited then {(e.name, e.version.value)} else {}
    ensures External(e) && e.name in inherited ==>
              ((e.name, e.version.value) in Pairs(inherited, front) <==> e.version.value in Versions(front, e.name))
  {
    assert (front + [e])[|front|] == e;
    assert forall x | x in front :: x in front + [e];
  }

  lemma VersionsStep(front: seq<Entry>, e: Entry)
    ensures External(e) ==> Versions(front + [e], e.name) == Versions(front, e.name) + {e.version.value}
  {
    assert (front + [e])[|front|] == e;
    assert forall x | x in front :: x in front + [e];
  }

  /** What is still to come grows with the scopes, by one more root. */
  lemma LateStep(inherited: set<string>, front: seq<Entry>, e: Entry, i: nat)
    requires i <= |front|
    ensures (front + [e])[..i] == front[..i]
    ensures |Late(inherited, front + [e], i)| == |Late(inherited, front, i)|
              + if External(e) && e.name in inherited && e.version.value !in Versions(front, e.name) then 1 else 0
  {
    var seen := front + [e];
    assert seen[..i] == front[..i];
    PairsStep(inherited, front, e);
    assert Pairs(inherited, front[..i]) <= Pairs(inherited, front) by {
      assert forall x | x in front[..i] :: x in front;
    }
    if External(e) && e.name in inherited {
      var pair := (e.name, e.version.value);
      if pair in Pairs(inherited, front) {
        assert Late(inherited, seen, i) == Late(inherited, front, i);
      } else {
        assert Late(inherited, seen, i) == Late(inherited, front, i) + {pair};
      }
    } else {
      assert Late(inherited, seen, i) == Late(inherited, front, i);
    }
  }

  lemma LateNone(inherited: set<string>, seen: seq<Entry>)
    ensures Late(inherited, seen, |seen|) == {} && seen[..|seen|] == seen
  {
    assert seen[..|seen|] == seen;
  }

  lemma {:induction false} LoadBound(inherited: set<string>, seen: seq<Entry>, i: nat, name: string)
    requires NoProto(seen) && i <= |seen|
    ensures Load(inherited, seen, i, name) <= |PlaceAll(inherited, seen)|
    decreases |seen|
  {
    if i == |seen| {
      LateNone(inherited, seen);
      ScopesAreExact(inherited, seen);
      PartitionBound(PlaceAll(inherited, seen), seen, name);
    } else {
      var front, e := seen[..|seen| - 1], seen[|seen| - 1];
      assert seen == front + [e];
      LoadBound(inherited, front, i, name);
      LateStep(inherited, front, e, i);
      StepCount(inherited, front, e);
    }
  }

  lemma {:induction false} LoadReached(inherited: set<string>, seen: seq<Entry>, plain: string)
    returns (i: nat, name: string)
    requires NoProto(seen) && plain !in inherited
    ensures i <= |seen| && name !in inherited && Load(inherited, seen, i, name) == |PlaceAll(inherited, seen)|
    decreases |seen|
  {
    hide Place, Pairs;
    if seen == [] {
      i, name := 0, plain;
      assert Versions([], plain) == {};
    } else {
      var front, e := seen[..|seen| - 1], seen[|seen| - 1];
      assert seen == front + [e];
      StepCount(inherited, front, e);
      i, name := LoadReached(inherited, front, plain);
      LateStep(inherited, front, e, i);
      if External(e) && e.name !in inherited && e.version.value !in Versions(front, e.name)
         && |PlaceAll(inherited, front)| <= |Versions(front, e.name)|
      {
        i, name := |seen|, e.name;
        LateNone(inherited, seen);
        VersionsStep(front, e);
      }
    }
  }

  /** There are exactly as many scopes as the heaviest load: a name's versions so far, plus the inherited names
      and versions still to come. */
  lemma ScopesCounted(seen: seq<Entry>)
    requires NoProto(seen)
    ensures forall i, name | 0 <= i <= |seen| :: Load(INHERITED, seen, i, name) <= |PlaceAll(INHERITED, seen)|
    ensures exists i, name | 0 <= i <= |seen| && name !in INHERITED ::
              Load(INHERITED, seen, i, name) == |PlaceAll(INHERITED, seen)|
  {
    forall i, name | 0 <= i <= |seen| ensures Load(INHERITED, seen, i, name) <= |PlaceAll(INHERITED, seen)| {
      LoadBound(INHERITED, seen, i, name);
    }
    var i, name := LoadReached(INHERITED, seen, "a");
  }

  // ---------------------------------------------------------------- how few scopes there can be

  /** At no point is more needed than the versions of some one name. */
  ghost predicate Affordable(seen: seq<Entry>) {
    forall i, name | 0 <= i <= |seen| && name !in INHERITED ::
      exists other :: Load(INHERITED, seen, i, name) <= |Versions(seen, other)|
  }

  lemma SubsetSize<T>(a: set<T>, b: set<T>)
    requires a <= b
    ensures |a| <= |b|
  {
    assert b == a + (b - a);
  }

  /** Some partition has as many scopes as one name has versions, so none of the minimal ones has more. */
  lemma BestPartition(seen: seq<Entry>) returns (best: seq<Scope>, name: string)
    requires NoProto(seen)
    ensures Partition(best, seen) && |best| <= |Versions(seen, name)|
  {
    best := PlaceAll({}, seen);
    ScopesAreExact({}, seen);
    var i, most := LoadReached({}, seen, "a");
    name := most;
    assert Late({}, seen, i) == {};
    assert Versions(seen[..i], name) <= Versions(seen, name) by { assert forall x | x in seen[..i] :: x in seen; }
    SubsetSize(Versions(seen[..i], name), Versions(seen, name));
  }

  /** No partition has fewer scopes, if and only if inherited names and versions are affordable. */
  lemma MinimalIffAffordable(seen: seq<Entry>)
    requires NoProto(seen)
    ensures Minimal(PlaceAll(INHERITED, seen), seen) <==> Affordable(seen)
  {
    var scopes := PlaceAll(INHERITED, seen);
    if Affordable(seen) {
      var i, name := LoadReached(INHERITED, seen, "a");
      assert Load(INHERITED, seen, i, name) == |scopes|;
      var most :| Load(INHERITED, seen, i, name) <= |Versions(seen, most)|;
      forall other | Partition(other, seen) ensures |scopes| <= |other| { PartitionBound(other, seen, most); }
    }
    if Minimal(scopes, seen) {
      var best, most := BestPartition(seen);
      forall i, name | 0 <= i <= |seen| && name !in INHERITED
        ensures Load(INHERITED, seen, i, name) <= |Versions(seen, most)|
      {
        LoadBound(INHERITED, seen, i, name);
      }
    }
  }

  /** First fit gives a smallest partition, if and only if no root is named `__proto__` and inherited names and
      versions are affordable. */
  lemma SmallestIffAffordable(seen: seq<Entry>)
    ensures Smallest(PlaceAll(INHERITED, seen), seen) <==> NoProto(seen) && Affordable(seen)
  {
    hide INHERITED, PlaceAll, Minimal, Affordable;
    ScopesAreExact(INHERITED, seen);
    if NoProto(seen) { MinimalIffAffordable(seen); }
  }

  /** Without inherited names first fit is always minimal, and as large as some name has versions. */
  lemma OrdinaryNamesMinimal(seen: seq<Entry>)
    requires forall e | e in seen && External(e) :: e.name != PROTO && e.name !in INHERITED
    ensures Minimal(PlaceAll(INHERITED, seen), seen)
    ensures exists name :: |Versions(seen, name)| == |PlaceAll(INHERITED, seen)|
  {
    var scopes := PlaceAll(INHERITED, seen);
    var i, name := LoadReached(INHERITED, seen, "a");
    assert Pairs(INHERITED, seen) == {};
    assert Versions(seen[..i], name) <= Versions(seen, name) by { assert forall x | x in seen[..i] :: x in seen; }
    SubsetSize(Versions(seen[..i], name), Versions(seen, name));
    ScopesAreExact(INHERITED, seen);
    PartitionBound(scopes, seen, name);
    forall other | Partition(other, seen) ensures |scopes| <= |other| { PartitionBound(other, seen, name); }
  }

  const CONSTRUCTOR_ROOTS := [Entry("a", "^1", Some("1.0.0")), Entry("constructor", "^1", Some("1.0.0"))]

  /** Two roots of different names, one of them `constructor`: first fit opens two scopes where one suffices. */
  lemma ConstructorExample()
    ensures |PlaceAll(INHERITED, CONSTRUCTOR_ROOTS)| == 2
    ensures exists one :: Partition(one, CONSTRUCTOR_ROOTS) && |one| == 1
    ensures !Affordable(CONSTRUCTOR_ROOTS)
  {
    var roots := CONSTRUCTOR_ROOTS;
    var a, c := roots[0], roots[1];
    assert roots[..1] == [a] && [a][..0] == [];
    assert "1.0.0"[0] == '1' && External(a) && External(c);
    assert PlaceAll(INHERITED, [a]) == [Put(EMPTY, a)];
    assert Foreign == LookUp(INHERITED, Put(EMPTY, a), "constructor");
    assert PlaceAll(INHERITED, roots) == [Put(EMPTY, a), Put(EMPTY, c)];
    var one := [Put(Put(EMPTY, a), c)];
    assert "a" in one[0].own && "constructor" in one[0].own;
    assert Holds(one, "a", "1.0.0") && Holds(one, "constructor", "1.0.0");
    assert Partition(one, roots);
    MinimalIffAffordable(roots);
  }

  // ---------------------------------------------------------------- the audit

  /** A directory named like an inherited property finds that property, which declares nothing. */
  function ImporterOf(importers: map<string, Importer>, directory: string): Option<Importer> {
    if directory in importers then Some(importers[directory])
    else if directory == PROTO || directory in INHERITED then Some(Importer([], []))
    else None
  }

  ghost predicate AllFound(importers: map<string, Importer>, directories: seq<string>) {
    forall d | d in directories :: ImporterOf(importers, d).Some?
  }

  /** All roots the audit reads, directory by directory. */
  function AllRoots(importers: map<string, Importer>, directories: seq<string>): seq<Entry>
    requires AllFound(importers, directories)
  {
    if directories == [] then []
    else
      var front, d := directories[..|directories| - 1], directories[|directories| - 1];
      assert d in directories && forall x | x in front :: x in directories;
      AllRoots(importers, front) + Roots(ImporterOf(importers, d).value)
  }

  /** What a successful audit covers: the scopes hold the external roots of every workspace at their locked
      versions and nothing else, and are as few as possible exactly when that is affordable. */
  ghost predicate Audited(importers: map<string, Importer>, all: seq<string>, scopes: seq<Scope>) {
    && AllFound(importers, all) && scopes != []
    && var seen := AllRoots(importers, all);
       && (forall e | e in seen :: e.version.Some?)
       && HoldsRoots(scopes, seen) && NothingElse(scopes, seen)
       && (Smallest(scopes, seen) <==> NoProto(seen) && Affordable(seen))
  }

  /** Missing importers, roots without a version and an audit of nothing are refused. */
  ghost predicate Refused(importers: map<string, Importer>, all: seq<string>, failure: Failure) {
    match failure
    case MissingImporter(d) => d in all && ImporterOf(importers, d).None?
    case InvalidDependency(name) =>
      exists d, e | d in all && ImporterOf(importers, d).Some? && e in Roots(ImporterOf(importers, d).value) ::
        e.version.None? && e.name == name
    case NothingToAudit => AllFound(importers, all) && forall e | e in AllRoots(importers, all) :: !External(e)
  }

  lemma PlacedAudited(importers: map<string, Importer>, all: seq<string>)
    requires AllFound(importers, all) && forall e | e in AllRoots(importers, all) :: e.version.Some?
    requires PlaceAll(INHERITED, AllRoots(importers, all)) != []
    ensures Audited(importers, all, PlaceAll(INHERITED, AllRoots(importers, all)))
  {
    hide INHERITED;
    var seen := AllRoots(importers, all);
    ScopesAreExact(INHERITED, seen);
    SmallestIffAffordable(seen);
  }

  method ProductionAuditScopes(importers: map<string, Importer>, directories: seq<string>)
    returns (r: Result<seq<Scope>, Failure>)
    ensures r.Ok? ==> Audited(importers, ["."] + directories, r.value)
    ensures r.Err? ==> Refused(importers, ["."] + directories, r.error)
  {
    hide Audited, PlaceAll, Roots, External, INHERITED;
    NothingPlaced();
    var all := ["."] + directories;
    var scopes: seq<Scope> := [];
    ghost var seen: seq<Entry> := [];
    for i := 0 to |all|
      invariant AllFound(importers, all[..i]) && seen == AllRoots(importers, all[..i])
      invariant scopes == PlaceAll(INHERITED, seen) && forall e | e in seen :: e.version.Some?
    {
      var importer := ImporterOf(importers, all[i]);
      if importer.None? { return Err(MissingImporter(all[i])); }
      var bad;
      scopes, bad := AddRoots(scopes, Roots(importer.value), seen);
      if bad.Some? { return Err(InvalidDependency(bad.value)); }
      seen := seen + Roots(importer.value);
      assert all[..i + 1][..i] == all[..i];
    }
    assert all[..|all|] == all;
    if scopes == [] {
      NoScopesNoRoots(seen);
      return Err(NothingToAudit);
    }
    PlacedAudited(importers, all);
    r := Ok(scopes);
  }

  lemma PlaceAllNext(seen: seq<Entry>, e: Entry)
    ensures PlaceAll(INHERITED, seen + [e]) == Place(INHERITED, PlaceAll(INHERITED, seen), e)
  {
    hide INHERITED, Place;
    assert (seen + [e])[..|seen|] == seen;
  }

  /** Places the external roots of one workspace; stops at one without a version. */
  method AddRoots(scopes: seq<Scope>, roots: seq<Entry>, ghost seen: seq<Entry>)
    returns (r: seq<Scope>, bad: Option<string>)
    requires scopes == PlaceAll(INHERITED, seen)
    ensures bad.None? ==> r == PlaceAll(INHERITED, seen + roots) && forall e | e in roots :: e.version.Some?
    ensures bad.Some? ==> exists e | e in roots :: e.version.None? && e.name == bad.value
  {
    hide PlaceAll, FirstFit;
    r := scopes;
    assert seen + roots[..0] == seen;
    for k := 0 to |roots|
      invariant r == PlaceAll(INHERITED, seen + roots[..k])
      invariant forall n | 0 <= n < k :: roots[n].version.Some?
    {
      var e := roots[k];
      assert seen + roots[..k + 1] == seen + roots[..k] + [e];
      PlaceAllNext(seen + roots[..k], e);
      if e.version.None? {
        assert e in roots;
        return r, Some(e.name);
      }
      if !IsLink(e.version.value) { r := AddRoot(r, e); }
    }
    assert roots[..|roots|] == roots;
    bad := None;
  }

  method AddRoot(scopes: seq<Scope>, e: Entry) returns (r: seq<Scope>)
    requires External(e)
    ensures r == Place(INHERITED, scopes, e)
  {
    var k := 0;
    while k < |scopes| && !Fits(INHERITED, scopes[k], e.name, e.version.value)
      invariant 0 <= k <= |scopes|
      invariant forall n | 0 <= n < k :: !Fits(INHERITED, scopes[n], e.name, e.version.value)
    {
      k := k + 1;
    }
    assert k == FirstFit(INHERITED, scopes, e.name, e.version.value);
    r := if k == |scopes| then scopes + [EMPTY] else scopes;
    r := r[k := Put(r[k], e)];
  }

  lemma NothingPlaced()
    ensures PlaceAll(INHERITED, []) == []
  {
  }

  lemma NoScopesNoRoots(seen: seq<Entry>)
    requires PlaceAll(INHERITED, seen) == []
    ensures forall e | e in seen :: !External(e)
  {
    if seen != [] {
      var front, e := seen[..|seen| - 1], seen[|seen| - 1];
      assert seen == front + [e];
      NoScopesNoRoots(front);
    }
  }
}
