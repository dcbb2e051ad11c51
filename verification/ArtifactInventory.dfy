/**
 Dependency inventories of the desktop artifact. The inventory is a canonical form of the set of packages,
 which is why a manifest assembled by the producer passes the validator that recomputes it. `localeCompare`
 is any strict total order on strings, passed as `less`.
 */
module ArtifactInventory {
  import opened Prelude
  import opened Sorting
  import opened Text

  datatype Package = Package(name: string, version: string)

  const NUL := '\0'

  function Key(p: Package): string { p.name + [NUL] + p.version }

  function Trimmed(p: Package): Package { Package(Trim(p.name), Trim(p.version)) }

  predicate Complete(p: Package) { p.name != "" && p.version != "" }

  ghost predicate Collation(less: (string, string) -> bool) {
    StrictOrder(less) && forall x, y | x != y :: less(x, y) || less(y, x)
  }

  /** By name, then by version. */
  function Order(less: (string, string) -> bool): (Package, Package) -> bool {
    (a: Package, b: Package) => less(a.name, b.name) || (a.name == b.name && less(a.version, b.version))
  }

  lemma OrderStrict(less: (string, string) -> bool)
    requires Collation(less)
    ensures StrictOrder(Order(less))
    ensures forall a, b | a != b :: Order(less)(a, b) || Order(less)(b, a)
  {
    var order := Order(less);
    forall a ensures !order(a, a) { assert !less(a.name, a.name) && !less(a.version, a.version); }
    forall a, b, c | order(a, b) && order(b, c) ensures order(a, c) {
      assert less(a.name, b.name) && less(b.name, c.name) ==> less(a.name, c.name);
    }
    forall a, b, c | order(a, c) ensures order(a, b) || order(b, c) {
      assert a.name != b.name ==> less(a.name, b.name) || less(b.name, a.name);
      assert less(b.name, a.name) && less(a.name, c.name) ==> less(b.name, c.name);
    }
  }

  // ---------------------------------------------------------------- the canonical form

  /** The first package of each key, in order. */
  function Dedupe(packages: seq<Package>): seq<Package> {
    if packages == [] then []
    else
      var before, p := Dedupe(packages[..|packages| - 1]), packages[|packages| - 1];
      if exists q | q in before :: Key(q) == Key(p) then before else before + [p]
  }

  function TrimAll(packages: seq<Package>): (r: seq<Package>)
    ensures |r| == |packages| && forall i | 0 <= i < |r| :: r[i] == Trimmed(packages[i])
  {
    seq(|packages|, i requires 0 <= i < |packages| => Trimmed(packages[i]))
  }

  predicate AllComplete(packages: seq<Package>) { forall p | p in packages :: Complete(p) }

  /** Different packages have different keys. */
  predicate ToldApart(packages: seq<Package>) {
    forall p, q | p in packages && q in packages && Key(p) == Key(q) :: p == q
  }

  function Canonical(less: (string, string) -> bool, packages: seq<Package>): seq<Package> {
    Sort(Order(less), Dedupe(TrimAll(packages)))
  }

  function Stable(less: (string, string) -> bool, packages: seq<Package>): Option<seq<Package>> {
    if AllComplete(TrimAll(packages)) then Some(Canonical(less, packages)) else None
  }

  lemma KeyInjective(p: Package, q: Package)
    requires NUL !in p.name && NUL !in q.name && Key(p) == Key(q)
    ensures p == q
  {
    SplitAt(NUL, p.name, p.version, q.name, q.version);
  }

  predicate NamesWithoutNul(packages: seq<Package>) { forall p | p in packages :: NUL !in p.name }

  lemma NamesTellApart(packages: seq<Package>)
    requires NamesWithoutNul(packages)
    ensures ToldApart(packages)
  {
    forall p, q | p in packages && q in packages && Key(p) == Key(q) ensures p == q { KeyInjective(p, q); }
  }

  lemma DedupeNext(front: seq<Package>, p: Package)
    ensures var before := Dedupe(front);
            Dedupe(front + [p]) == if exists q | q in before :: Key(q) == Key(p) then before else before + [p]
  {
    assert (front + [p])[..|front|] == front;
  }

  lemma {:induction false} TrimStartDrops(s: string, c: char)
    requires c !in s
    ensures c !in TrimStart(s)
  {
    if s != "" && IsSpace(s[0]) { TrimStartDrops(s[1..], c); }
  }

  lemma {:induction false} TrimEndDrops(s: string, c: char)
    requires c !in s
    ensures c !in TrimEnd(s)
  {
    if s != "" && IsSpace(s[|s| - 1]) { TrimEndDrops(s[..|s| - 1], c); }
  }

  lemma TrimmedWithoutNul(packages: seq<Package>)
    requires NamesWithoutNul(packages)
    ensures NamesWithoutNul(TrimAll(packages))
  {
    forall p | p in TrimAll(packages) ensures NUL !in p.name {
      var i :| 0 <= i < |packages| && TrimAll(packages)[i] == p;
      assert packages[i] in packages;
      TrimStartDrops(packages[i].name, NUL);
      TrimEndDrops(TrimStart(packages[i].name), NUL);
    }
  }

  /** One package of every key is left. */
  lemma {:induction false} DedupeKeys(packages: seq<Package>)
    ensures Distinct(Dedupe(packages)) && ToldApart(Dedupe(packages))
    ensures forall p | p in Dedupe(packages) :: p in packages
  {
    hide Key;
    if packages != [] {
      var front, p := packages[..|packages| - 1], packages[|packages| - 1];
      assert packages == front + [p];
      DedupeKeys(front);
      var before := Dedupe(front);
      assert forall i | 0 <= i < |before| :: before[i] in before;
    }
  }

  lemma {:induction false} DedupeCovers(packages: seq<Package>, p: Package)
    requires p in packages
    ensures exists q | q in Dedupe(packages) :: Key(q) == Key(p)
  {
    hide Key, Dedupe;
    var front, last := packages[..|packages| - 1], packages[|packages| - 1];
    assert packages == front + [last];
    DedupeNext(front, last);
    var before := Dedupe(front);
    if p in front {
      DedupeCovers(front, p);
      var q :| q in before && Key(q) == Key(p);
      assert q in Dedupe(packages);
    } else if exists q | q in before :: Key(q) == Key(p) {
    } else {
      assert Dedupe(packages)[|before|] == p;
    }
  }

  /** Deduplication keeps every package exactly when keys tell them apart. */
  lemma DedupeMembers(packages: seq<Package>)
    ensures (forall p :: p in Dedupe(packages) <==> p in packages) <==> ToldApart(packages)
  {
    DedupeKeys(packages);
    if ToldApart(packages) {
      forall p | p in packages ensures p in Dedupe(packages) {
        DedupeCovers(packages, p);
      }
    }
  }

  lemma {:induction false} DedupeAgain(packages: seq<Package>)
    requires Distinct(packages) && ToldApart(packages)
    ensures Dedupe(packages) == packages
  {
    if packages != [] {
      var front, p := packages[..|packages| - 1], packages[|packages| - 1];
      assert packages == front + [p];
      assert forall q | q in front :: q in packages && q != p;
      DedupeAgain(front);
    }
  }

  lemma ToldApartPart(a: seq<Package>, b: seq<Package>)
    requires ToldApart(b) && forall p | p in a :: p in b
    ensures ToldApart(a)
  {
  }

  lemma TrimTwice(s: string)
    ensures Trim(Trim(s)) == Trim(s)
  {
    TrimStartFirst(s);
    if TrimStart(s) != "" {
      TrimKeepsFirst(TrimStart(s));
      TrimEndLast(TrimStart(s));
      TrimFixed(Trim(s));
    }
  }

  lemma {:induction false} TrimStartFirst(s: string)
    ensures TrimStart(s) != "" ==> !IsSpace(TrimStart(s)[0])
  {
    if s != "" && IsSpace(s[0]) { TrimStartFirst(s[1..]); }
  }

  lemma {:induction false} TrimEndLast(s: string)
    ensures TrimEnd(s) != "" ==> !IsSpace(TrimEnd(s)[|TrimEnd(s)| - 1])
  {
    if s != "" && IsSpace(s[|s| - 1]) { TrimEndLast(s[..|s| - 1]); }
  }

  lemma TrimmedAgain(packages: seq<Package>, p: Package)
    requires p in TrimAll(packages)
    ensures Trimmed(p) == p
  {
    var k :| 0 <= k < |packages| && p == Trimmed(packages[k]);
    TrimTwice(packages[k].name);
    TrimTwice(packages[k].version);
  }

  /** The canonical form is strictly ordered and holds nothing but trimmed packages, and all of them exactly when
      their keys tell them apart. */
  lemma CanonicalForm(less: (string, string) -> bool, packages: seq<Package>)
    requires Collation(less)
    ensures StrictlySorted(Order(less), Canonical(less, packages))
    ensures forall p | p in Canonical(less, packages) :: p in TrimAll(packages)
    ensures (forall p :: p in Canonical(less, packages) <==> p in TrimAll(packages)) <==> ToldApart(TrimAll(packages))
  {
    OrderStrict(less);
    DedupeKeys(TrimAll(packages));
    DedupeMembers(TrimAll(packages));
    SortStrictlySorted(Order(less), Dedupe(TrimAll(packages)));
    SameMembers(Canonical(less, packages), Dedupe(TrimAll(packages)));
  }

  ghost predicate SameTrimmed(a: seq<Package>, b: seq<Package>) { forall p :: p in TrimAll(a) <==> p in TrimAll(b) }

  lemma CanonicalOfSet(less: (string, string) -> bool, a: seq<Package>, b: seq<Package>)
    requires Collation(less) && ToldApart(TrimAll(a)) && SameTrimmed(a, b)
    ensures Stable(less, a) == Stable(less, b)
  {
    CanonicalForm(less, a);
    CanonicalForm(less, b);
    OrderStrict(less);
    StrictlySortedUnique(Order(less), Canonical(less, a), Canonical(less, b));
  }

  /** An inventory without one of its packages holds it instead of another when it is listed first. */
  lemma FirstListedStays(less: (string, string) -> bool, a: seq<Package>, p: Package)
    requires Collation(less) && p in TrimAll(a) && p !in Canonical(less, a)
    ensures SameTrimmed(a, [p] + a) && p in Canonical(less, [p] + a)
  {
    hide Dedupe, Trimmed;
    TrimmedAgain(a, p);
    var b := [p] + a;
    assert TrimAll(b) == [p] + TrimAll(a);
    FirstStays(p, TrimAll(a));
    SameMembers(Canonical(less, b), Dedupe(TrimAll(b)));
  }

  lemma {:induction false} FirstStays(p: Package, packages: seq<Package>)
    ensures p in Dedupe([p] + packages)
  {
    if packages == [] {
      assert ([p] + packages)[..0] == [];
    } else {
      FirstStays(p, packages[..|packages| - 1]);
      assert ([p] + packages)[..|packages|] == [p] + packages[..|packages| - 1];
    }
  }

  /** The inventory depends only on the set of trimmed packages, exactly when their keys tell them apart. */
  lemma DependsOnSetOnly(less: (string, string) -> bool, a: seq<Package>)
    requires Collation(less) && AllComplete(TrimAll(a))
    ensures (forall b | SameTrimmed(a, b) :: Stable(less, b) == Stable(less, a)) <==> ToldApart(TrimAll(a))
  {
    hide ToldApart, TrimAll, Canonical, AllComplete;
    if ToldApart(TrimAll(a)) {
      forall b | SameTrimmed(a, b) ensures Stable(less, b) == Stable(less, a) { CanonicalOfSet(less, a, b); }
    } else {
      CanonicalForm(less, a);
      var p :| p in TrimAll(a) && p !in Canonical(less, a);
      FirstListedStays(less, a, p);
      assert SameTrimmed(a, [p] + a) && Stable(less, [p] + a) != Stable(less, a);
    }
  }

  /** Applying it again changes nothing, whatever the packages. */
  lemma StableIdempotent(less: (string, string) -> bool, packages: seq<Package>)
    requires Collation(less) && Stable(less, packages).Some?
    ensures Stable(less, Stable(less, packages).value) == Stable(less, packages)
  {
    var once := Stable(less, packages).value;
    CanonicalForm(less, packages);
    StableTrimmed(less, packages);
    OrderStrict(less);
    DedupeKeys(TrimAll(packages));
    SameMembers(once, Dedupe(TrimAll(packages)));
    DedupeAgain(once);
    SortFixpoint(Order(less), once);
  }

  lemma StableTrimmed(less: (string, string) -> bool, packages: seq<Package>)
    requires Collation(less) && Stable(less, packages).Some?
    ensures TrimAll(Stable(less, packages).value) == Stable(less, packages).value
    ensures forall p | p in Stable(less, packages).value :: p in TrimAll(packages)
  {
    var once := Stable(less, packages).value;
    CanonicalForm(less, packages);
    forall i | 0 <= i < |once| ensures TrimAll(once)[i] == once[i] {
      assert once[i] in TrimAll(packages);
      TrimmedAgain(packages, once[i]);
    }
  }

  function KeysOf(packages: seq<Package>): set<string> { set q | q in packages :: Key(q) }

  lemma DedupeStep(packages: seq<Package>, i: nat)
    requires i < |packages|
    ensures packages[..i + 1] == packages[..i] + [packages[i]]
    ensures var before := Dedupe(packages[..i]);
            Dedupe(packages[..i + 1])
            == if Key(packages[i]) in KeysOf(before) then before else before + [packages[i]]
  {
    assert packages[..i + 1][..i] == packages[..i];
  }

  lemma KeysExtend(packages: seq<Package>, p: Package)
    ensures KeysOf(packages + [p]) == KeysOf(packages) + {Key(p)}
  {
    forall k | k in KeysOf(packages) + {Key(p)} ensures k in KeysOf(packages + [p]) {
      assert (packages + [p])[|packages|] == p;
      if k != Key(p) {
        var q :| q in packages && Key(q) == k;
        assert q in packages + [p];
      }
    }
  }

  /** One pass that trims, refuses incomplete entries and skips known keys. */
  method CollectDistinct(packages: seq<Package>) returns (r: Option<seq<Package>>)
    ensures r == if AllComplete(TrimAll(packages)) then Some(Dedupe(TrimAll(packages))) else None
  {
    hide Complete, Key, Trim, Dedupe, KeysOf;
    var keys: set<string> := {};
    var inventory: seq<Package> := [];
    ghost var trimmed := TrimAll(packages);
    EmptyDedupe();
    for i := 0 to |packages|
      invariant inventory == Dedupe(trimmed[..i]) && keys == KeysOf(inventory)
      invariant forall k | 0 <= k < i :: Complete(trimmed[k])
    {
      var p := Trimmed(packages[i]);
      DedupeStep(trimmed, i);
      if !Complete(p) {
        assert trimmed[i] == p;
        return None;
      }
      if Key(p) !in keys {
        KeysExtend(inventory, p);
        keys := keys + {Key(p)};
        inventory := inventory + [p];
      }
    }
    assert trimmed[..|packages|] == trimmed;
    r := Some(inventory);
  }

  lemma EmptyDedupe()
    ensures Dedupe([]) == [] && KeysOf([]) == {}
  {
  }

  /** The canonical form as the source computes it: collect, then sort. */
  method StableInventory(less: (string, string) -> bool, packages: seq<Package>) returns (r: Option<seq<Package>>)
    ensures r == Stable(less, packages)
  {
    var distinct := CollectDistinct(packages);
    r := if distinct.None? then None else Some(Sort(Order(less), distinct.value));
  }

  // ---------------------------------------------------------------- producer and validator

  datatype Manifest = Manifest(
    surfaces: seq<seq<Package>>, production: seq<Package>, runtime: seq<Package>,
    dependencies: seq<Package>, electron: Package)

  predicate FirstParty(name: string) { "@doolittle/" <= name || name == "doolittle" }

  function ThirdParty(packages: seq<Package>): (r: seq<Package>)
    ensures forall p :: p in r <==> p in packages && !FirstParty(p.name)
  {
    if packages == [] then []
    else
      var front, p := packages[..|packages| - 1], packages[|packages| - 1];
      assert packages == front + [p];
      ThirdParty(front) + if FirstParty(p.name) then [] else [p]
  }

  function Flatten(surfaces: seq<seq<Package>>): (r: seq<Package>)
    ensures forall p :: p in r <==> exists s | s in surfaces :: p in s
  {
    if surfaces == [] then []
    else
      var front, s := surfaces[..|surfaces| - 1], surfaces[|surfaces| - 1];
      assert surfaces == front + [s];
      Flatten(front) + s
  }

  /** The values of a map filled in order: a later package takes the place of the one with its key. */
  function MapValues(packages: seq<Package>): seq<Package> {
    if packages == [] then []
    else
      var before, p := MapValues(packages[..|packages| - 1]), packages[|packages| - 1];
      if exists q | q in before :: Key(q) == Key(p) then Replaced(before, p) else before + [p]
  }

  function Replaced(packages: seq<Package>, p: Package): seq<Package> {
    if packages == [] then []
    else if Key(packages[0]) == Key(p) then [p] + packages[1..]
    else [packages[0]] + Replaced(packages[1..], p)
  }

  lemma {:induction false} ReplacedSame(packages: seq<Package>, p: Package)
    requires forall q | q in packages && Key(q) == Key(p) :: q == p
    ensures Replaced(packages, p) == packages
  {
    if packages != [] && Key(packages[0]) != Key(p) { ReplacedSame(packages[1..], p); }
  }

  lemma {:induction false} MapValuesDedupe(packages: seq<Package>)
    requires ToldApart(packages)
    ensures MapValues(packages) == Dedupe(packages)
  {
    hide Key, Replaced;
    if packages != [] {
      var front, p := packages[..|packages| - 1], packages[|packages| - 1];
      assert packages == front + [p];
      ToldApartPart(front, packages);
      MapValuesDedupe(front);
      DedupeKeys(front);
      assert p in packages && forall q | q in Dedupe(front) :: q in packages;
      ReplacedSame(Dedupe(front), p);
    }
  }

  /** The packages of all build surfaces, once each. */
  function SurfacePackages(less: (string, string) -> bool, surfaces: seq<seq<Package>>): seq<Package> {
    Sort(Order(less), MapValues(Flatten(surfaces)))
  }

  /** What the build inventory check guarantees of a surface. */
  ghost predicate ValidSurface(less: (string, string) -> bool, packages: seq<Package>) {
    StrictlySorted(Order(less), packages) && AllComplete(packages)
  }

  function Merged(less: (string, string) -> bool, surface: seq<Package>, production: seq<Package>,
                  runtime: seq<Package>, electron: Package): Option<seq<Package>>
  {
    Stable(less, ThirdParty(surface + production + runtime + [electron]))
  }

  /** The manifest the producer assembles, or nothing when an inventory entry is incomplete. */
  function Produce(less: (string, string) -> bool, surfaces: seq<seq<Package>>, installed: seq<Package>,
                   bundled: seq<Package>, native: seq<Package>, electronVersion: string): Option<Manifest>
  {
    var production, runtime := Stable(less, installed), Stable(less, bundled + native);
    var electron := Package("electron", electronVersion);
    if production.None? || runtime.None? then None
    else
      var surface := ThirdParty(SurfacePackages(less, surfaces));
      var dependencies := Merged(less, surface, production.value, runtime.value, electron);
      if dependencies.None? then None
      else Some(Manifest(surfaces, production.value, runtime.value, dependencies.value, electron))
  }

  predicate IsStable(less: (string, string) -> bool, packages: seq<Package>) {
    Stable(less, packages) == Some(packages)
  }

  /** The inventory checks of the validator. */
  predicate Accepts(less: (string, string) -> bool, m: Manifest) {
    && (forall s | s in m.surfaces :: Sort(Order(less), s) == s)
    && IsStable(less, m.production) && IsStable(less, m.runtime) && IsStable(less, m.dependencies)
    && Merged(less, Flatten(m.surfaces), m.production, m.runtime, m.electron) == Some(m.dependencies)
  }

  lemma TrimAllMembers(a: seq<Package>, b: seq<Package>)
    requires forall p | p in a :: p in b
    ensures forall p | p in TrimAll(a) :: p in TrimAll(b)
  {
    forall p | p in TrimAll(a) ensures p in TrimAll(b) {
      var i :| 0 <= i < |a| && TrimAll(a)[i] == p;
      assert a[i] in b;
      var k :| 0 <= k < |b| && b[k] == a[i];
      assert TrimAll(b)[k] == p;
    }
  }

  lemma SurfaceMembers(less: (string, string) -> bool, surfaces: seq<seq<Package>>)
    requires ToldApart(Flatten(surfaces))
    ensures forall p :: p in SurfacePackages(less, surfaces) <==> p in Flatten(surfaces)
  {
    MapValuesDedupe(Flatten(surfaces));
    DedupeMembers(Flatten(surfaces));
    SameMembers(SurfacePackages(less, surfaces), Dedupe(Flatten(surfaces)));
  }

  /** The producer filters and deduplicates surface packages before merging; the validator does not. Where keys
      tell packages apart the merged inventory is the same. */
  lemma ToldApartMerged(less: (string, string) -> bool, surfaces: seq<seq<Package>>, production: seq<Package>,
                        runtime: seq<Package>, electronVersion: string)
    requires Collation(less) && ToldApart(Flatten(surfaces))
    requires ToldApart(TrimAll(Inputs(surfaces, production, runtime, electronVersion)))
    ensures Stable(less, ProducerList(less, surfaces, production, runtime, electronVersion))
            == Stable(less, ValidatorList(surfaces, production, runtime, electronVersion))
  {
    SurfaceMembers(less, surfaces);
    var all := Inputs(surfaces, production, runtime, electronVersion);
    var a := ProducerList(less, surfaces, production, runtime, electronVersion);
    var b := ValidatorList(surfaces, production, runtime, electronVersion);
    assert forall p :: p in a <==> p in b;
    TrimAllMembers(a, b);
    TrimAllMembers(b, a);
    TrimAllMembers(a, all);
    ToldApartPart(TrimAll(a), TrimAll(all));
    CanonicalOfSet(less, a, b);
  }

  /** `p` is the first package of its key. */
  predicate Leads(packages: seq<Package>, p: Package) {
    exists i | 0 <= i < |packages| :: packages[i] == p && forall j | 0 <= j < i :: Key(packages[j]) != Key(p)
  }

  lemma {:induction false} DedupeLeads(packages: seq<Package>, p: Package)
    ensures p in Dedupe(packages) <==> Leads(packages, p)
  {
    hide Key, Dedupe;
    if packages == [] {
      EmptyDedupe();
    } else {
      var front, last := packages[..|packages| - 1], packages[|packages| - 1];
      assert packages == front + [last];
      DedupeNext(front, last);
      DedupeLeads(front, p);
      DedupeKeys(front);
      forall q | q in front ensures exists d | d in Dedupe(front) :: Key(d) == Key(q) { DedupeCovers(front, q); }
      LeadsNext(front, last, p);
    }
  }

  lemma LeadsNext(front: seq<Package>, last: Package, p: Package)
    ensures Leads(front + [last], p) <==> Leads(front, p) || (p == last && forall q | q in front :: Key(q) != Key(p))
  {
    hide Key;
    var all := front + [last];
    if Leads(front, p) {
      var i :| 0 <= i < |front| && front[i] == p && forall j | 0 <= j < i :: Key(front[j]) != Key(p);
      assert all[i] == p;
    }
    if p == last && forall q | q in front :: Key(q) != Key(p) { assert all[|front|] == p; }
    if Leads(all, p) {
      var i :| 0 <= i < |all| && all[i] == p && forall j | 0 <= j < i :: Key(all[j]) != Key(p);
      if i < |front| {
        assert front[i] == p && forall j | 0 <= j < i :: front[j] == all[j];
      } else {
        forall q | q in front ensures Key(q) != Key(p) {
          var j :| 0 <= j < |front| && front[j] == q;
          assert all[j] == q;
        }
      }
    }
  }

  ghost predicate SameFirsts(a: seq<Package>, b: seq<Package>) { forall p :: Leads(a, p) <==> Leads(b, p) }

  /** Two lists have the same inventory exactly when both meet the same package of every key first. */
  lemma SameInventory(less: (string, string) -> bool, a: seq<Package>, b: seq<Package>)
    requires Collation(less)
    ensures Canonical(less, a) == Canonical(less, b) <==> SameFirsts(TrimAll(a), TrimAll(b))
  {
    hide Leads, Dedupe, TrimAll;
    CanonicalForm(less, a);
    CanonicalForm(less, b);
    SameMembers(Canonical(less, a), Dedupe(TrimAll(a)));
    SameMembers(Canonical(less, b), Dedupe(TrimAll(b)));
    forall p ensures p in Canonical(less, a) <==> Leads(TrimAll(a), p) { DedupeLeads(TrimAll(a), p); }
    forall p ensures p in Canonical(less, b) <==> Leads(TrimAll(b), p) { DedupeLeads(TrimAll(b), p); }
    if SameFirsts(TrimAll(a), TrimAll(b)) {
      OrderStrict(less);
      StrictlySortedUnique(Order(less), Canonical(less, a), Canonical(less, b));
    }
  }

  /** What the producer merges, and what the validator does. */
  function ProducerList(less: (string, string) -> bool, surfaces: seq<seq<Package>>, production: seq<Package>,
                        runtime: seq<Package>, electronVersion: string): seq<Package>
  {
    ThirdParty(ThirdParty(SurfacePackages(less, surfaces)) + production + runtime
               + [Package("electron", electronVersion)])
  }

  function ValidatorList(surfaces: seq<seq<Package>>, production: seq<Package>, runtime: seq<Package>,
                         electronVersion: string): seq<Package>
  {
    ThirdParty(Flatten(surfaces) + production + runtime + [Package("electron", electronVersion)])
  }

  /** Everything the merged inventory is made from. */
  function Inputs(surfaces: seq<seq<Package>>, installed: seq<Package>, runtime: seq<Package>,
                  electronVersion: string): seq<Package>
  {
    Flatten(surfaces) + installed + runtime + [Package("electron", electronVersion)]
  }

  /** Producer and validator merge the same inventory exactly when, trimmed, both lists are complete or neither is,
      and complete ones meet the same package of every key first. */
  lemma MergedAgrees(less: (string, string) -> bool, surfaces: seq<seq<Package>>, production: seq<Package>,
                     runtime: seq<Package>, electronVersion: string)
    requires Collation(less)
    ensures var a := ProducerList(less, surfaces, production, runtime, electronVersion);
            var b := ValidatorList(surfaces, production, runtime, electronVersion);
            Stable(less, a) == Stable(less, b) <==>
              && (AllComplete(TrimAll(a)) <==> AllComplete(TrimAll(b)))
              && (AllComplete(TrimAll(a)) ==> SameFirsts(TrimAll(a), TrimAll(b)))
  {
    hide Canonical, ProducerList, ValidatorList, TrimAll, AllComplete, SameFirsts;
    SameInventory(less, ProducerList(less, surfaces, production, runtime, electronVersion),
                  ValidatorList(surfaces, production, runtime, electronVersion));
  }

  /** The condition on the inputs: trimmed, the validator's list of them is complete and meets the same package of
      every key first as the producer's. */
  ghost predicate Agreeing(less: (string, string) -> bool, surfaces: seq<seq<Package>>, installed: seq<Package>,
                           runtime: seq<Package>, electronVersion: string)
    requires Stable(less, installed).Some? && Stable(less, runtime).Some?
  {
    var production, bundled := Stable(less, installed).value, Stable(less, runtime).value;
    var a := TrimAll(ProducerList(less, surfaces, production, bundled, electronVersion));
    var b := TrimAll(ValidatorList(surfaces, production, bundled, electronVersion));
    AllComplete(b) && SameFirsts(a, b)
  }

  /** A manifest the producer assembles from valid surfaces passes the validator's inventory checks exactly when
      its inputs agree in this sense; they do whenever their keys tell the packages apart, as they always do
      when no name holds a NUL. */
  lemma ProducedIsAccepted(less: (string, string) -> bool, surfaces: seq<seq<Package>>, installed: seq<Package>,
                           bundled: seq<Package>, native: seq<Package>, electronVersion: string)
    requires Collation(less) && forall s | s in surfaces :: ValidSurface(less, s)
    requires Produce(less, surfaces, installed, bundled, native, electronVersion).Some?
    ensures var m := Produce(less, surfaces, installed, bundled, native, electronVersion).value;
            var inputs := Inputs(surfaces, installed, bundled + native, electronVersion);
            && (Accepts(less, m) <==> Agreeing(less, surfaces, installed, bundled + native, electronVersion))
            && (ToldApart(Flatten(surfaces)) && ToldApart(TrimAll(inputs)) ==> Accepts(less, m))
            && (NamesWithoutNul(inputs) ==> Accepts(less, m))
  {
    hide Canonical, SurfacePackages, Flatten, ThirdParty, Sort, Order, TrimAll, AllComplete, SameFirsts, ToldApart,
         Inputs, NamesWithoutNul;
    var m := Produce(less, surfaces, installed, bundled, native, electronVersion).value;
    var inputs := Inputs(surfaces, installed, bundled + native, electronVersion);
    StableIdempotent(less, installed);
    StableIdempotent(less, bundled + native);
    StableIdempotent(less, ProducerList(less, surfaces, m.production, m.runtime, electronVersion));
    MergedAgrees(less, surfaces, m.production, m.runtime, electronVersion);
    forall s | s in surfaces ensures Sort(Order(less), s) == s { SurfaceSorted(less, s); }
    if NamesWithoutNul(inputs) { InputsWithoutNul(surfaces, installed, bundled + native, electronVersion); }
    if ToldApart(Flatten(surfaces)) && ToldApart(TrimAll(inputs)) {
      InputsToldApart(less, surfaces, installed, bundled + native, electronVersion);
      ToldApartMerged(less, surfaces, m.production, m.runtime, electronVersion);
    }
  }

  lemma InputsWithoutNul(surfaces: seq<seq<Package>>, installed: seq<Package>, runtime: seq<Package>,
                         electronVersion: string)
    requires NamesWithoutNul(Inputs(surfaces, installed, runtime, electronVersion))
    ensures ToldApart(Flatten(surfaces)) && ToldApart(TrimAll(Inputs(surfaces, installed, runtime, electronVersion)))
  {
    var inputs := Inputs(surfaces, installed, runtime, electronVersion);
    assert forall p | p in Flatten(surfaces) :: p in inputs;
    NamesTellApart(Flatten(surfaces));
    TrimmedWithoutNul(inputs);
    NamesTellApart(TrimAll(inputs));
  }

  lemma InputsToldApart(less: (string, string) -> bool, surfaces: seq<seq<Package>>, installed: seq<Package>,
                        runtime: seq<Package>, electronVersion: string)
    requires Collation(less) && Stable(less, installed).Some? && Stable(less, runtime).Some?
    requires ToldApart(TrimAll(Inputs(surfaces, installed, runtime, electronVersion)))
    ensures ToldApart(TrimAll(Inputs(surfaces, Stable(less, installed).value, Stable(less, runtime).value,
                                     electronVersion)))
  {
    hide Stable, ToldApart;
    var production, bundled := Stable(less, installed).value, Stable(less, runtime).value;
    StableTrimmed(less, installed);
    StableTrimmed(less, runtime);
    var a := TrimAll(Inputs(surfaces, production, bundled, electronVersion));
    var b := TrimAll(Inputs(surfaces, installed, runtime, electronVersion));
    forall p | p in a ensures p in b { StableInput(less, surfaces, installed, runtime, electronVersion, p); }
    ToldApartPart(a, b);
  }

  lemma StableInput(less: (string, string) -> bool, surfaces: seq<seq<Package>>, installed: seq<Package>,
                    runtime: seq<Package>, electronVersion: string, p: Package)
    requires Collation(less) && Stable(less, installed).Some? && Stable(less, runtime).Some?
    requires p in TrimAll(Inputs(surfaces, Stable(less, installed).value, Stable(less, runtime).value, electronVersion))
    ensures p in TrimAll(Inputs(surfaces, installed, runtime, electronVersion))
  {
    hide Stable;
    var production, bundled := Stable(less, installed).value, Stable(less, runtime).value;
    var a := Inputs(surfaces, production, bundled, electronVersion);
    var b := Inputs(surfaces, installed, runtime, electronVersion);
    var i :| 0 <= i < |a| && TrimAll(a)[i] == p;
    StableTrimmed(less, installed);
    StableTrimmed(less, runtime);
    TrimAllMembers(installed, b);
    TrimAllMembers(runtime, b);
    if a[i] in production {
      var k :| 0 <= k < |production| && production[k] == a[i];
      assert TrimAll(production)[k] == p;
    } else if a[i] in bundled {
      var k :| 0 <= k < |bundled| && bundled[k] == a[i];
      assert TrimAll(bundled)[k] == p;
    } else {
      assert a[i] in b;
      var k :| 0 <= k < |b| && b[k] == a[i];
      assert TrimAll(b)[k] == p;
    }
  }

  lemma SurfaceSorted(less: (string, string) -> bool, packages: seq<Package>)
    requires Collation(less) && ValidSurface(less, packages)
    ensures Sort(Order(less), packages) == packages
  {
    OrderStrict(less);
    SortFixpoint(Order(less), packages);
  }

  /** An accepted manifest lists each of its dependencies once and nothing but third-party packages that its
      parts name, and all of them exactly when the keys tell them apart. */
  lemma AcceptedListsEverything(less: (string, string) -> bool, m: Manifest)
    requires Collation(less) && Accepts(less, m)
    ensures var all := TrimAll(ThirdParty(Flatten(m.surfaces) + m.production + m.runtime + [m.electron]));
            && Distinct(m.dependencies) && (forall p | p in m.dependencies :: p in all)
            && ((forall p :: p in m.dependencies <==> p in all) <==> ToldApart(all))
  {
    CanonicalForm(less, ThirdParty(Flatten(m.surfaces) + m.production + m.runtime + [m.electron]));
    OrderStrict(less);
  }

  const FIRST := Package("a", "b" + [NUL] + "c")
  const SECOND := Package("a" + [NUL] + "b", "c")

  lemma SharedParts()
    ensures Key(FIRST) == Key(SECOND) && FIRST != SECOND
    ensures Trimmed(FIRST) == FIRST && Trimmed(SECOND) == SECOND && Complete(FIRST) && Complete(SECOND)
    ensures !FirstParty(FIRST.name) && !FirstParty(SECOND.name)
  {
    assert Key(FIRST) == ['a', NUL, 'b', NUL, 'c'] == Key(SECOND);
    TrimFixed(FIRST.name);
    TrimFixed(FIRST.version);
    TrimFixed(SECOND.name);
    TrimFixed(SECOND.version);
  }

  lemma {:induction false} ThirdPartyAll(packages: seq<Package>)
    requires forall p | p in packages :: !FirstParty(p.name)
    ensures ThirdParty(packages) == packages
  {
    if packages != [] {
      var front, p := packages[..|packages| - 1], packages[|packages| - 1];
      assert packages == front + [p];
      ThirdPartyAll(front);
    }
  }

  lemma LastValue(p: Package, q: Package)
    requires Key(p) == Key(q)
    ensures MapValues([p, q]) == [q]
  {
    assert [p, q][..1] == [p] && [p][..0] == [];
    assert MapValues([p]) == [p];
  }

  lemma SharedSurfaces(less: (string, string) -> bool)
    ensures Flatten([[FIRST], [SECOND]]) == [FIRST, SECOND]
    ensures SurfacePackages(less, [[FIRST], [SECOND]]) == [SECOND]
  {
    hide Key, FIRST, SECOND;
    SharedParts();
    LastValue(FIRST, SECOND);
    assert [[FIRST], [SECOND]][..1] == [[FIRST]] && [[FIRST]][..0] == [];
    assert Flatten([[FIRST]]) == [FIRST];
    assert [SECOND][..0] == [];
  }

  /** The merged inventory of the producer and the one the validator recomputes. */
  lemma SharedMerged(less: (string, string) -> bool, electron: Package)
    requires Collation(less) && electron == Package("electron", "1")
    ensures FIRST !in Canonical(less, [SECOND, electron]) && FIRST in Canonical(less, [FIRST, SECOND, electron])
    ensures AllComplete(TrimAll([SECOND, electron]))
  {
    hide Key, Canonical, Trim, Dedupe;
    var a, b := [SECOND, electron], [FIRST, SECOND, electron];
    SharedParts();
    TrimFixed("electron");
    TrimFixed("1");
    assert TrimAll(a) == a && TrimAll(b) == b;
    CanonicalForm(less, a);
    FirstInCanonical(less, FIRST, a);
    assert b == [FIRST] + a;
  }

  lemma FirstInCanonical(less: (string, string) -> bool, p: Package, packages: seq<Package>)
    requires TrimAll([p] + packages) == [p] + packages
    ensures p in Canonical(less, [p] + packages)
  {
    FirstStays(p, packages);
    SameMembers(Canonical(less, [p] + packages), Dedupe([p] + packages));
  }

  /** Two surfaces whose packages share a key: the producer keeps the second one, the validator expects the
      first, and the manifest just assembled is refused. */
  lemma SharedKeyExample(less: (string, string) -> bool)
    requires Collation(less)
    ensures Key(FIRST) == Key(SECOND)
    ensures var m := Produce(less, [[FIRST], [SECOND]], [], [], [], "1"); m.Some? && !Accepts(less, m.value)
  {
    hide Key, Canonical, FIRST, SECOND, SurfacePackages, Flatten, AllComplete, ThirdParty;
    var electron := Package("electron", "1");
    SharedParts();
    SharedSurfaces(less);
    SharedMerged(less, electron);
    assert !FirstParty(electron.name);
    ThirdPartyAll([SECOND]);
    ThirdPartyAll([SECOND, electron]);
    ThirdPartyAll([FIRST, SECOND, electron]);
    EmptyStable(less);
    assert [SECOND] + [] + [] + [electron] == [SECOND, electron];
    assert [FIRST, SECOND] + [] + [] + [electron] == [FIRST, SECOND, electron];
  }

  /** Two lists of the same two packages in different order have different inventories. */
  lemma OrderExample(less: (string, string) -> bool)
    requires Collation(less)
    ensures SameTrimmed([FIRST, SECOND], [SECOND, FIRST])
    ensures Stable(less, [FIRST, SECOND]) != Stable(less, [SECOND, FIRST])
    ensures exists p | p in TrimAll([FIRST, SECOND]) :: p !in Canonical(less, [FIRST, SECOND])
  {
    hide Key, Canonical, FIRST, SECOND;
    SharedParts();
    var a, b := [FIRST, SECOND], [SECOND, FIRST];
    assert TrimAll(a) == a && TrimAll(b) == b;
    assert a == [FIRST] + [SECOND] && b == [SECOND] + [FIRST];
    assert FIRST in a && SECOND in a && FIRST in b && SECOND in b;
    FirstInCanonical(less, FIRST, [SECOND]);
    FirstInCanonical(less, SECOND, [FIRST]);
    OneOfKey(less, a);
    assert SECOND !in Canonical(less, a);
    assert AllComplete(a) && AllComplete(b);
  }

  lemma OneOfKey(less: (string, string) -> bool, packages: seq<Package>)
    ensures ToldApart(Canonical(less, packages))
  {
    DedupeKeys(TrimAll(packages));
    SameMembers(Canonical(less, packages), Dedupe(TrimAll(packages)));
  }

  lemma EmptyStable(less: (string, string) -> bool)
    ensures Stable(less, []) == Some([]) && Stable(less, [] + []) == Some([])
  {
    assert TrimAll([]) == [];
  }

}
