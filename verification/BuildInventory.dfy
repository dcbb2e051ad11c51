/**
 The package inventory of one build surface: which packages the bundler rendered, and how many bytes of each.
 The validator compares neighbours only; that is enough for the strict order the artifact manifest relies on.
 */
module BuildInventory {
  import opened ArtifactInventory
  import opened Prelude
  import opened Sorting

  /** What the path of a module leads to: no package, a package without manifest, or what its manifest says. */
  datatype Identity = NoPackage | NoManifest | Named(name: string, version: string)

  datatype Module = Module(identity: Identity, rendered: int)

  datatype Rendered = Rendered(package: Package, bytes: int)

  /** Nothing rendered and no package are skipped; a package without a proper identity is refused. */
  function Inventoried(m: Module): Result<Option<Rendered>, Identity> {
    if m.rendered <= 0 || m.identity.NoPackage? then Ok(None)
    else if m.identity.NoManifest? || m.identity.name == "" || m.identity.version == "" then Err(m.identity)
    else Ok(Some(Rendered(Package(m.identity.name, m.identity.version), m.rendered)))
  }

  ghost predicate AllIdentified(modules: seq<Module>) { forall m | m in modules :: Inventoried(m).Ok? }

  function Entries(modules: seq<Module>): seq<Rendered>
    requires AllIdentified(modules)
  {
    if modules == [] then []
    else
      var front, m := modules[..|modules| - 1], modules[|modules| - 1];
      assert modules == front + [m];
      var entry := Inventoried(m).value;
      Entries(front) + if entry.Some? then [entry.value] else []
  }

  // ---------------------------------------------------------------- totals

  /** The value of a map at the entry's key becomes the entry with the bytes of both. */
  function Add(totals: seq<Rendered>, entry: Rendered): seq<Rendered> {
    if totals == [] then [entry]
    else if Key(totals[0].package) == Key(entry.package) then
      [Rendered(entry.package, totals[0].bytes + entry.bytes)] + totals[1..]
    else [totals[0]] + Add(totals[1..], entry)
  }

  function Totals(entries: seq<Rendered>): seq<Rendered> {
    if entries == [] then [] else Add(Totals(entries[..|entries| - 1]), entries[|entries| - 1])
  }

  /** The bytes rendered for one key. */
  function BytesOf(entries: seq<Rendered>, key: string): int {
    if entries == [] then 0
    else BytesOf(entries[1..], key) + if Key(entries[0].package) == key then entries[0].bytes else 0
  }

  ghost predicate KeysDiffer(totals: seq<Rendered>) {
    forall i, j | 0 <= i < j < |totals| :: Key(totals[i].package) != Key(totals[j].package)
  }

  predicate Proper(entries: seq<Rendered>) { forall e | e in entries :: Complete(e.package) && e.bytes > 0 }

  lemma {:induction false} AddBytes(totals: seq<Rendered>, entry: Rendered, key: string)
    ensures BytesOf(Add(totals, entry), key) == BytesOf(totals, key) + BytesOf([entry], key)
  {
    assert [entry][1..] == [];
    if totals != [] {
      var rest := totals[1..];
      if Key(totals[0].package) == Key(entry.package) {
        var sum := Rendered(entry.package, totals[0].bytes + entry.bytes);
        assert ([sum] + rest)[1..] == rest;
      } else {
        AddBytes(rest, entry, key);
        assert ([totals[0]] + Add(rest, entry))[1..] == Add(rest, entry);
      }
    }
  }

  lemma {:induction false} BytesSnoc(entries: seq<Rendered>, entry: Rendered, key: string)
    ensures BytesOf(entries + [entry], key) == BytesOf(entries, key) + BytesOf([entry], key)
  {
    if entries == [] {
      assert entries + [entry] == [entry];
    } else {
      BytesSnoc(entries[1..], entry, key);
      assert (entries + [entry])[1..] == entries[1..] + [entry];
    }
  }

  /** Adding up loses no byte of any key. */
  lemma {:induction false} TotalsBytes(entries: seq<Rendered>, key: string)
    ensures BytesOf(Totals(entries), key) == BytesOf(entries, key)
  {
    if entries != [] {
      var front, e := entries[..|entries| - 1], entries[|entries| - 1];
      assert entries == front + [e];
      TotalsBytes(front, key);
      AddBytes(Totals(front), e, key);
      BytesSnoc(front, e, key);
    }
  }

  /** The keys present stay where they are; a new one comes last. */
  lemma {:induction false} AddKeys(totals: seq<Rendered>, entry: Rendered)
    requires KeysDiffer(totals)
    ensures KeysDiffer(Add(totals, entry))
    ensures forall t | t in Add(totals, entry) ::
              Key(t.package) == Key(entry.package) || exists s | s in totals :: Key(s.package) == Key(t.package)
    ensures Proper(totals) && Proper([entry]) ==> Proper(Add(totals, entry))
  {
    hide Key, Complete;
    if totals != [] {
      var rest := totals[1..];
      assert totals == [totals[0]] + rest;
      if Key(totals[0].package) == Key(entry.package) {
        assert entry in [entry];
      } else {
        AddKeys(rest, entry);
        var r := Add(rest, entry);
        forall t | t in r ensures Key(t.package) != Key(totals[0].package) {
          if Key(t.package) != Key(entry.package) {
            var s :| s in rest && Key(s.package) == Key(t.package);
          }
        }
        assert Add(totals, entry) == [totals[0]] + r;
      }
    }
  }

  lemma {:induction false} TotalsProper(entries: seq<Rendered>)
    requires Proper(entries)
    ensures KeysDiffer(Totals(entries)) && Proper(Totals(entries))
  {
    if entries != [] {
      var front, e := entries[..|entries| - 1], entries[|entries| - 1];
      assert entries == front + [e];
      TotalsProper(front);
      AddKeys(Totals(front), e);
    }
  }

  // ---------------------------------------------------------------- order

  function ByPackage(less: (string, string) -> bool): (Rendered, Rendered) -> bool {
    (a: Rendered, b: Rendered) => Order(less)(a.package, b.package)
  }

  lemma ByPackageStrict(less: (string, string) -> bool)
    requires Collation(less)
    ensures StrictOrder(ByPackage(less))
  {
    OrderStrict(less);
    var order := Order(less);
    var earlier := ByPackage(less);
    forall a ensures !earlier(a, a) { assert !order(a.package, a.package); }
    forall a, b, c | earlier(a, b) && earlier(b, c) ensures earlier(a, c) {
      assert order(a.package, b.package) && order(b.package, c.package);
    }
    forall a, b, c | earlier(a, c) ensures earlier(a, b) || earlier(b, c) {
      assert order(a.package, b.package) || order(b.package, c.package);
    }
  }

  /** What the validator promises of the packages of a surface. */
  ghost predicate StableList(less: (string, string) -> bool, packages: seq<Rendered>) {
    StrictlySorted(ByPackage(less), packages) && Proper(packages)
  }

  function Packages(list: seq<Rendered>): (r: seq<Package>)
    ensures |r| == |list| && forall i | 0 <= i < |list| :: r[i] == list[i].package
  {
    seq(|list|, i requires 0 <= i < |list| => list[i].package)
  }

  /** So the artifact manifest finds each surface strictly ordered and complete. */
  lemma StableListIsValidSurface(less: (string, string) -> bool, list: seq<Rendered>)
    requires StableList(less, list)
    ensures ValidSurface(less, Packages(list))
  {
    var packages := Packages(list);
    forall i, j | 0 <= i < j < |packages| ensures Order(less)(packages[i], packages[j]) {
      assert ByPackage(less)(list[i], list[j]);
    }
    forall p | p in packages ensures Complete(p) {
      var i :| 0 <= i < |packages| && packages[i] == p;
      assert list[i] in list;
    }
  }

  /** The sorted totals of proper entries are a stable list with all their bytes. */
  lemma SortedTotalsStable(less: (string, string) -> bool, entries: seq<Rendered>)
    requires Collation(less) && Proper(entries)
    ensures var list := Sort(ByPackage(less), Totals(entries));
            StableList(less, list) && KeysDiffer(Totals(entries)) && multiset(list) == multiset(Totals(entries))
  {
    var totals := Totals(entries);
    TotalsProper(entries);
    ByPackageStrict(less);
    OrderStrict(less);
    var earlier := ByPackage(less);
    forall i, j | 0 <= i < j < |totals| ensures totals[i] != totals[j] {
      assert Key(totals[i].package) != Key(totals[j].package);
    }
    forall x, y | x in totals && y in totals && x != y ensures earlier(x, y) || earlier(y, x) {
      var i :| 0 <= i < |totals| && totals[i] == x;
      var j :| 0 <= j < |totals| && totals[j] == y;
      assert Key(x.package) != Key(y.package);
      assert Order(less)(x.package, y.package) || Order(less)(y.package, x.package);
    }
    SortStrictlySorted(earlier, totals);
    SameMembers(Sort(earlier, totals), totals);
  }

  lemma {:induction false} BytesSum(totals: seq<Rendered>, i: nat)
    requires KeysDiffer(totals) && i < |totals|
    ensures BytesOf(totals, Key(totals[i].package)) == totals[i].bytes
  {
    var key := Key(totals[i].package);
    if i == 0 {
      BytesOfNone(totals[1..], key);
    } else {
      BytesSum(totals[1..], i - 1);
    }
  }

  lemma {:induction false} BytesOfNone(totals: seq<Rendered>, key: string)
    requires forall t | t in totals :: Key(t.package) != key
    ensures BytesOf(totals, key) == 0
  {
    if totals != [] { BytesOfNone(totals[1..], key); }
  }

  /** Each listed package comes with exactly the bytes rendered under its key. */
  lemma ListedBytes(less: (string, string) -> bool, entries: seq<Rendered>, r: Rendered)
    requires Collation(less) && Proper(entries) && r in Sort(ByPackage(less), Totals(entries))
    ensures r.bytes == BytesOf(entries, Key(r.package))
  {
    var totals := Totals(entries);
    SortedTotalsStable(less, entries);
    SameMembers(Sort(ByPackage(less), totals), totals);
    var i :| 0 <= i < |totals| && totals[i] == r;
    BytesSum(totals, i);
    TotalsBytes(entries, Key(r.package));
  }

  lemma {:induction false} EntriesProper(modules: seq<Module>)
    requires AllIdentified(modules)
    ensures Proper(Entries(modules))
  {
    if modules != [] {
      var front, m := modules[..|modules| - 1], modules[|modules| - 1];
      assert modules == front + [m];
      EntriesProper(front);
    }
  }

  // ---------------------------------------------------------------- producer and validator

  /** The inventory of a surface: refused exactly when a rendered package has no identity; else a list the
      validator accepts, with all bytes of every package. */
  method StablePackages(less: (string, string) -> bool, modules: seq<Module>)
    returns (r: Result<seq<Rendered>, Identity>)
    requires Collation(less)
    ensures r.Ok? <==> AllIdentified(modules)
    ensures r.Ok? ==> StableList(less, r.value)
    ensures r.Ok? ==> forall e | e in r.value :: e.bytes == BytesOf(Entries(modules), Key(e.package))
    ensures r.Ok? ==> forall e | e in Entries(modules) :: exists x | x in r.value :: Key(x.package) == Key(e.package)
  {
    var totals: seq<Rendered> := [];
    for i := 0 to |modules|
      invariant AllIdentified(modules[..i]) && totals == Totals(Entries(modules[..i]))
    {
      var entry := Inventoried(modules[i]);
      if entry.Err? {
        assert modules[i] in modules;
        return Err(entry.error);
      }
      EntriesNext(modules, i);
      if entry.value.Some? { totals := Add(totals, entry.value.value); }
    }
    assert modules[..|modules|] == modules;
    var entries := Entries(modules);
    r := Ok(Sort(ByPackage(less), totals));
    EntriesProper(modules);
    SortedTotalsStable(less, entries);
    forall e | e in r.value ensures e.bytes == BytesOf(entries, Key(e.package)) { ListedBytes(less, entries, e); }
    forall e | e in entries ensures exists x | x in r.value :: Key(x.package) == Key(e.package) {
      var x := TotalOf(entries, e);
      SameMembers(r.value, totals);
    }
  }

  lemma EntriesNext(modules: seq<Module>, i: nat)
    requires i < |modules| && AllIdentified(modules[..i]) && Inventoried(modules[i]).Ok?
    ensures AllIdentified(modules[..i + 1])
    ensures var entry := Inventoried(modules[i]).value;
            Totals(Entries(modules[..i + 1])) ==
            if entry.None? then Totals(Entries(modules[..i])) else Add(Totals(Entries(modules[..i])), entry.value)
  {
    var entry, before := Inventoried(modules[i]).value, Entries(modules[..i]);
    assert modules[..i + 1][..i] == modules[..i];
    if entry.Some? {
      assert (before + [entry.value])[..|before|] == before;
    } else {
      assert before + [] == before;
    }
  }

  lemma {:induction false} TotalOf(entries: seq<Rendered>, e: Rendered) returns (x: Rendered)
    requires e in entries
    ensures x in Totals(entries) && Key(x.package) == Key(e.package)
  {
    var front, last := entries[..|entries| - 1], entries[|entries| - 1];
    assert entries == front + [last];
    if e in front {
      var before := TotalOf(front, e);
      x := AddKeeps(Totals(front), last, before.package);
    } else {
      x := AddHolds(Totals(front), last);
    }
  }

  lemma {:induction false} AddKeeps(totals: seq<Rendered>, entry: Rendered, p: Package) returns (x: Rendered)
    requires exists t | t in totals :: t.package == p
    ensures x in Add(totals, entry) && Key(x.package) == Key(p)
  {
    hide Key;
    var t :| t in totals && t.package == p;
    if Key(totals[0].package) == Key(entry.package) {
      x := if t == totals[0] then Rendered(entry.package, totals[0].bytes + entry.bytes) else t;
      assert Add(totals, entry)[0] == Rendered(entry.package, totals[0].bytes + entry.bytes);
    } else if t == totals[0] {
      x := t;
      assert Add(totals, entry)[0] == t;
    } else {
      assert t in totals[1..];
      x := AddKeeps(totals[1..], entry, p);
    }
  }

  lemma {:induction false} AddHolds(totals: seq<Rendered>, entry: Rendered) returns (x: Rendered)
    ensures x in Add(totals, entry) && Key(x.package) == Key(entry.package)
  {
    hide Key;
    x := Add(totals, entry)[0];
    if totals != [] && Key(totals[0].package) != Key(entry.package) { x := AddHolds(totals[1..], entry); }
  }

  function Compare(less: (string, string) -> bool, a: string, b: string): int {
    if less(a, b) then -1 else if less(b, a) then 1 else 0
  }

  lemma CompareIsOrder(less: (string, string) -> bool, a: Package, b: Package)
    requires Collation(less)
    ensures var order := Compare(less, a.name, b.name);
            (if order == 0 then Compare(less, a.version, b.version) else order) < 0 <==> Order(less)(a, b)
  {
    assert !less(a.name, a.name) && !less(a.version, a.version);
    assert !(less(a.name, b.name) && less(b.name, a.name));
  }

  /** Each entry is compared with the one before it only; the list passes exactly when it is stable as a whole. */
  method Validate(less: (string, string) -> bool, packages: seq<Rendered>) returns (ok: bool)
    requires Collation(less)
    ensures ok <==> StableList(less, packages)
  {
    ByPackageStrict(less);
    for i := 0 to |packages|
      invariant StableList(less, packages[..i])
    {
      var entry := packages[i];
      var order := -1;
      if i > 0 {
        order := Compare(less, packages[i - 1].package.name, entry.package.name);
        if order == 0 { order := Compare(less, packages[i - 1].package.version, entry.package.version); }
        CompareIsOrder(less, packages[i - 1].package, entry.package);
      }
      if entry.package.name == "" || entry.package.version == "" || entry.bytes <= 0 || order >= 0 {
        assert entry in packages;
        return false;
      }
      StableNext(less, packages, i);
    }
    assert packages[..|packages|] == packages;
    ok := true;
  }

  lemma StableNext(less: (string, string) -> bool, packages: seq<Rendered>, i: nat)
    requires Collation(less) && i < |packages| && StableList(less, packages[..i]) && Proper([packages[i]])
    requires i > 0 ==> ByPackage(less)(packages[i - 1], packages[i])
    ensures StableList(less, packages[..i + 1])
  {
    ByPackageStrict(less);
    var earlier, list := ByPackage(less), packages[..i + 1];
    assert packages[i] in [packages[i]];
    forall j, k | 0 <= j < k < |list| ensures earlier(list[j], list[k]) {
      assert k < i ==> earlier(packages[..i][j], packages[..i][k]);
      assert j < i - 1 ==> earlier(packages[..i][j], packages[..i][i - 1]);
    }
    forall e | e in list ensures Complete(e.package) && e.bytes > 0 {
      var k :| 0 <= k < |list| && list[k] == e;
      assert k < i ==> packages[..i][k] == e;
    }
  }
}
