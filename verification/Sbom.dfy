/**
 The SPDX document of a desktop build: how it is made, what the validator checks of it, and why its
 identifiers never clash.
 */
module Sbom {
  import opened Prelude
  import opened Text

  datatype Dependency = Dependency(name: string, version: string)

  datatype SpdxPackage = SpdxPackage(id: string, name: string, version: string, licenseDeclared: string)

  datatype Relationship = Relationship(element: string, kind: string, related: string)

  datatype Document = Document(
    id: string, spdxVersion: string, dataLicense: string, documentNamespace: string, name: string,
    comment: string, created: string, creators: seq<string>,
    packages: seq<SpdxPackage>, relationships: seq<Relationship>)

  datatype Build = Build(platform: string, commit: string, appAsar: string, runtime: string, manifest: string)

  datatype Refusal = InvalidCommit | InvalidDigest | MissingVersion | EmptyInventory | InvalidTimestamp

  const ROOT_ID := "SPDXRef-Package-Doolittle-Desktop"
  const PREFIX := "SPDXRef-Package-"
  const ORGANIZATION := "Organization: SYMBaiEX"
  const TOOL := "Tool: Doolittle desktop SBOM"
  const CREATORS := [ORGANIZATION, TOOL]

  predicate LowerHex(s: string, length: nat) {
    |s| == length && forall c | c in s :: '0' <= c <= '9' || 'a' <= c <= 'f'
  }

  // ---------------------------------------------------------------- identifiers

  /** Letters, digits, '.' and '-': the identifier characters of section 7.2 of SPDX Specification 2.3. */
  predicate IdCharacter(c: char) {
    'A' <= c <= 'Z' || 'a' <= c <= 'z' || '0' <= c <= '9' || c == '.' || c == '-'
  }

  function SkipOthers(s: string): (rest: string)
    ensures |rest| <= |s|
  {
    if s != "" && !IdCharacter(s[0]) then SkipOthers(s[1..]) else s
  }

  /** Each run of other characters becomes one '-'. */
  function Collapse(s: string): string
    decreases |s|
  {
    if s == "" then ""
    else if IdCharacter(s[0]) then [s[0]] + Collapse(s[1..])
    else "-" + Collapse(SkipOthers(s[1..]))
  }

  function StripFront(s: string): string { if s != "" && s[0] == '-' then StripFront(s[1..]) else s }

  function StripBack(s: string): string { if s != "" && s[|s| - 1] == '-' then StripBack(s[..|s| - 1]) else s }

  function SafeName(name: string): string { StripBack(StripFront(Collapse(name))) }

  function DependencyId(name: string, index: nat): string {
    var safe := SafeName(name);
    PREFIX + Decimal(index + 1) + "-" + if safe == "" then "dependency" else safe
  }

  predicate IdText(s: string) { forall c | c in s :: IdCharacter(c) }

  lemma {:induction false} CollapseIdText(s: string)
    ensures IdText(Collapse(s))
    decreases |s|
  {
    if s != "" {
      if IdCharacter(s[0]) { CollapseIdText(s[1..]); } else { CollapseIdText(SkipOthers(s[1..])); }
    }
  }

  lemma {:induction false} StripFrontIdText(s: string)
    requires IdText(s)
    ensures IdText(StripFront(s))
  {
    if s != "" && s[0] == '-' { StripFrontIdText(s[1..]); }
  }

  lemma {:induction false} StripBackIdText(s: string)
    requires IdText(s)
    ensures IdText(StripBack(s))
  {
    if s != "" && s[|s| - 1] == '-' { StripBackIdText(s[..|s| - 1]); }
  }

  /** Every identifier uses only identifier characters, for any package name. */
  lemma IdCharactersOnly(name: string, index: nat)
    ensures IdText(DependencyId(name, index))
  {
    CollapseIdText(name);
    StripFrontIdText(Collapse(name));
    StripBackIdText(StripFront(Collapse(name)));
    assert IdText("dependency") && IdText(PREFIX) && IdText(Decimal(index + 1));
  }

  /** The position shows in the identifier: different positions never share one, whatever the names. */
  lemma IdsDiffer(name: string, index: nat, name': string, index': nat)
    requires DependencyId(name, index) == DependencyId(name', index')
    ensures index == index'
  {
    var id := DependencyId(name, index);
    var safe := if SafeName(name) == "" then "dependency" else SafeName(name);
    var safe' := if SafeName(name') == "" then "dependency" else SafeName(name');
    assert id[|PREFIX|..] == Decimal(index + 1) + ['-'] + safe;
    assert id[|PREFIX|..] == Decimal(index' + 1) + ['-'] + safe';
    SplitAt('-', Decimal(index + 1), safe, Decimal(index' + 1), safe');
    DecimalInjective(index + 1, index' + 1);
  }

  lemma IdIsNotRoot(name: string, index: nat)
    ensures DependencyId(name, index) != ROOT_ID
  {
    assert ROOT_ID[|PREFIX|] == 'D';
    assert DependencyId(name, index)[|PREFIX|] == Decimal(index + 1)[0];
    assert Decimal(index + 1)[0] in Decimal(index + 1);
  }

  // ---------------------------------------------------------------- creating

  function Comment(b: Build): string {
    "app.asar SHA-256: " + b.appAsar + "; runtime tree SHA-256: " + b.runtime
    + "; desktop artifact manifest SHA-256: " + b.manifest
  }

  function Namespace(b: Build): string {
    "https://github.com/SYMBaiEX/doolittle/sbom/" + b.commit + "/desktop/" + b.platform
  }

  function PackagesOf(dependencies: seq<Dependency>): (r: seq<SpdxPackage>)
    ensures |r| == |dependencies|
    ensures forall i | 0 <= i < |r| :: r[i] == SpdxPackage(DependencyId(dependencies[i].name, i), dependencies[i].name,
                                                           dependencies[i].version, "NOASSERTION")
  {
    seq(|dependencies|, i requires 0 <= i < |dependencies| =>
      SpdxPackage(DependencyId(dependencies[i].name, i), dependencies[i].name, dependencies[i].version, "NOASSERTION"))
  }

  function DependsOn(packages: seq<SpdxPackage>): (r: seq<Relationship>)
    ensures |r| == |packages|
    ensures forall i | 0 <= i < |r| :: r[i] == Relationship(ROOT_ID, "DEPENDS_ON", packages[i].id)
  {
    seq(|packages|, i requires 0 <= i < |packages| => Relationship(ROOT_ID, "DEPENDS_ON", packages[i].id))
  }

  /** `normalize` is the timestamp conversion, which fails on text that is no date. */
  function Create(b: Build, createdAt: string, version: string, dependencies: seq<Dependency>,
                  normalize: string -> Option<string>): Result<Document, Refusal>
  {
    if !LowerHex(b.commit, 40) then Err(InvalidCommit)
    else if !LowerHex(b.appAsar, 64) || !LowerHex(b.runtime, 64) || !LowerHex(b.manifest, 64) then Err(InvalidDigest)
    else if version == "" then Err(MissingVersion)
    else if dependencies == [] then Err(EmptyInventory)
    else if normalize(createdAt).None? then Err(InvalidTimestamp)
    else
      var packages := PackagesOf(dependencies);
      Ok(Document("SPDXRef-DOCUMENT", "SPDX-2.3", "CC0-1.0", Namespace(b), "Doolittle desktop " + b.platform,
                  Comment(b), normalize(createdAt).value, CREATORS,
                  [SpdxPackage(ROOT_ID, "Doolittle desktop", version, "MIT")] + packages,
                  [Relationship("SPDXRef-DOCUMENT", "DESCRIBES", ROOT_ID)] + DependsOn(packages)))
  }

  // ---------------------------------------------------------------- validating

  function JoinBars(parts: seq<string>): string {
    if parts == [] then "" else if |parts| == 1 then parts[0] else parts[0] + "|" + JoinBars(parts[1..])
  }

  predicate HeaderMatches(d: Document, b: Build) {
    && LowerHex(b.commit, 40)
    && d.id == "SPDXRef-DOCUMENT" && d.spdxVersion == "SPDX-2.3" && d.dataLicense == "CC0-1.0"
    && d.documentNamespace == Namespace(b) && d.name == "Doolittle desktop " + b.platform
    && d.comment == Comment(b)
    && JoinBars(d.creators) == ORGANIZATION + "|" + TOOL
    && |d.packages| >= 2 && d.packages[0].id == ROOT_ID
    && |d.relationships| == |d.packages|
  }

  predicate EntryMatches(d: Document, i: nat)
    requires 1 <= i < |d.packages| && |d.relationships| == |d.packages|
  {
    && d.packages[i].id == DependencyId(d.packages[i].name, i - 1)
    && d.relationships[i] == Relationship(ROOT_ID, "DEPENDS_ON", d.packages[i].id)
  }

  /** The validator: the header, then entry by entry. */
  method Validate(d: Document, b: Build) returns (valid: bool)
    ensures valid <==> HeaderMatches(d, b) && forall i | 1 <= i < |d.packages| :: EntryMatches(d, i)
  {
    if !HeaderMatches(d, b) { return false; }
    for i := 1 to |d.packages|
      invariant forall k | 1 <= k < i :: EntryMatches(d, k)
    {
      if !EntryMatches(d, i) { return false; }
    }
    valid := true;
  }

  /** A document made for a build validates for that build, whatever its dependencies are called. */
  lemma CreatedValidates(b: Build, createdAt: string, version: string, dependencies: seq<Dependency>,
                         normalize: string -> Option<string>)
    requires Create(b, createdAt, version, dependencies, normalize).Ok?
    ensures var d := Create(b, createdAt, version, dependencies, normalize).value;
            HeaderMatches(d, b) && forall i | 1 <= i < |d.packages| :: EntryMatches(d, i)
  {
    hide Comment, Namespace, DependencyId, LowerHex, JoinBars;
    var d := Create(b, createdAt, version, dependencies, normalize).value;
    var packages := PackagesOf(dependencies);
    CreatorsJoined();
    forall i | 1 <= i < |d.packages| ensures EntryMatches(d, i) {
      assert d.packages[i] == packages[i - 1];
      assert d.relationships[i] == DependsOn(packages)[i - 1];
    }
  }

  lemma CreatorsJoined()
    ensures JoinBars(CREATORS) == ORGANIZATION + "|" + TOOL
  {
    JoinTwo(ORGANIZATION, TOOL);
  }

  lemma JoinTwo(a: string, b: string)
    ensures JoinBars([a, b]) == a + "|" + b
  {
    assert [a, b][1..] == [b];
  }

  /** Whatever document the validator accepts has pairwise different identifiers, and its root depends on
      each further package exactly once. */
  lemma ValidIdsDistinct(d: Document, b: Build, i: nat, j: nat)
    requires HeaderMatches(d, b) && forall k | 1 <= k < |d.packages| :: EntryMatches(d, k)
    requires i < j < |d.packages|
    ensures d.packages[i].id != d.packages[j].id
    ensures d.relationships[j].related == d.packages[j].id && d.relationships[j].element == d.packages[0].id
    ensures IdText(d.packages[j].id)
  {
    assert EntryMatches(d, j);
    IdCharactersOnly(d.packages[j].name, j - 1);
    IdIsNotRoot(d.packages[j].name, j - 1);
    if i > 0 && d.packages[i].id == d.packages[j].id {
      assert EntryMatches(d, i);
      IdsDiffer(d.packages[i].name, i - 1, d.packages[j].name, j - 1);
    }
  }
}
