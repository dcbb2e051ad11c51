/**
 The record string behind the digest of a packaged runtime directory. A tree is what the file system
 holds: directories are maps, so listing order is not part of it. Names and link targets may contain any
 character but NUL, newlines included; names also no slash.
 */
module RuntimeTree {
  import opened Prelude
  import opened Sorting
  import opened Text

  datatype Node =
    | File(size: nat, digest: string)
    | Link(target: string)
    | Device
    | Directory(children: map<string, Node>)

  datatype Record =
    | DirectoryRecord(path: string)
    | FileRecord(path: string, size: nat, digest: string)
    | LinkRecord(path: string, target: string)

  const NUL := '\0'

  predicate ValidName(name: string) { name != "" && NUL !in name && '/' !in name }

  /** What the file system guarantees of a tree. */
  predicate WellFormed(n: Node) {
    match n
    case File(_, digest) => NUL !in digest
    case Link(target) => NUL !in target
    case Device => true
    case Directory(children) => forall name | name in children :: ValidName(name) && WellFormed(children[name])
  }

  /** Only files, links and directories can be recorded. */
  predicate Supported(n: Node) {
    match n
    case Device => false
    case Directory(children) => forall name | name in children :: Supported(children[name])
    case _ => true
  }

  // ---------------------------------------------------------------- the records of a tree

  predicate LeastIn(least: string, names: set<string>) {
    least in names && forall x | x in names && x != least :: Less(least, x)
  }

  lemma {:induction false} LeastName(names: set<string>) returns (least: string)
    requires names != {}
    ensures LeastIn(least, names)
  {
    least :| least in names;
    if names != {least} {
      var other := LeastName(names - {least});
      if Less(least, other) {
        forall x | x in names && x != least ensures Less(least, x) {
          if x != other { LessTransitive(least, other, x); }
        }
      } else {
        LessTotal(least, other);
        least := other;
      }
    }
  }

  /** The names of a directory in the order they are visited. */
  ghost function SortedNames(names: set<string>): (sorted: seq<string>)
    ensures forall x :: x in sorted <==> x in names
  {
    if names == {} then []
    else
      var least := Least(names);
      var rest := SortedNames(names - {least});
      [least] + rest
  }

  lemma {:induction false} SortedNamesSorted(names: set<string>)
    ensures StrictlySorted(Less, SortedNames(names)) && Distinct(SortedNames(names))
  {
    if names != {} {
      var least := Least(names);
      SortedNamesSorted(names - {least});
      assert forall x | x in SortedNames(names - {least}) :: Less(least, x) && x != least;
    }
  }

  ghost function Least(names: set<string>): (least: string)
    requires names != {}
    ensures LeastIn(least, names)
  {
    assert exists least :: LeastIn(least, names) by { var least := LeastName(names); }
    var least :| LeastIn(least, names);
    least
  }

  function RecordOf(path: string, n: Node): Record
    requires !n.Device?
  {
    match n
    case File(size, digest) => FileRecord(path, size, digest)
    case Link(target) => LinkRecord(path, target)
    case Directory(_) => DirectoryRecord(path)
  }

  /** The records of the named children of `dir`, each directory followed by its own, depth first. */
  ghost function RecordsOf(dir: Node, prefix: string, names: seq<string>): seq<Record>
    requires dir.Directory? && Supported(dir) && forall name | name in names :: name in dir.children
    decreases dir, |names|
  {
    if names == [] then []
    else
      var name, child := names[0], dir.children[names[0]];
      assert Supported(child);
      [RecordOf(prefix + name, child)] + Inside(child, prefix + name + "/") + RecordsOf(dir, prefix, names[1..])
  }

  ghost function Inside(n: Node, prefix: string): seq<Record>
    requires Supported(n)
    decreases n
  {
    if n.Directory? then RecordsOf(n, prefix, SortedNames(n.children.Keys)) else []
  }

  function Print(r: Record): string {
    match r
    case DirectoryRecord(path) => "D" + [NUL] + path + "\n"
    case FileRecord(path, size, digest) => "F" + [NUL] + path + [NUL] + Decimal(size) + [NUL] + digest + "\n"
    case LinkRecord(path, target) => "L" + [NUL] + path + [NUL] + target + "\n"
  }

  function PrintAll(records: seq<Record>): string {
    if records == [] then "" else Print(records[0]) + PrintAll(records[1..])
  }

  /** The string that is digested. */
  ghost function Encoding(root: Node): string
    requires Supported(root)
  {
    PrintAll(Inside(root, ""))
  }

  // ---------------------------------------------------------------- records from the string

  predicate NulFree(r: Record) {
    NUL !in r.path && match r
                      case FileRecord(_, _, digest) => NUL !in digest
                      case LinkRecord(_, target) => NUL !in target
                      case _ => true
  }

  /** A printed record, or nothing: what follows a record's last field. */
  predicate Follows(s: string) { s == "" || (|s| >= 2 && s[0] != NUL && s[1] == NUL) }

  lemma PrintAllFollows(records: seq<Record>)
    ensures Follows(PrintAll(records))
  {
    if records != [] { assert |Print(records[0])| >= 2; }
  }

  /** A last field may contain newlines: it ends at the newline before the next record's tag. */
  lemma LastFieldSplits(f: string, x: string, f': string, x': string)
    requires NUL !in f && NUL !in f' && Follows(x) && Follows(x')
    requires f + "\n" + x == f' + "\n" + x'
    ensures f == f' && x == x'
  {
    var s := f + "\n" + x;
    LastFieldLength(f, x);
    LastFieldLength(f', x');
    assert f == s[..|f|] && f' == s[..|f'|] && x == s[|f| + 1..] && x' == s[|f'| + 1..];
  }

  lemma LastFieldLength(f: string, x: string)
    requires NUL !in f && Follows(x)
    ensures var before := |Until(NUL, f + "\n" + x)|;
            if before == |f + "\n" + x| then x == "" && before == |f| + 1 else x != "" && before == |f| + 2
  {
    if x == "" {
      UntilWhole(NUL, f + "\n" + x);
    } else {
      assert f + "\n" + x == (f + "\n" + [x[0]]) + x[1..];
      UntilFound(NUL, f + "\n" + [x[0]], x[1..]);
    }
  }

  lemma PrintSplits(a: Record, x: string, b: Record, y: string)
    requires NulFree(a) && NulFree(b) && Follows(x) && Follows(y)
    requires Print(a) + x == Print(b) + y
    ensures a == b && x == y
  {
    var s := Print(a) + x;
    assert s[0] == Print(a)[0] && s[0] == Print(b)[0];
    PrintTail(a, x);
    PrintTail(b, y);
    match a {
      case DirectoryRecord(path) => LastFieldSplits(path, x, b.path, y);
      case LinkRecord(path, target) =>
        SplitAt(NUL, path, target + "\n" + x, b.path, b.target + "\n" + y);
        LastFieldSplits(target, x, b.target, y);
      case FileRecord(path, size, digest) =>
        SplitAt(NUL, path, SizeTail(a, x), b.path, SizeTail(b, y));
        SplitAt(NUL, Decimal(size), digest + "\n" + x, Decimal(b.size), b.digest + "\n" + y);
        DecimalInjective(size, b.size);
        LastFieldSplits(digest, x, b.digest, y);
    }
  }

  function SizeTail(r: Record, x: string): string
    requires r.FileRecord?
  {
    Decimal(r.size) + [NUL] + (r.digest + "\n" + x)
  }

  /** What follows the tag and its separator, regrouped around the next separator. */
  lemma PrintTail(r: Record, x: string)
    ensures (Print(r) + x)[2..] == match r
                                   case DirectoryRecord(path) => path + "\n" + x
                                   case FileRecord(path, _, _) => path + [NUL] + SizeTail(r, x)
                                   case LinkRecord(path, target) => path + [NUL] + (target + "\n" + x)
  {
    match r
    case DirectoryRecord(path) => Regroup("D" + [NUL], path, "\n", x);
    case FileRecord(path, size, digest) =>
      Regroup("F" + [NUL] + path + [NUL] + Decimal(size) + [NUL], digest, "\n", x);
      Regroup("F" + [NUL] + path + [NUL], Decimal(size), [NUL], digest + "\n" + x);
      Regroup("F" + [NUL], path, [NUL], SizeTail(r, x));
    case LinkRecord(path, target) =>
      Regroup("L" + [NUL] + path + [NUL], target, "\n", x);
      Regroup("L" + [NUL], path, [NUL], target + "\n" + x);
  }

  lemma Regroup(a: string, b: string, c: string, x: string)
    ensures a + b + c + x == a + (b + c + x)
    ensures |a| == 2 ==> (a + b + c + x)[2..] == b + c + x
  {
  }

  /** Record lists with the same string are the same. */
  lemma {:induction false} PrintAllInjective(a: seq<Record>, b: seq<Record>)
    requires (forall r | r in a :: NulFree(r)) && (forall r | r in b :: NulFree(r))
    requires PrintAll(a) == PrintAll(b)
    ensures a == b
    decreases |a|
  {
    if a != [] && b != [] {
      PrintAllFollows(a[1..]);
      PrintAllFollows(b[1..]);
      PrintSplits(a[0], PrintAll(a[1..]), b[0], PrintAll(b[1..]));
      PrintAllInjective(a[1..], b[1..]);
    } else {
      assert a == [] ==> |PrintAll(b)| == 0;
      assert b == [] ==> |PrintAll(a)| == 0;
    }
  }

  // ---------------------------------------------------------------- the tree from the records

  /** The record's path is the named entry below `prefix`, or lies inside it. */
  ghost predicate Below(path: string, prefix: string, name: string) {
    path == prefix + name || prefix + name + "/" <= path
  }

  lemma {:induction false} RecordsBelow(dir: Node, prefix: string, names: seq<string>, r: Record)
    requires dir.Directory? && Supported(dir) && forall name | name in names :: name in dir.children
    requires r in RecordsOf(dir, prefix, names)
    ensures exists name | name in names :: Below(r.path, prefix, name)
    decreases dir, |names|
  {
    var name, child := names[0], dir.children[names[0]];
    if r == RecordOf(prefix + name, child) {
      assert Below(r.path, prefix, name);
    } else if r in Inside(child, prefix + name + "/") {
      RecordsBelow(child, prefix + name + "/", SortedNames(child.children.Keys), r);
      assert Below(r.path, prefix, name);
    } else {
      RecordsBelow(dir, prefix, names[1..], r);
    }
  }

  /** The entry a path lies below is what stands between the prefix and the next slash. */
  lemma BelowNames(path: string, prefix: string, name: string)
    requires '/' !in name && Below(path, prefix, name)
    ensures |prefix| <= |path| && Until('/', path[|prefix|..]) == name
  {
    var tail := path[|prefix|..];
    if path == prefix + name {
      assert tail == name;
      UntilWhole('/', name);
    } else {
      assert path == prefix + name + "/" + path[|prefix| + |name| + 1..];
      assert tail == name + ("/" + path[|prefix| + |name| + 1..]);
      UntilFound('/', name, "/" + path[|prefix| + |name| + 1..]);
    }
  }

  function TakeWhile<T>(p: T -> bool, s: seq<T>): seq<T> {
    if s == [] || !p(s[0]) then [] else [s[0]] + TakeWhile(p, s[1..])
  }

  lemma {:induction false} TakeWhileCut<T>(p: T -> bool, a: seq<T>, b: seq<T>)
    requires (forall x | x in a :: p(x)) && (forall x | x in b :: !p(x))
    ensures TakeWhile(p, a + b) == a
  {
    if a == [] {
      assert a + b == b;
    } else {
      TakeWhileCut(p, a[1..], b);
      assert (a + b)[1..] == a[1..] + b;
    }
  }

  /** Two ways to cut the same list where the first parts satisfy `p` and the second do not. */
  lemma CutUnique<T>(p: T -> bool, a: seq<T>, b: seq<T>, a': seq<T>, b': seq<T>)
    requires a + b == a' + b'
    requires (forall x | x in a :: p(x)) && (forall x | x in a' :: p(x))
    requires (forall x | x in b :: !p(x)) && (forall x | x in b' :: !p(x))
    ensures a == a' && b == b'
  {
    TakeWhileCut(p, a, b);
    TakeWhileCut(p, a', b');
    assert b == (a + b)[|a|..] && b' == (a' + b')[|a'|..];
  }

  /** The records inside an entry are exactly those whose path continues its own. */
  lemma InsideContinues(n: Node, prefix: string, r: Record)
    requires Supported(n) && r in Inside(n, prefix)
    ensures prefix <= r.path
  {
    RecordsBelow(n, prefix, SortedNames(n.children.Keys), r);
  }

  lemma OutsideDoesNot(dir: Node, prefix: string, names: seq<string>, name: string, r: Record)
    requires dir.Directory? && Supported(dir) && WellFormed(dir) && name !in names && '/' !in name
    requires forall other | other in names :: other in dir.children
    requires r in RecordsOf(dir, prefix, names)
    ensures !(prefix + name + "/" <= r.path)
  {
    RecordsBelow(dir, prefix, names, r);
    var other :| other in names && Below(r.path, prefix, other);
    assert ValidName(other);
    BelowNames(r.path, prefix, other);
    if prefix + name + "/" <= r.path { BelowNames(r.path, prefix, name); }
  }

  /** Cutting the records of a directory after those of its first entry. */
  lemma FirstEntryCut(d: Node, e: Node, prefix: string, name: string, names: seq<string>, names': seq<string>)
    requires d.Directory? && Supported(d) && WellFormed(d) && name !in names
    requires e.Directory? && Supported(e) && WellFormed(e) && name !in names'
    requires forall n | n in [name] + names :: n in d.children
    requires forall n | n in [name] + names' :: n in e.children
    requires Inside(d.children[name], prefix + name + "/") + RecordsOf(d, prefix, names)
             == Inside(e.children[name], prefix + name + "/") + RecordsOf(e, prefix, names')
    ensures Inside(d.children[name], prefix + name + "/") == Inside(e.children[name], prefix + name + "/")
    ensures RecordsOf(d, prefix, names) == RecordsOf(e, prefix, names')
  {
    var path := prefix + name + "/";
    FirstEntrySides(d, prefix, name, names);
    FirstEntrySides(e, prefix, name, names');
    CutUnique((r: Record) => path <= r.path, Inside(d.children[name], path), RecordsOf(d, prefix, names),
              Inside(e.children[name], path), RecordsOf(e, prefix, names'));
  }

  lemma FirstEntrySides(d: Node, prefix: string, name: string, names: seq<string>)
    requires d.Directory? && Supported(d) && WellFormed(d) && name !in names
    requires forall n | n in [name] + names :: n in d.children
    ensures forall r | r in Inside(d.children[name], prefix + name + "/") :: prefix + name + "/" <= r.path
    ensures forall r | r in RecordsOf(d, prefix, names) :: !(prefix + name + "/" <= r.path)
  {
    var path := prefix + name + "/";
    assert name in [name] + names && ValidName(name);
    forall r | r in Inside(d.children[name], path) ensures path <= r.path {
      InsideContinues(d.children[name], path, r);
    }
    forall r | r in RecordsOf(d, prefix, names) ensures !(path <= r.path) {
      OutsideDoesNot(d, prefix, names, name, r);
    }
  }

  lemma FirstRecord(dir: Node, prefix: string, names: seq<string>)
    requires dir.Directory? && Supported(dir) && names != [] && forall name | name in names :: name in dir.children
    ensures var name, child := names[0], dir.children[names[0]];
            !child.Device? && RecordsOf(dir, prefix, names)
              == [RecordOf(prefix + name, child)]
                 + (Inside(child, prefix + name + "/") + RecordsOf(dir, prefix, names[1..]))
  {
    assert Supported(dir.children[names[0]]);
  }

  lemma SameRecord(prefix: string, name: string, child: Node, name': string, child': Node)
    requires !child.Device? && !child'.Device? && RecordOf(prefix + name, child) == RecordOf(prefix + name', child')
    ensures name == name' && (child == child' || (child.Directory? && child'.Directory?))
  {
    assert name == (prefix + name)[|prefix|..] && name' == (prefix + name')[|prefix|..];
  }

  lemma {:induction false} RecordsInjective(d: Node, e: Node, prefix: string, names: seq<string>, names': seq<string>)
    requires d.Directory? && Supported(d) && WellFormed(d) && Distinct(names)
    requires e.Directory? && Supported(e) && WellFormed(e) && Distinct(names')
    requires forall name | name in names :: name in d.children
    requires forall name | name in names' :: name in e.children
    requires RecordsOf(d, prefix, names) == RecordsOf(e, prefix, names')
    ensures names == names' && forall name | name in names :: d.children[name] == e.children[name]
    decreases d, |names|
  {
    if names == [] || names' == [] {
      assert |RecordsOf(d, prefix, names)| == 0;
    } else {
      FirstRecord(d, prefix, names);
      FirstRecord(e, prefix, names');
      var name, child, child' := names[0], d.children[names[0]], e.children[names'[0]];
      var all, all' := RecordsOf(d, prefix, names), RecordsOf(e, prefix, names');
      assert all[0] == all'[0] && all[1..] == all'[1..];
      SameRecord(prefix, name, child, names'[0], child');
      assert names == [name] + names[1..] && names' == [name] + names'[1..];
      FirstEntryCut(d, e, prefix, name, names[1..], names'[1..]);
      RecordsInjective(d, e, prefix, names[1..], names'[1..]);
      assert WellFormed(child) && WellFormed(child');
      if child.Directory? { InsideInjective(child, child', prefix + name + "/"); }
    }
  }

  lemma {:induction false} InsideInjective(d: Node, e: Node, prefix: string)
    requires d.Directory? && Supported(d) && WellFormed(d) && e.Directory? && Supported(e) && WellFormed(e)
    requires Inside(d, prefix) == Inside(e, prefix)
    ensures d == e
    decreases d
  {
    var names, names' := SortedNames(d.children.Keys), SortedNames(e.children.Keys);
    SortedNamesSorted(d.children.Keys);
    SortedNamesSorted(e.children.Keys);
    RecordsInjective(d, e, prefix, names, names');
    assert d.children.Keys == e.children.Keys by {
      assert forall x :: x in d.children.Keys <==> x in names;
      assert forall x :: x in e.children.Keys <==> x in names';
    }
    forall name | name in d.children ensures d.children[name] == e.children[name] { assert name in names; }
    assert d.children == e.children;
  }

  lemma {:induction false} RecordsNulFree(dir: Node, prefix: string, names: seq<string>)
    requires dir.Directory? && Supported(dir) && WellFormed(dir) && NUL !in prefix
    requires forall name | name in names :: name in dir.children
    ensures forall r | r in RecordsOf(dir, prefix, names) :: NulFree(r)
    decreases dir, |names|
  {
    if names != [] {
      var name, child := names[0], dir.children[names[0]];
      assert ValidName(name) && WellFormed(child);
      if child.Directory? { RecordsNulFree(child, prefix + name + "/", SortedNames(child.children.Keys)); }
      RecordsNulFree(dir, prefix, names[1..]);
    }
  }

  /** Two runtime trees with the same record string are the same tree: the same directories, empty ones
      included, the same link targets, file sizes and file digests. */
  lemma EncodingInjective(d: Node, e: Node)
    requires d.Directory? && Supported(d) && WellFormed(d) && e.Directory? && Supported(e) && WellFormed(e)
    requires Encoding(d) == Encoding(e)
    ensures d == e
  {
    RecordsNulFree(d, "", SortedNames(d.children.Keys));
    RecordsNulFree(e, "", SortedNames(e.children.Keys));
    PrintAllInjective(Inside(d, ""), Inside(e, ""));
    InsideInjective(d, e, "");
  }

  // ---------------------------------------------------------------- collecting the records

  function TotalBytes(records: seq<Record>): nat {
    if records == [] then 0
    else TotalBytes(records[..|records| - 1])
         + match records[|records| - 1] case FileRecord(_, size, _) => size case _ => 0
  }

  /** The listing of a directory: every name once, in any order. */
  method ReadDirectory(children: map<string, Node>) returns (listing: seq<string>)
    ensures Distinct(listing) && forall x :: x in listing <==> x in children
  {
    listing := [];
    var left := children.Keys;
    while left != {}
      invariant Distinct(listing) && left <= children.Keys
      invariant forall x :: x in listing <==> x in children && x !in left
    {
      var name :| name in left;
      listing, left := listing + [name], left - {name};
    }
  }

  method SortedListing(children: map<string, Node>) returns (names: seq<string>)
    ensures names == SortedNames(children.Keys)
  {
    var listing := ReadDirectory(children);
    ListingSorted(listing, children.Keys);
    names := Sort(Less, listing);
  }

  lemma ListingSorted(listing: seq<string>, names: set<string>)
    requires Distinct(listing) && forall x :: x in listing <==> x in names
    ensures Sort(Less, listing) == SortedNames(names)
  {
    LessStrict();
    forall x, y | x in listing && y in listing && x != y ensures Less(x, y) || Less(y, x) { LessTotal(x, y); }
    SortStrictlySorted(Less, listing);
    SortedNamesSorted(names);
    SameMembers(Sort(Less, listing), listing);
    StrictlySortedUnique(Less, Sort(Less, listing), SortedNames(names));
  }

  /** A path relative to the root that starts like one out of it. */
  predicate Escapes(path: string) { ".." <= path }

  /** No entry of the directory has such a path. Inside the root only the names at its top can give one. */
  predicate Portable(dir: Node, prefix: string)
    requires dir.Directory?
  {
    forall name | name in dir.children :: !Escapes(prefix + name)
  }

  lemma InsidePortable(dir: Node, path: string)
    requires dir.Directory? && !Escapes(path)
    ensures Portable(dir, path + "/")
  {
    forall name | name in dir.children ensures !Escapes(path + "/" + name) {
      var inner := path + "/" + name;
      assert inner[|path|] == '/';
      if |path| >= 2 { assert inner[0] == path[0] && inner[1] == path[1]; }
    }
  }

  class Collector {
    var records: seq<Record>
    var bytes: nat
    var entries: nat

    ghost predicate Valid()
      reads this
    {
      entries == |records| && bytes == TotalBytes(records)
    }

    constructor ()
      ensures Valid() && records == []
    {
      records, bytes, entries := [], 0, 0;
    }

    method Add(path: string, n: Node)
      requires Valid() && !n.Device?
      modifies this
      ensures Valid() && records == old(records) + [RecordOf(path, n)]
    {
      entries := entries + 1;
      if n.File? { bytes := bytes + n.size; }
      records := records + [RecordOf(path, n)];
      assert records[..|records| - 1] == old(records);
    }

    /** Appends the record of one entry and of everything inside it. */
    method VisitEntry(path: string, n: Node) returns (ok: bool)
      requires Valid()
      modifies this
      ensures Valid() && (ok <==> Supported(n) && !Escapes(path))
      ensures ok ==> records == old(records) + ([RecordOf(path, n)] + Inside(n, path + "/"))
      decreases n, 1
    {
      if Escapes(path) || n.Device? { return false; }
      Add(path, n);
      ok := true;
      if n.Directory? {
        InsidePortable(n, path);
        ok := Visit(n, path + "/");
      }
    }

    /** Appends the records inside `dir`; fails exactly when some entry cannot be recorded. */
    method Visit(dir: Node, prefix: string) returns (ok: bool)
      requires Valid() && dir.Directory?
      modifies this
      ensures Valid() && (ok <==> Supported(dir) && Portable(dir, prefix))
      ensures ok ==> records == old(records) + Inside(dir, prefix)
      decreases dir, 0
    {
      var names := SortedListing(dir.children);
      for i := 0 to |names|
        invariant Valid()
        invariant SupportedUpTo(dir, prefix, names, i)
        invariant Supported(dir) ==> records + RecordsOf(dir, prefix, names[i..]) == old(records) + Inside(dir, prefix)
      {
        assert names[i] in names;
        ghost var before := records;
        var supported := VisitEntry(prefix + names[i], dir.children[names[i]]);
        if !supported { return false; }
        SupportedNext(dir, prefix, names, i);
        if Supported(dir) { NextEntry(dir, prefix, names, i, before, records); }
      }
      SupportedAll(dir, prefix, names);
      ok := true;
    }
  }

  ghost predicate SupportedUpTo(dir: Node, prefix: string, names: seq<string>, i: nat)
    requires dir.Directory?
  {
    && i <= |names|
    && forall k | 0 <= k < i ::
         names[k] in dir.children && Supported(dir.children[names[k]]) && !Escapes(prefix + names[k])
  }

  lemma SupportedNext(dir: Node, prefix: string, names: seq<string>, i: nat)
    requires dir.Directory? && SupportedUpTo(dir, prefix, names, i) && i < |names|
    requires names[i] in dir.children && Supported(dir.children[names[i]]) && !Escapes(prefix + names[i])
    ensures SupportedUpTo(dir, prefix, names, i + 1)
  {
  }

  lemma SupportedAll(dir: Node, prefix: string, names: seq<string>)
    requires dir.Directory? && SupportedUpTo(dir, prefix, names, |names|)
    requires forall name | name in dir.children :: name in names
    ensures Supported(dir) && Portable(dir, prefix)
  {
  }

  lemma NextEntry(dir: Node, prefix: string, names: seq<string>, i: nat, before: seq<Record>, after: seq<Record>)
    requires dir.Directory? && Supported(dir) && (forall name | name in names :: name in dir.children) && i < |names|
    requires Supported(dir.children[names[i]])
    requires after == before + ([RecordOf(prefix + names[i], dir.children[names[i]])]
                                + Inside(dir.children[names[i]], prefix + names[i] + "/"))
    ensures before + RecordsOf(dir, prefix, names[i..]) == after + RecordsOf(dir, prefix, names[i + 1..])
  {
    FirstRecord(dir, prefix, names[i..]);
    assert names[i..][1..] == names[i + 1..];
  }

  datatype Refusal = NotADirectory | RejectedEntry | EmptyRuntime

  datatype Receipt = Receipt(entries: nat, bytes: nat, encoding: string)

  /** The receipt of a runtime directory: entry and byte totals of its records, and the digested string. */
  method PackageRuntime(root: Node) returns (r: Result<Receipt, Refusal>)
    ensures r.Ok? <==> root.Directory? && Supported(root) && root.children != map[]
                       && forall name | name in root.children :: !(".." <= name)
    ensures r.Ok? ==> var records := Inside(root, "");
                      r.value == Receipt(|records|, TotalBytes(records), Encoding(root))
    ensures r == Err(EmptyRuntime) <==> root.Directory? && root.children == map[]
  {
    if !root.Directory? { return Err(NotADirectory); }
    var collector := new Collector();
    var ok := collector.Visit(root, "");
    assert forall name | name in root.children :: "" + name == name;
    if !ok { return Err(RejectedEntry); }
    assert collector.records == Inside(root, "");
    EmptyRecords(root);
    if collector.entries == 0 { return Err(EmptyRuntime); }
    r := Ok(Receipt(collector.entries, collector.bytes, PrintAll(collector.records)));
  }

  lemma EmptyRecords(root: Node)
    requires root.Directory? && Supported(root)
    ensures Inside(root, "") == [] <==> root.children == map[]
  {
    var names := SortedNames(root.children.Keys);
    if names != [] {
      FirstRecord(root, "", names);
      assert names[0] in root.children;
    } else {
      assert forall name :: name in root.children.Keys <==> name in names;
      assert root.children.Keys == {};
    }
  }
}
