/**
 The `.env` file: what reading it yields, and what rewriting some of its keys does to that. A text is
 split at line feeds, each with an optional carriage return before it, and joined with line feeds only.
 */
module EnvFile {
  import opened Prelude
  import opened Text

  const CR := '\r'
  const LF := '\n'

  // ---------------------------------------------------------------- lines

  predicate EndsInCr(s: string) { s != "" && s[|s| - 1] == CR }

  function Chomp(s: string): string { if EndsInCr(s) then s[..|s| - 1] else s }

  function Lines(text: string): (lines: seq<string>)
    ensures lines != []
    decreases |text|
  {
    var head := Until(LF, text);
    if |head| >= |text| then [text] else [Chomp(head)] + Lines(text[|head| + 1..])
  }

  function Join(lines: seq<string>): string
    requires lines != []
  {
    if |lines| == 1 then lines[0] else lines[0] + [LF] + Join(lines[1..])
  }

  /** What is left of the lines after writing and splitting again: all but the last lose one final CR. */
  function Chomped(lines: seq<string>): (r: seq<string>)
    ensures |r| == |lines|
    ensures forall i | 0 <= i < |lines| :: r[i] == if i == |lines| - 1 then lines[i] else Chomp(lines[i])
  {
    seq(|lines|, i requires 0 <= i < |lines| => if i == |lines| - 1 then lines[i] else Chomp(lines[i]))
  }

  lemma {:induction false} LinesHaveNoLf(text: string)
    ensures forall line | line in Lines(text) :: LF !in line
    decreases |text|
  {
    var head := Until(LF, text);
    UntilShort(LF, text);
    if |head| < |text| { LinesHaveNoLf(text[|head| + 1..]); }
  }

  lemma LinesStep(first: string, rest: string)
    requires LF !in first
    ensures Lines(first + [LF] + rest) == [Chomp(first)] + Lines(rest)
  {
    var text := first + ([LF] + rest);
    assert first + [LF] + rest == text;
    UntilFound(LF, first, [LF] + rest);
    assert text[|first| + 1..] == rest;
  }

  lemma {:induction false} LinesOfJoin(lines: seq<string>)
    requires lines != [] && forall line | line in lines :: LF !in line
    ensures Lines(Join(lines)) == Chomped(lines)
  {
    var first, rest := lines[0], lines[1..];
    if rest == [] {
      UntilWhole(LF, first);
    } else {
      LinesOfJoin(rest);
      LinesStep(first, Join(rest));
      ChompedStep(lines);
    }
  }

  lemma ChompedStep(lines: seq<string>)
    requires |lines| > 1
    ensures Chomped(lines) == [Chomp(lines[0])] + Chomped(lines[1..])
  {
  }

  /** Lines survive being written and read back exactly when none contains a line feed and none but the
      last ends in a carriage return. */
  lemma LinesRoundTrip(lines: seq<string>)
    requires lines != []
    ensures Lines(Join(lines)) == lines
            <==> (forall line | line in lines :: LF !in line)
                 && (forall i | 0 <= i < |lines| - 1 :: !EndsInCr(lines[i]))
  {
    if Lines(Join(lines)) == lines { LinesHaveNoLf(Join(lines)); }
    if forall line | line in lines :: LF !in line {
      LinesOfJoin(lines);
      assert forall i | 0 <= i < |lines| - 1 :: EndsInCr(lines[i]) ==> |Chomped(lines)[i]| < |lines[i]|;
    }
  }

  // ---------------------------------------------------------------- entries

  predicate Comment(line: string) { var t := Trim(line); t != "" && t[0] == '#' }

  datatype Entry = Entry(key: string, value: string)

  function EntryOf(line: string): Option<Entry> {
    var separator := |Until('=', line)|;
    if line == "" || Comment(line) || separator == 0 || separator >= |line| then None
    else Some(Entry(Trim(line[..separator]), line[separator + 1..]))
  }

  /** The value of the last line for each key. */
  function Entries(lines: seq<string>): map<string, string> {
    if lines == [] then map[]
    else
      var before := Entries(lines[..|lines| - 1]);
      var entry := EntryOf(lines[|lines| - 1]);
      if entry.None? then before else before[entry.value.key := entry.value.value]
  }

  function Read(text: string): map<string, string> { Entries(Lines(text)) }

  predicate Has(line: string, key: string) { EntryOf(line).Some? && EntryOf(line).value.key == key }

  /** The line that decides the value of `key`: its last. */
  ghost predicate Decides(lines: seq<string>, i: int, key: string) {
    0 <= i < |lines| && Has(lines[i], key) && forall j | i < j < |lines| :: !Has(lines[j], key)
  }

  lemma {:induction false} DecidedValue(lines: seq<string>, i: int, key: string)
    requires Decides(lines, i, key)
    ensures key in Entries(lines) && Entries(lines)[key] == EntryOf(lines[i]).value.value
    decreases |lines|
  {
    if i < |lines| - 1 { DecidedValue(lines[..|lines| - 1], i, key); }
  }

  predicate Mentioned(lines: seq<string>, key: string) { exists i | 0 <= i < |lines| :: Has(lines[i], key) }

  lemma DecidingLine(lines: seq<string>, key: string) returns (i: int)
    requires Mentioned(lines, key)
    ensures Decides(lines, i, key)
  {
    var k :| 0 <= k < |lines| && Has(lines[k], key);
    i := DecidingFrom(lines, key, k, |lines|);
  }

  lemma {:induction false} DecidingFrom(lines: seq<string>, key: string, k: nat, n: nat) returns (i: int)
    requires k < n <= |lines| && Has(lines[k], key) && forall j | n <= j < |lines| :: !Has(lines[j], key)
    ensures Decides(lines, i, key)
    decreases n
  {
    if Has(lines[n - 1], key) { i := n - 1; } else { i := DecidingFrom(lines, key, k, n - 1); }
  }

  /** The entries are exactly the mentioned keys. */
  lemma {:induction false} EntriesMentioned(lines: seq<string>, key: string)
    ensures key in Entries(lines) <==> Mentioned(lines, key)
  {
    if Mentioned(lines, key) {
      var i := DecidingLine(lines, key);
      DecidedValue(lines, i, key);
    } else if lines != [] {
      var front := lines[..|lines| - 1];
      assert !Has(lines[|lines| - 1], key);
      EntriesMentioned(front, key);
      assert !Mentioned(front, key) by { assert forall i | 0 <= i < |front| :: front[i] == lines[i]; }
    }
  }

  lemma SeparatorSnoc(s: string, c: char)
    requires c != '='
    ensures var head := |Until('=', s)|;
            |Until('=', s + [c])| == if head < |s| then head else |s| + 1
  {
    var head := Until('=', s);
    UntilShort('=', s);
    if |head| < |s| {
      assert s + [c] == head + (s[|head|..] + [c]);
      UntilFound('=', head, s[|head|..] + [c]);
    } else {
      UntilWhole('=', s + [c]);
    }
  }

  /** Losing a final CR never changes which key a line has, only an entry's value. */
  lemma ChompedEntry(line: string)
    requires EndsInCr(line)
    ensures EntryOf(line).None? ==> EntryOf(Chomp(line)).None?
    ensures EntryOf(line).Some? ==> EntryOf(Chomp(line)).Some?
                                    && EntryOf(Chomp(line)).value.key == EntryOf(line).value.key
                                    && EntryOf(Chomp(line)).value.value != EntryOf(line).value.value
  {
    var s := Chomp(line);
    assert line == s + [CR];
    assert Comment(line) == Comment(s) by { TrimTrailing(s, CR); }
    SeparatorSnoc(s, CR);
    UntilShort('=', s);
    var head := |Until('=', s)|;
    if head < |s| {
      assert line[..head] == s[..head];
      assert |line[head + 1..]| == |s[head + 1..]| + 1;
    }
  }

  // ---------------------------------------------------------------- updating

  /** One own property of the updates; an undefined value clears the key. */
  datatype Setting = Setting(key: string, value: Option<string>)

  function ValueOf(s: Setting): string { if s.value.Some? then s.value.value else "" }

  function Print(s: Setting): string { s.key + "=" + ValueOf(s) }

  /** Trimmed, non-empty keys without '=' or leading '#', and no line breaks anywhere. */
  predicate WellFormedSetting(s: Setting) {
    && s.key != "" && !IsSpace(s.key[0]) && Trim(s.key) == s.key && s.key[0] != '#' && '=' !in s.key
    && LF !in s.key && CR !in s.key && LF !in ValueOf(s) && CR !in ValueOf(s)
  }

  ghost predicate WellFormed(updates: seq<Setting>) {
    && (forall s | s in updates :: WellFormedSetting(s))
    && (forall i, j | 0 <= i < j < |updates| :: updates[i].key != updates[j].key)
  }

  function Find(updates: seq<Setting>, key: string): (s: Option<Setting>)
    ensures s.Some? ==> s.value in updates && s.value.key == key
    ensures s.None? ==> forall u | u in updates :: u.key != key
  {
    if updates == [] then None else if updates[0].key == key then Some(updates[0]) else Find(updates[1..], key)
  }

  function Rewrite(line: string, updates: seq<Setting>): string {
    var entry := EntryOf(line);
    if entry.None? then line
    else
      var s := Find(updates, entry.value.key);
      if s.None? then line else Print(s.value)
  }

  function Rewritten(lines: seq<string>, updates: seq<Setting>): (r: seq<string>)
    ensures |r| == |lines| && forall i | 0 <= i < |lines| :: r[i] == Rewrite(lines[i], updates)
  {
    seq(|lines|, i requires 0 <= i < |lines| => Rewrite(lines[i], updates))
  }

  /** The settings no line mentions, printed in order. */
  function Added(lines: seq<string>, updates: seq<Setting>): seq<string> {
    if updates == [] then []
    else (if Mentioned(lines, updates[0].key) then [] else [Print(updates[0])]) + Added(lines, updates[1..])
  }

  function NextLines(lines: seq<string>, updates: seq<Setting>): seq<string> {
    Rewritten(lines, updates) + Added(lines, updates)
  }

  function Update(text: string, updates: seq<Setting>): string {
    Join(NextLines(Lines(text), updates))
  }

  /** The updates as a map from key to the value that is written. */
  function Values(updates: seq<Setting>): map<string, string> {
    map s | s in updates :: s.key := ValueOf(Find(updates, s.key).value)
  }

  lemma {:induction false} FindFirst(updates: seq<Setting>, s: Setting)
    requires s in updates && forall i, j | 0 <= i < j < |updates| :: updates[i].key != updates[j].key
    ensures Find(updates, s.key) == Some(s)
  {
    if updates[0] != s {
      var i :| 0 <= i < |updates| && updates[i] == s;
      assert updates[0].key != updates[i].key;
      assert s in updates[1..];
      FindFirst(updates[1..], s);
    }
  }

  /** A printed setting reads back as itself. */
  lemma PrintedEntry(s: Setting)
    requires WellFormedSetting(s)
    ensures EntryOf(Print(s)) == Some(Entry(s.key, ValueOf(s)))
    ensures LF !in Print(s) && !EndsInCr(Print(s))
  {
    var line := Print(s);
    assert line == s.key + (['='] + ValueOf(s));
    UntilFound('=', s.key, ['='] + ValueOf(s));
    TrimKeepsFirst(line);
    assert line[..|s.key|] == s.key && line[|s.key| + 1..] == ValueOf(s);
    assert ValueOf(s) == "" ==> line[|line| - 1] == '=';
    assert ValueOf(s) != "" ==> line[|line| - 1] in ValueOf(s);
  }

  lemma RewriteHas(line: string, updates: seq<Setting>, key: string)
    requires WellFormed(updates)
    ensures Has(Rewrite(line, updates), key) <==> Has(line, key)
    ensures Has(line, key) && Find(updates, key).Some? ==> Rewrite(line, updates) == Print(Find(updates, key).value)
    ensures Has(line, key) && Find(updates, key).None? ==> Rewrite(line, updates) == line
    ensures LF !in line ==> LF !in Rewrite(line, updates)
  {
    var entry := EntryOf(line);
    if entry.Some? && Find(updates, entry.value.key).Some? { PrintedEntry(Find(updates, entry.value.key).value); }
  }

  lemma {:induction false} AddedLines(lines: seq<string>, updates: seq<Setting>, line: string)
    requires line in Added(lines, updates)
    ensures exists s | s in updates :: line == Print(s) && !Mentioned(lines, s.key)
  {
    if !Mentioned(lines, updates[0].key) && line == Print(updates[0]) {
      assert updates[0] in updates;
    } else {
      AddedLines(lines, updates[1..], line);
    }
  }

  lemma {:induction false} AddedSettings(lines: seq<string>, updates: seq<Setting>, s: Setting)
    requires s in updates && !Mentioned(lines, s.key)
    ensures Print(s) in Added(lines, updates)
  {
    if s != updates[0] { AddedSettings(lines, updates[1..], s); }
  }

  /** In the written lines every line of an updated key is that setting printed; every other entry line is
      an old line at its old place. */
  lemma NextLine(lines: seq<string>, updates: seq<Setting>, i: nat, key: string)
    requires WellFormed(updates) && i < |NextLines(lines, updates)| && Has(NextLines(lines, updates)[i], key)
    ensures Find(updates, key).Some? ==> NextLines(lines, updates)[i] == Print(Find(updates, key).value)
    ensures Find(updates, key).None? ==> i < |lines| && Has(lines[i], key) && NextLines(lines, updates)[i] == lines[i]
  {
    var next := NextLines(lines, updates);
    if i < |lines| {
      assert next[i] == Rewrite(lines[i], updates);
      RewriteHas(lines[i], updates, key);
    } else {
      assert next[i] == Added(lines, updates)[i - |lines|];
      AddedLines(lines, updates, next[i]);
      var s :| s in updates && next[i] == Print(s);
      PrintedEntry(s);
      FindFirst(updates, s);
    }
  }

  lemma NextMentions(lines: seq<string>, updates: seq<Setting>, key: string)
    requires WellFormed(updates)
    ensures Mentioned(NextLines(lines, updates), key) <==> Mentioned(lines, key) || Find(updates, key).Some?
  {
    var next := NextLines(lines, updates);
    if Mentioned(lines, key) {
      var i :| 0 <= i < |lines| && Has(lines[i], key);
      assert next[i] == Rewrite(lines[i], updates);
      RewriteHas(lines[i], updates, key);
      assert Has(next[i], key);
    } else if Find(updates, key).Some? {
      var s := Find(updates, key).value;
      AddedSettings(lines, updates, s);
      PrintedEntry(s);
      var k :| 0 <= k < |Added(lines, updates)| && Added(lines, updates)[k] == Print(s);
      assert next[|lines| + k] == Print(s);
      assert Has(next[|lines| + k], key);
    }
    if Mentioned(next, key) {
      var i :| 0 <= i < |next| && Has(next[i], key);
      NextLine(lines, updates, i, key);
    }
  }

  lemma NextLineNoLf(lines: seq<string>, updates: seq<Setting>, i: nat)
    requires WellFormed(updates) && (forall line | line in lines :: LF !in line) && i < |NextLines(lines, updates)|
    ensures LF !in NextLines(lines, updates)[i]
  {
    if i < |lines| {
      RewriteHas(lines[i], updates, "");
    } else {
      var line := Added(lines, updates)[i - |lines|];
      AddedLines(lines, updates, line);
      var s :| s in updates && line == Print(s);
      PrintedEntry(s);
    }
  }

  lemma NextHasNoLf(lines: seq<string>, updates: seq<Setting>)
    requires WellFormed(updates) && forall line | line in lines :: LF !in line
    ensures forall line | line in NextLines(lines, updates) :: LF !in line
  {
    forall i | 0 <= i < |NextLines(lines, updates)| ensures LF !in NextLines(lines, updates)[i] {
      NextLineNoLf(lines, updates, i);
    }
  }

  lemma ChompedHas(lines: seq<string>, i: nat, key: string)
    requires i < |lines|
    ensures Has(Chomped(lines)[i], key) <==> Has(lines[i], key)
  {
    if EndsInCr(lines[i]) { ChompedEntry(lines[i]); }
  }

  lemma ChompedDecides(lines: seq<string>, i: nat, key: string)
    requires i < |lines|
    ensures Decides(Chomped(lines), i, key) <==> Decides(lines, i, key)
  {
    forall j | 0 <= j < |lines| ensures Has(Chomped(lines)[j], key) <==> Has(lines[j], key) {
      ChompedHas(lines, j, key);
    }
  }

  /** What reading yields for one key after an update. */
  lemma UpdatedKey(text: string, updates: seq<Setting>, key: string)
    requires WellFormed(updates)
    ensures var next := NextLines(Lines(text), updates);
            var after := Read(Update(text, updates));
            && (key in after <==> key in Read(text) || Find(updates, key).Some?)
            && (Find(updates, key).Some? ==> key in after && after[key] == ValueOf(Find(updates, key).value))
  {
    hide Lines, NextLines, Chomped, Mentioned, Update, Has, Decides, Entries;
    var lines := Lines(text);
    var next := NextLines(lines, updates);
    UpdateLines(text, updates);
    NextMentions(lines, updates, key);
    EntriesMentioned(lines, key);
    EntriesMentioned(Chomped(next), key);
    ChompedMentioned(next, key);
    if Find(updates, key).Some? {
      var i := DecidingLine(next, key);
      ChompedDecides(next, i, key);
      DecidedValue(Chomped(next), i, key);
      NextLine(lines, updates, i, key);
      PrintedEntry(Find(updates, key).value);
    }
  }

  lemma UpdateLines(text: string, updates: seq<Setting>)
    requires WellFormed(updates)
    ensures Lines(Update(text, updates)) == Chomped(NextLines(Lines(text), updates))
  {
    LinesHaveNoLf(text);
    NextHasNoLf(Lines(text), updates);
    LinesOfJoin(NextLines(Lines(text), updates));
  }

  lemma ChompedMentioned(lines: seq<string>, key: string)
    ensures Mentioned(Chomped(lines), key) <==> Mentioned(lines, key)
  {
    forall j | 0 <= j < |lines| ensures Has(Chomped(lines)[j], key) <==> Has(lines[j], key) {
      ChompedHas(lines, j, key);
    }
  }

  /** Another line follows line `i`, or will: some updated key is not mentioned. */
  predicate Followed(lines: seq<string>, updates: seq<Setting>, i: int) {
    i < |lines| - 1 || exists s | s in updates :: !Mentioned(lines, s.key)
  }

  lemma FollowedInNext(lines: seq<string>, updates: seq<Setting>, i: int)
    requires 0 <= i < |lines|
    ensures Followed(lines, updates, i) <==> i < |NextLines(lines, updates)| - 1
  {
    if s :| s in updates && !Mentioned(lines, s.key) {
      AddedSettings(lines, updates, s);
    } else {
      NothingAdded(lines, updates);
    }
  }

  /** A key that is not updated keeps its value, unless its deciding line ends in a stray carriage return
      and another line follows it in the written file. */
  lemma KeptKey(text: string, updates: seq<Setting>, key: string, i: nat)
    requires WellFormed(updates) && Find(updates, key).None? && Decides(Lines(text), i, key)
    ensures var after, before := Read(Update(text, updates)), Read(text);
            key in before && key in after
            && (after[key] == before[key] <==> !(EndsInCr(Lines(text)[i]) && Followed(Lines(text), updates, i)))
  {
    var lines := Lines(text);
    var next := NextLines(lines, updates);
    UpdateLines(text, updates);
    FollowedInNext(lines, updates, i);
    DecidedValue(lines, i, key);
    RewriteHas(lines[i], updates, key);
    assert next[i] == Rewrite(lines[i], updates) == lines[i];
    forall j | i < j < |next| ensures !Has(next[j], key) {
      if Has(next[j], key) { NextLine(lines, updates, j, key); }
    }
    ChompedDecides(next, i, key);
    DecidedValue(Chomped(next), i, key);
    if EndsInCr(lines[i]) { ChompedEntry(lines[i]); }
  }

  /** The line that decides some key that is not updated ends in a carriage return and another line follows. */
  ghost predicate StrayCr(text: string, updates: seq<Setting>) {
    exists i, key :: Decides(Lines(text), i, key) && Find(updates, key).None? && EndsInCr(Lines(text)[i])
                     && Followed(Lines(text), updates, i)
  }

  /** Reading after an update yields the old entries overridden by the updates, duplicate key lines
      included, exactly when no such stray carriage return decides a value. */
  lemma ReadAfterUpdate(text: string, updates: seq<Setting>)
    requires WellFormed(updates)
    ensures Read(Update(text, updates)) == Read(text) + Values(updates) <==> !StrayCr(text, updates)
  {
    if StrayCr(text, updates) { StrayCrBreaks(text, updates); } else { NoStrayCrAgrees(text, updates); }
  }

  lemma StrayCrBreaks(text: string, updates: seq<Setting>)
    requires WellFormed(updates) && StrayCr(text, updates)
    ensures Read(Update(text, updates)) != Read(text) + Values(updates)
  {
    var i, key :| Decides(Lines(text), i, key) && Find(updates, key).None? && EndsInCr(Lines(text)[i])
                  && Followed(Lines(text), updates, i);
    KeptKey(text, updates, key, i);
    ValuesFind(updates, key);
    assert Read(Update(text, updates))[key] != (Read(text) + Values(updates))[key];
  }

  lemma AgreesAt(text: string, updates: seq<Setting>, key: string)
    requires WellFormed(updates) && !StrayCr(text, updates)
    ensures var after, both := Read(Update(text, updates)), Read(text) + Values(updates);
            (key in after <==> key in both) && (key in both ==> after[key] == both[key])
  {
    UpdatedKey(text, updates, key);
    ValuesFind(updates, key);
    if key in Read(text) && Find(updates, key).None? {
      EntriesMentioned(Lines(text), key);
      var i := DecidingLine(Lines(text), key);
      KeptKey(text, updates, key, i);
    }
  }

  lemma NoStrayCrAgrees(text: string, updates: seq<Setting>)
    requires WellFormed(updates) && !StrayCr(text, updates)
    ensures Read(Update(text, updates)) == Read(text) + Values(updates)
  {
    var after, both := Read(Update(text, updates)), Read(text) + Values(updates);
    forall key ensures (key in after <==> key in both) && (key in both ==> after[key] == both[key]) {
      AgreesAt(text, updates, key);
    }
  }

  lemma ValuesFind(updates: seq<Setting>, key: string)
    ensures key in Values(updates) <==> Find(updates, key).Some?
    ensures key in Values(updates) ==> Values(updates)[key] == ValueOf(Find(updates, key).value)
  {
  }

  predicate HoldsUpdated(line: string, updates: seq<Setting>) {
    EntryOf(line).Some? && Find(updates, EntryOf(line).value.key).Some?
  }

  /** A line that holds no updated key ends in a carriage return and another line follows. */
  ghost predicate StrayLine(text: string, updates: seq<Setting>) {
    exists i :: 0 <= i < |Lines(text)| && Followed(Lines(text), updates, i)
                && !HoldsUpdated(Lines(text)[i], updates) && EndsInCr(Lines(text)[i])
  }

  /** Updating twice is updating once, exactly when no such stray carriage return stands in the file. */
  lemma UpdateIdempotent(text: string, updates: seq<Setting>)
    requires WellFormed(updates)
    ensures Update(Update(text, updates), updates) == Update(text, updates) <==> !StrayLine(text, updates)
  {
    var lines := Lines(text);
    var next := NextLines(lines, updates);
    UpdateTwice(text, updates);
    if StrayLine(text, updates) {
      var i :| 0 <= i < |lines| && Followed(lines, updates, i)
               && !HoldsUpdated(lines[i], updates) && EndsInCr(lines[i]);
      FollowedInNext(lines, updates, i);
      assert next[i] == lines[i];
      ChompedShorter(next, i);
    } else {
      hide EndsInCr, HoldsUpdated, NextLines, Join, Lines, Followed;
      forall i | 0 <= i < |next| - 1 ensures !EndsInCr(next[i]) {
        if EndsInCr(next[i]) {
          NextEndsInCr(lines, updates, i);
          FollowedInNext(lines, updates, i);
        }
      }
      ChompedSame(next);
    }
  }

  lemma ChompedShorter(lines: seq<string>, i: nat)
    requires i < |lines| - 1 && EndsInCr(lines[i])
    ensures |Join(Chomped(lines))| < |Join(lines)|
  {
    JoinShorter(Chomped(lines), lines, i);
  }

  lemma ChompedSame(lines: seq<string>)
    requires forall i | 0 <= i < |lines| - 1 :: !EndsInCr(lines[i])
    ensures Chomped(lines) == lines
  {
  }

  lemma {:induction false} JoinShorter(a: seq<string>, b: seq<string>, i: nat)
    requires |a| == |b| && i < |a| && |a[i]| < |b[i]| && forall k | 0 <= k < |a| :: |a[k]| <= |b[k]|
    ensures |Join(a)| < |Join(b)|
    decreases |a|
  {
    if |a| > 1 {
      if i == 0 { JoinNotLonger(a[1..], b[1..]); } else { JoinShorter(a[1..], b[1..], i - 1); }
    }
  }

  lemma {:induction false} JoinNotLonger(a: seq<string>, b: seq<string>)
    requires |a| == |b| && a != [] && forall k | 0 <= k < |a| :: |a[k]| <= |b[k]|
    ensures |Join(a)| <= |Join(b)|
    decreases |a|
  {
    if |a| > 1 { JoinNotLonger(a[1..], b[1..]); }
  }

  /** Only lines that were left as they were can end in a carriage return. */
  lemma NextEndsInCr(lines: seq<string>, updates: seq<Setting>, i: nat)
    requires WellFormed(updates) && i < |NextLines(lines, updates)| && EndsInCr(NextLines(lines, updates)[i])
    ensures i < |lines| && !HoldsUpdated(lines[i], updates) && lines[i] == NextLines(lines, updates)[i]
  {
    var line := NextLines(lines, updates)[i];
    if i < |lines| {
      if HoldsUpdated(lines[i], updates) { PrintedEntry(Find(updates, EntryOf(lines[i]).value.key).value); }
    } else {
      AddedLines(lines, updates, Added(lines, updates)[i - |lines|]);
      var s :| s in updates && line == Print(s);
      PrintedEntry(s);
    }
  }

  lemma UpdateTwice(text: string, updates: seq<Setting>)
    requires WellFormed(updates)
    ensures Update(Update(text, updates), updates) == Join(Chomped(NextLines(Lines(text), updates)))
  {
    var lines := Lines(text);
    var next := NextLines(lines, updates);
    var again := Chomped(next);
    UpdateLines(text, updates);
    forall i | 0 <= i < |again| ensures Rewrite(again[i], updates) == again[i] { AgainStable(lines, updates, i); }
    assert Rewritten(again, updates) == again;
    forall s | s in updates ensures Mentioned(again, s.key) {
      FindFirst(updates, s);
      NextMentions(lines, updates, s.key);
      ChompedMentioned(next, s.key);
    }
    NothingAdded(again, updates);
    assert NextLines(again, updates) == again;
  }

  lemma AgainStable(lines: seq<string>, updates: seq<Setting>, i: nat)
    requires WellFormed(updates) && i < |NextLines(lines, updates)|
    ensures var line := Chomped(NextLines(lines, updates))[i]; Rewrite(line, updates) == line
  {
    var next := NextLines(lines, updates);
    var line := Chomped(next)[i];
    if EntryOf(line).Some? {
      var key := EntryOf(line).value.key;
      ChompedHas(next, i, key);
      NextLine(lines, updates, i, key);
      if Find(updates, key).Some? { PrintedEntry(Find(updates, key).value); }
    }
  }

  lemma {:induction false} NothingAdded(lines: seq<string>, updates: seq<Setting>)
    requires forall s | s in updates :: Mentioned(lines, s.key)
    ensures Added(lines, updates) == []
  {
    if updates != [] { NothingAdded(lines, updates[1..]); }
  }

  /** A file with a stray carriage return, and an update of its other key. */
  const STRAY_TEXT := "A=1\r\r" + [LF] + "B=2"
  const STRAY_UPDATE := [Setting("B", Some("3"))]

  lemma StrayLines()
    ensures Lines(STRAY_TEXT) == ["A=1\r", "B=2"]
  {
    LinesStep("A=1\r\r", "B=2");
    UntilWhole(LF, "B=2");
    assert Chomp("A=1\r\r") == "A=1\r";
  }

  lemma StrayEntries()
    ensures Has("A=1\r", "A") && !Has("B=2", "A")
  {
    var a, b := Setting("A", Some("1")), Setting("B", Some("2"));
    assert Print(a) == "A=1" && Print(b) == "B=2";
    PrintedEntry(a);
    PrintedEntry(b);
    assert Chomp("A=1\r") == "A=1";
    ChompedEntry("A=1\r");
  }

  /** Updating B there changes the value of A. */
  lemma StrayCrExample()
    ensures Read(Update(STRAY_TEXT, STRAY_UPDATE)) != Read(STRAY_TEXT) + Values(STRAY_UPDATE)
  {
    StrayLines();
    StrayEntries();
    assert Decides(Lines(STRAY_TEXT), 0, "A");
    assert |NextLines(Lines(STRAY_TEXT), STRAY_UPDATE)| >= 2;
    assert Find(STRAY_UPDATE, "A").None?;
    StrayWellFormed();
    ReadAfterUpdate(STRAY_TEXT, STRAY_UPDATE);
  }

  /** And updating B there a second time changes the file again. */
  lemma UpdateTwiceExample()
    ensures var once := Update(STRAY_TEXT, STRAY_UPDATE); Update(once, STRAY_UPDATE) != once
  {
    StrayLines();
    StrayEntries();
    var lines := Lines(STRAY_TEXT);
    assert EntryOf(lines[0]).value.key == "A";
    assert Find(STRAY_UPDATE, "A").None?;
    assert !HoldsUpdated(lines[0], STRAY_UPDATE) && Followed(lines, STRAY_UPDATE, 0) && EndsInCr(lines[0]);
    StrayWellFormed();
    UpdateIdempotent(STRAY_TEXT, STRAY_UPDATE);
  }

  lemma StrayWellFormed()
    ensures WellFormed(STRAY_UPDATE)
  {
    assert TrimEnd("B") == "B";
  }

  // ---------------------------------------------------------------- the file

  /** An environment file that may be absent. Writes go to an open descriptor, a piece at a time. */
  class EnvStore {
    var file: Option<string>

    constructor (file: Option<string>)
      ensures this.file == file
    {
      this.file := file;
    }

    /** A missing file reads as empty. */
    method ReadEntries() returns (entries: map<string, string>)
      ensures entries == if file.None? then map[] else Read(file.value)
    {
      entries := map[];
      if file.None? { return; }
      var lines := Lines(file.value);
      for i := 0 to |lines|
        invariant entries == Entries(lines[..i])
      {
        var line := lines[i];
        assert lines[..i + 1][..i] == lines[..i];
        if line == "" || Comment(line) { continue; }
        var separator := |Until('=', line)|;
        if separator == 0 || separator >= |line| { continue; }
        entries := entries[Trim(line[..separator]) := line[separator + 1..]];
      }
      assert lines[..|lines|] == lines;
    }

    /** Writes some of `data` from `offset` at the same position of the file; how much is up to the system. */
    method WriteSome(data: string, offset: nat) returns (n: nat)
      requires file.Some? && offset < |data| && offset <= |file.value|
      modifies this
      ensures 0 < n <= |data| - offset && file.Some? && |file.value| >= offset + n
      ensures file.value[..offset + n] == old(file.value)[..offset] + data[offset..offset + n]
    {
      n :| 0 < n <= |data| - offset;
      var before := file.value;
      var tail := if offset + n <= |before| then before[offset + n..] else "";
      file := Some(before[..offset] + data[offset..offset + n] + tail);
    }

    /** However the system cuts the writes and however long the file was, it ends as `data`. */
    method WriteAll(data: string)
      requires file.Some?
      modifies this
      ensures file == Some(data)
    {
      var offset := 0;
      while offset < |data|
        invariant offset <= |data| && file.Some? && offset <= |file.value|
        invariant file.value[..offset] == data[..offset]
      {
        var n := WriteSome(data, offset);
        assert data[..offset + n] == data[..offset] + data[offset..offset + n];
        offset := offset + n;
      }
      file := Some(file.value[..|data|]);
      assert data[..|data|] == data;
    }

    /** Rewrites the file in place unless only checking; a missing file is left missing. */
    method UpdateFile(updates: seq<Setting>, checkOnly: bool) returns (found: bool)
      modifies this
      ensures found == old(file).Some?
      ensures file == if found && !checkOnly then Some(Update(old(file.value), updates)) else old(file)
    {
      if file.None? { return false; }
      var lines := Lines(file.value);
      var next, seen := RewriteLines(lines, updates);
      next := AppendMissing(lines, next, seen, updates);
      if !checkOnly { WriteAll(Join(next)); }
      found := true;
    }
  }

  method RewriteLines(lines: seq<string>, updates: seq<Setting>) returns (next: seq<string>, seen: set<string>)
    ensures next == Rewritten(lines, updates)
    ensures forall s | s in updates :: s.key in seen <==> Mentioned(lines, s.key)
  {
    seen, next := {}, [];
    for i := 0 to |lines|
      invariant |next| == i && forall k | 0 <= k < i :: next[k] == Rewrite(lines[k], updates)
      invariant forall s | s in updates :: s.key in seen <==> Mentioned(lines[..i], s.key)
    {
      var entry := EntryOf(lines[i]);
      MentionedNext(lines, i);
      var s := if entry.None? then None else Find(updates, entry.value.key);
      if s.None? {
        next := next + [lines[i]];
      } else {
        seen := seen + {s.value.key};
        next := next + [Print(s.value)];
      }
    }
    assert lines[..|lines|] == lines;
  }

  lemma AddedStep(lines: seq<string>, updates: seq<Setting>, k: nat)
    requires k < |updates|
    ensures updates[k] in updates
    ensures Added(lines, updates[k..])
            == (if Mentioned(lines, updates[k].key) then [] else [Print(updates[k])]) + Added(lines, updates[k + 1..])
  {
    assert updates[k..][1..] == updates[k + 1..];
  }

  method AppendMissing(lines: seq<string>, rewritten: seq<string>, seen: set<string>, updates: seq<Setting>)
    returns (next: seq<string>)
    requires forall s | s in updates :: s.key in seen <==> Mentioned(lines, s.key)
    ensures next == rewritten + Added(lines, updates)
  {
    next := rewritten;
    for k := 0 to |updates|
      invariant next + Added(lines, updates[k..]) == rewritten + Added(lines, updates)
    {
      hide Mentioned, Print, Added;
      AddedStep(lines, updates, k);
      if updates[k].key !in seen { next := next + [Print(updates[k])]; }
    }
  }

  lemma MentionedNext(lines: seq<string>, i: nat)
    requires i < |lines|
    ensures forall key :: Mentioned(lines[..i + 1], key) <==> Mentioned(lines[..i], key) || Has(lines[i], key)
  {
    forall key ensures Mentioned(lines[..i + 1], key) <==> Mentioned(lines[..i], key) || Has(lines[i], key) {
      assert lines[..i + 1] == lines[..i] + [lines[i]];
      if Mentioned(lines[..i], key) {
        var k :| 0 <= k < i && Has(lines[..i][k], key);
        assert Has(lines[..i + 1][k], key);
      }
      if Has(lines[i], key) { assert Has(lines[..i + 1][i], key); }
    }
  }
}
