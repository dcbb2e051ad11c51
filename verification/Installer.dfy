/**
 The disk the macOS installer works on, and what a later run makes of an install that was interrupted.
 A disk maps paths to app bundles and has one lock directory that may hold a journal.
 */
module Installer {
  import opened Prelude

  /** The staging, backup and failure paths carry the random names of one attempt. */
  datatype Path = Source | Destination | Stage(name: int) | Backup(name: int) | Failure(name: int)

  datatype Names = Names(stage: int, backup: int, failure: int)

  datatype Phase = Staging | BackingUp | Promoting | Promoted

  datatype Journal = Journal(names: Names, phase: Phase)

  /** The identity stands for the digests of the app archive and of the runtime manifest. */
  datatype Bundle = Bundle(identity: string, payload: int)

  datatype Lock = Unlocked | Held(journal: Option<Journal>)

  datatype Disk = Disk(files: map<Path, Bundle>, lock: Lock)

  function At(d: Disk, p: Path): Option<Bundle> {
    if p in d.files then Some(d.files[p]) else None
  }

  /** A rename fails when there is nothing to move or something in the way. */
  predicate CanMove(d: Disk, from: Path, to: Path) { from in d.files && to !in d.files }

  function Moved(d: Disk, from: Path, to: Path): Disk
    requires CanMove(d, from, to)
  {
    d.(files := d.files[to := d.files[from]] - {from})
  }

  function Removed(d: Disk, p: Path): Disk { d.(files := d.files - {p}) }

  function Put(d: Disk, p: Path, b: Bundle): Disk { d.(files := d.files[p := b]) }

  /** The paths an installed app may rest at: in place, set aside, or preserved after a failure. */
  predicate Keeps(p: Path) { p.Destination? || p.Backup? || p.Failure? }

  function Kept(d: Disk): set<Bundle> { set p | p in d.files && Keeps(p) :: d.files[p] }

  lemma KeptAt(d: Disk, p: Path)
    requires p in d.files && Keeps(p)
    ensures d.files[p] in Kept(d)
  {
  }

  lemma MoveKeeps(d: Disk, from: Path, to: Path)
    requires CanMove(d, from, to) && Keeps(to)
    ensures Kept(d) <= Kept(Moved(d, from, to))
  {
    var m := Moved(d, from, to);
    forall b | b in Kept(d) ensures b in Kept(m) {
      var p :| p in d.files && Keeps(p) && d.files[p] == b;
      KeptAt(m, if p == from then to else p);
    }
  }

  lemma RemoveKeeps(d: Disk, p: Path)
    ensures Kept(d) <= Kept(Removed(d, p)) + if p in d.files && Keeps(p) then {d.files[p]} else {}
  {
    var m := Removed(d, p);
    forall b | b in Kept(d) && b !in Kept(m) ensures p in d.files && Keeps(p) && b == d.files[p] {
      var q :| q in d.files && Keeps(q) && d.files[q] == b;
      if q != p { KeptAt(m, q); }
    }
  }

  lemma PutKeeps(d: Disk, p: Path, b: Bundle)
    requires !Keeps(p)
    ensures Kept(d) <= Kept(Put(d, p, b))
  {
    forall x | x in Kept(d) ensures x in Kept(Put(d, p, b)) {
      var q :| q in d.files && Keeps(q) && d.files[q] == x;
      KeptAt(Put(d, p, b), q);
    }
  }

  // ---------------------------------------------------------------- recovery as a whole

  predicate LatePhase(j: Journal) { j.phase.Promoting? || j.phase.Promoted? }

  /** What uninterrupted recovery of a journalled disk ends with, or nothing when it must refuse. */
  function Recovered(d: Disk): Option<Disk>
    requires d.lock.Held?
  {
    if d.lock.journal.None? then None
    else
      var j := d.lock.journal.value;
      var backup, failure, stage := Backup(j.names.backup), Failure(j.names.failure), Stage(j.names.stage);
      if backup in d.files && Destination in d.files then
        if failure in d.files then None
        else Some(Cleaned(Moved(Moved(d, Destination, failure), backup, Destination), stage))
      else if backup in d.files then Some(Cleaned(Moved(d, backup, Destination), stage))
      else if Destination in d.files && LatePhase(j) then
        if failure in d.files then None else Some(Cleaned(Moved(d, Destination, failure), stage))
      else Some(Cleaned(d, stage))
  }

  function Cleaned(d: Disk, stage: Path): Disk { Removed(d, stage).(lock := Unlocked) }

  /** An install over `prior` stopped somewhere on its way forward, or on its way back before the old app
      was put back: prior is untouched, set aside, or the new app is in place or set aside as failed. */
  predicate Interrupted(d: Disk, prior: Option<Bundle>) {
    d.lock.Held? && d.lock.journal.Some? &&
    var j := d.lock.journal.value;
    Untouched(d, j, prior) || SetAside(d, j, prior) || Replaced(d, j, prior) || Withdrawn(d, j, prior)
  }

  predicate Untouched(d: Disk, j: Journal, prior: Option<Bundle>) {
    && At(d, Destination) == prior && Backup(j.names.backup) !in d.files
    && (LatePhase(j) ==> prior.None?)
  }

  predicate SetAside(d: Disk, j: Journal, prior: Option<Bundle>) {
    && prior.Some? && Destination !in d.files && At(d, Backup(j.names.backup)) == prior
    && Failure(j.names.failure) !in d.files
  }

  predicate Replaced(d: Disk, j: Journal, prior: Option<Bundle>) {
    && Destination in d.files && At(d, Backup(j.names.backup)) == prior && LatePhase(j)
    && Failure(j.names.failure) !in d.files && Stage(j.names.stage) !in d.files
  }

  predicate Withdrawn(d: Disk, j: Journal, prior: Option<Bundle>) {
    && Destination !in d.files && At(d, Backup(j.names.backup)) == prior && LatePhase(j)
  }

  /** The old app was already put back, but the journal still says the new one was being promoted. */
  predicate PutBack(d: Disk, prior: Option<Bundle>) {
    && d.lock.Held? && d.lock.journal.Some? && prior.Some?
    && At(d, Destination) == prior && Backup(d.lock.journal.value.names.backup) !in d.files
    && LatePhase(d.lock.journal.value)
  }

  /** Recovery restores what the install found, exactly unless the old app had already been put back. */
  lemma RecoveryRestoresUnlessPutBack(d: Disk, prior: Option<Bundle>)
    requires Interrupted(d, prior) || PutBack(d, prior)
    ensures (Recovered(d).Some? && At(Recovered(d).value, Destination) == prior) <==> !PutBack(d, prior)
    ensures Recovered(d).Some? ==> Recovered(d).value.lock.Unlocked?
                                   && Stage(d.lock.journal.value.names.stage) !in Recovered(d).value.files
  {
  }

  /** When it had, recovery takes it for the failed new app: it is moved to the failure path, or, when that
      is occupied, recovery refuses and every later install with it. */
  lemma PutBackIsMisread(d: Disk, prior: Option<Bundle>)
    requires PutBack(d, prior)
    ensures var failure := Failure(d.lock.journal.value.names.failure);
            if failure in d.files then Recovered(d) == None
            else Recovered(d).Some? && Destination !in Recovered(d).value.files
                 && At(Recovered(d).value, failure) == prior
  {
  }

  /** A concrete disk in that state: the old app in place, the staged one still there, promotion journalled. */
  lemma PutBackExample()
    ensures var old' := Bundle("old", 1);
            var d := Disk(map[Destination := old', Stage(7) := Bundle("new", 2)],
                          Held(Some(Journal(Names(7, 8, 9), Promoting))));
            PutBack(d, Some(old')) && Recovered(d) == Some(Disk(map[Failure(9) := old'], Unlocked))
  {
    var old' := Bundle("old", 1);
    var d := Disk(map[Destination := old', Stage(7) := Bundle("new", 2)],
                  Held(Some(Journal(Names(7, 8, 9), Promoting))));
    assert Moved(d, Destination, Failure(9)).files == map[Stage(7) := Bundle("new", 2), Failure(9) := old'];
    assert Cleaned(Moved(d, Destination, Failure(9)), Stage(7)).files == map[Failure(9) := old'];
  }

  /** Recovery never loses an app, whatever state it starts from. */
  lemma RecoveryKeeps(d: Disk)
    requires d.lock.Held? && Recovered(d).Some?
    ensures Kept(d) <= Kept(Recovered(d).value)
  {
    var j := d.lock.journal.value;
    var backup, failure, stage := Backup(j.names.backup), Failure(j.names.failure), Stage(j.names.stage);
    var m := d;
    if Destination in d.files && (backup in d.files || LatePhase(j)) {
      MoveKeeps(m, Destination, failure);
      m := Moved(m, Destination, failure);
    }
    if backup in d.files {
      MoveKeeps(m, backup, Destination);
      m := Moved(m, backup, Destination);
    }
    CleanKeeps(m, stage);
  }

  lemma CleanKeeps(d: Disk, stage: Path)
    requires stage.Stage?
    ensures Kept(d) <= Kept(Cleaned(d, stage))
  {
    RemoveKeeps(d, stage);
    assert Kept(Cleaned(d, stage)) == Kept(Removed(d, stage));
  }
}
