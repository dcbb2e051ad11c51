/**
 The installer at work. Every file-system step and every check may throw or be the last before a crash,
 as the fault script says; the script is arbitrary, so the contracts hold for every point of failure.
 */
module InstallerMachine {
  import opened Prelude
  import opened Installer

  datatype Fault = Proceed | Throws | Crashes

  datatype Outcome = Done | Threw | Crashed

  function OutcomeOf(f: Fault): Outcome {
    match f case Proceed => Done case Throws => Threw case Crashes => Crashed
  }

  /** The steps from `i` up to but not including `n` all go well. */
  ghost predicate Proceeds(script: nat -> Fault, i: nat, n: nat) { forall k: nat | i <= k < n :: script(k).Proceed? }

  /** No step from `i` on is the last one, and at most one throws. */
  ghost predicate OneThrow(script: nat -> Fault, i: nat) {
    && (forall k: nat | i <= k :: !script(k).Crashes?)
    && (forall k: nat, l: nat | i <= k < l :: script(k).Throws? ==> !script(l).Throws?)
  }

  /** A step that did not go well was the last one taken. */
  ghost predicate Blames(o: Outcome, script: nat -> Fault, i: nat, n: nat) {
    i <= n && (!o.Done? ==> i < n && OutcomeOf(script(n - 1)) == o)
  }

  /** One of those steps throws. */
  ghost predicate SomeThrow(script: nat -> Fault, i: nat, n: nat) { exists k: nat | i <= k < n :: script(k).Throws? }

  /** All later steps do. */
  ghost predicate Quiet(script: nat -> Fault, i: nat) { forall k: nat | i <= k :: script(k).Proceed? }

  /** How one run of the installer ends. */
  datatype Ending =
    | Installed(replaced: Option<Bundle>)
    | Refused
    | RolledBack(failurePreserved: bool)
    | RollbackFailed
    | LockRetained
    | BackupRetained
    | Died
    | DiedUndoing

  /** One attempt: its random names, what copying and signing really leave at the stage, and its mode. */
  datatype Attempt = Attempt(names: Names, copied: Bundle, signed: Bundle, partial: Option<Bundle>, release: bool)

  class Machine {
    var disk: Disk
    var script: nat -> Fault
    var step: nat

    constructor (disk: Disk, script: nat -> Fault)
      ensures this.disk == disk && this.script == script && step == 0
    {
      this.disk, this.script, step := disk, script, 0;
    }

    // -------------------------------------------------------------- single steps

    method Check() returns (o: Outcome)
      modifies this`step
      ensures o == OutcomeOf(script(old(step))) && step == old(step) + 1
    {
      o := OutcomeOf(script(step));
      step := step + 1;
    }

    method Rename(from: Path, to: Path) returns (o: Outcome)
      modifies this`disk, this`step
      ensures o.Done? ==> CanMove(old(disk), from, to) && disk == Moved(old(disk), from, to)
      ensures !o.Done? ==> disk == old(disk)
      ensures Keeps(to) ==> Kept(old(disk)) <= Kept(disk)
      ensures step == old(step) + 1
      ensures o == if script(old(step)).Proceed? && !CanMove(old(disk), from, to) then Threw
                   else OutcomeOf(script(old(step)))
    {
      o := Check();
      if o.Done? {
        if !CanMove(disk, from, to) { return Threw; }
        if Keeps(to) { MoveKeeps(disk, from, to); }
        disk := Moved(disk, from, to);
      }
    }

    method Remove(p: Path) returns (o: Outcome)
      modifies this`disk, this`step
      ensures o.Done? ==> disk == Removed(old(disk), p)
      ensures !o.Done? ==> disk == old(disk)
      ensures Kept(old(disk)) <= Kept(disk) + if p in old(disk).files && Keeps(p) then {old(disk).files[p]} else {}
      ensures o == OutcomeOf(script(old(step))) && step == old(step) + 1
    {
      o := Check();
      if o.Done? {
        RemoveKeeps(disk, p);
        disk := Removed(disk, p);
      }
    }

    /** Copying to or signing a staged app; a failure may leave part of it behind. */
    method Write(p: Path, b: Bundle, partial: Option<Bundle>) returns (o: Outcome)
      requires !Keeps(p)
      modifies this`disk, this`step
      ensures o.Done? ==> disk == Put(old(disk), p, b)
      ensures !o.Done? ==> disk == old(disk) || (partial.Some? && disk == Put(old(disk), p, partial.value))
      ensures Kept(old(disk)) <= Kept(disk)
      ensures o == OutcomeOf(script(old(step))) && step == old(step) + 1
    {
      o := Check();
      if o.Done? {
        PutKeeps(disk, p, b);
        disk := Put(disk, p, b);
      } else if partial.Some? {
        PutKeeps(disk, p, partial.value);
        disk := Put(disk, p, partial.value);
      }
    }

    method SetLock(lock: Lock) returns (o: Outcome)
      modifies this`disk, this`step
      ensures disk == old(disk).(lock := if o.Done? then lock else old(disk).lock)
      ensures Kept(disk) == Kept(old(disk))
      ensures o == OutcomeOf(script(old(step))) && step == old(step) + 1
    {
      o := Check();
      if o.Done? { disk := disk.(lock := lock); }
    }

    // -------------------------------------------------------------- recovery

    /** Recovers a stale lock. Uninterrupted it ends as `Recovered` says; stopped anywhere, the disk is still
        an interrupted install over the same `prior`, or the old app is already back. */
    method Recover(ghost prior: Option<Bundle>) returns (o: Outcome)
      requires disk.lock.Held?
      modifies this`disk, this`step
      ensures o.Done? ==> Some(disk) == Recovered(old(disk))
      ensures Quiet(script, old(step)) ==> (o.Done? <==> Recovered(old(disk)).Some?)
      ensures !o.Done? ==> disk.lock == old(disk).lock
      ensures old(disk).lock.journal.None? ==> o.Threw? && disk == old(disk)
      ensures Kept(old(disk)) <= Kept(disk)
      ensures !o.Done? && Interrupted(old(disk), prior) ==> Interrupted(disk, prior) || PutBack(disk, prior)
      ensures !o.Done? && PutBack(old(disk), prior) ==>
                PutBack(disk, prior) || (Interrupted(disk, None) && Misread(disk, old(disk).lock, prior))
    {
      if disk.lock.journal.None? { return Threw; }
      var j := disk.lock.journal.value;
      var backup, failure, stage := Backup(j.names.backup), Failure(j.names.failure), Stage(j.names.stage);
      o := Check();
      if !o.Done? { return; }
      if backup in disk.files && Destination in disk.files {
        if failure in disk.files { return Threw; }
        o := Rename(Destination, failure);
        if !o.Done? { return; }
        o := Rename(backup, Destination);
        if !o.Done? { return; }
      } else if backup in disk.files {
        o := Rename(backup, Destination);
        if !o.Done? { return; }
      } else if Destination in disk.files && LatePhase(j) {
        if failure in disk.files { return Threw; }
        o := Rename(Destination, failure);
        if !o.Done? { return; }
      }
      if stage in disk.files {
        o := Remove(stage);
        if !o.Done? { return; }
      } else {
        assert disk.files - {stage} == disk.files;
      }
      o := SetLock(Unlocked);
    }

    // -------------------------------------------------------------- going forward

    /** Inspects what is installed, then the source; a release needs one more check. */
    method VerifySource(release: bool) returns (o: Outcome, sourceIdentity: string)
      modifies this`step
      ensures o.Done? ==> Source in disk.files && disk.files[Source].identity == sourceIdentity
      ensures Source in disk.files && Proceeds(script, old(step), old(step) + VerifySteps(disk, release)) ==>
                o.Done? && step == old(step) + VerifySteps(disk, release)
      ensures Source in disk.files ==> Blames(o, script, old(step), step)
    {
      sourceIdentity := "";
      if Destination in disk.files {
        o := Check();
        if !o.Done? { return; }
      }
      o := Check();
      if !o.Done? { return; }
      if Source !in disk.files { o := Threw; return; }
      sourceIdentity := disk.files[Source].identity;
      o := Check();
      if o.Done? && release { o := Check(); }
    }

    /** Copies the source to the stage, verifies the copy, signs it and verifies it again. */
    method WriteStage(a: Attempt, sourceIdentity: string) returns (o: Outcome)
      modifies this`disk, this`step
      ensures disk.lock == old(disk).lock && Kept(old(disk)) <= Kept(disk)
      ensures forall p | p != Stage(a.names.stage) :: At(disk, p) == At(old(disk), p)
      ensures o.Done? ==> Stage(a.names.stage) in disk.files
      ensures a.copied.identity == sourceIdentity && Proceeds(script, old(step), old(step) + 5) ==>
                o.Done? && step == old(step) + 5
      ensures o.Done? ==> disk.files[Stage(a.names.stage)] == a.signed && a.copied.identity == sourceIdentity
      ensures old(step) <= step && (a.copied.identity == sourceIdentity ==> Blames(o, script, old(step), step))
      ensures Blames(o, script, old(step), step) || o.Threw?
    {
      var stage := Stage(a.names.stage);
      o := Write(stage, a.copied, a.partial);
      if !o.Done? { return; }
      o := Check();
      if !o.Done? { return; }
      if disk.files[stage].identity != sourceIdentity { o := Threw; return; }
      o := Write(stage, a.signed, a.partial);
      if !o.Done? { return; }
      o := Check();
      if o.Done? { o := Check(); }
    }

    /** Verifies the source and stages a signed copy of it. Only the stage changes. */
    method StageApp(a: Attempt) returns (o: Outcome, sourceIdentity: string)
      modifies this`disk, this`step
      ensures disk.lock == old(disk).lock && Kept(old(disk)) <= Kept(disk)
      ensures forall p | p != Stage(a.names.stage) :: At(disk, p) == At(old(disk), p)
      ensures o.Done? ==> Stage(a.names.stage) in disk.files
      ensures o.Done? ==> Source in disk.files && disk.files[Source].identity == sourceIdentity
      ensures Faithful(old(disk), a) && Proceeds(script, old(step), old(step) + StageSteps(old(disk), a)) ==>
                o.Done? && step == old(step) + StageSteps(old(disk), a)
      ensures o.Done? ==> disk.files[Stage(a.names.stage)] == a.signed && Faithful(old(disk), a)
      ensures Source in old(disk).files ==>
                old(step) <= step && (Faithful(old(disk), a) || !o.Threw? ==> Blames(o, script, old(step), step))
    {
      o, sourceIdentity := VerifySource(a.release);
      if o.Done? { o := WriteStage(a, sourceIdentity); }
      assert At(disk, Source) == At(old(disk), Source);
    }

    /** Sets the old app aside, promotes the staged one and verifies it in place. */
    method SwapIn(a: Attempt, sourceIdentity: string, ghost prior: Option<Bundle>)
      returns (o: Outcome, moved: bool, promoted: bool)
      requires disk.lock == Held(Some(Journal(a.names, Staging))) && At(disk, Destination) == prior
      requires Stage(a.names.stage) in disk.files
      requires Backup(a.names.backup) !in disk.files && Failure(a.names.failure) !in disk.files
      modifies this`disk, this`step
      ensures Kept(old(disk)) <= Kept(disk)
      ensures Source in disk.files <==> Source in old(disk).files
      ensures Source in disk.files ==> disk.files[Source] == old(disk).files[Source]
      ensures Progress(disk, a.names, prior, moved, promoted)
      ensures o.Done? ==> promoted && disk.files[Destination].identity == sourceIdentity
      ensures forall n :: At(disk, Failure(n)) == At(old(disk), Failure(n))
      ensures Destination in old(disk).files
              && Proceeds(script, old(step), old(step) + 4) && script(old(step) + 4).Throws? ==>
                o.Threw? && moved && !promoted && step == old(step) + 5
                && disk.lock.journal.value.phase.Promoting? && Stage(a.names.stage) in disk.files
      ensures old(step) <= step
      ensures old(disk).files[Stage(a.names.stage)].identity == sourceIdentity || !o.Threw? ==>
                Blames(o, script, old(step), step)
      ensures o.Done? ==> old(disk).files[Stage(a.names.stage)].identity == sourceIdentity
    {
      moved, promoted := false, false;
      if Destination in disk.files {
        o := SetLock(Held(Some(Journal(a.names, BackingUp))));
        if !o.Done? { return; }
        o := Rename(Destination, Backup(a.names.backup));
        if !o.Done? { return; }
        moved := true;
        o := Check();
        if !o.Done? { return; }
      }
      o := SetLock(Held(Some(Journal(a.names, Promoting))));
      if !o.Done? { return; }
      o := Rename(Stage(a.names.stage), Destination);
      if !o.Done? { return; }
      promoted := true;
      o := SetLock(Held(Some(Journal(a.names, Promoted))));
      if !o.Done? { return; }
      o := Check();
      if !o.Done? { return; }
      if disk.files[Destination].identity != sourceIdentity { o := Threw; return; }
      o := Check();
    }

    // -------------------------------------------------------------- going back

    /** Undoes what `moved` and `promoted` say was done, going on past failures. Without any the destination
        holds `prior` again; stopped or failed, the disk is still one a later run recognises. */
    method Rollback(a: Attempt, moved: bool, promoted: bool, ghost prior: Option<Bundle>)
      returns (o: Outcome, failurePreserved: bool)
      requires Progress(disk, a.names, prior, moved, promoted)
      modifies this`disk, this`step
      ensures Kept(old(disk)) <= Kept(disk)
      ensures disk.lock == old(disk).lock
      ensures Interrupted(disk, prior) || PutBack(disk, prior)
      ensures o.Done? ==> At(disk, Destination) == prior && Stage(a.names.stage) !in disk.files
                          && Backup(a.names.backup) !in disk.files
      ensures o.Done? && failurePreserved ==> At(disk, Failure(a.names.failure)) == At(old(disk), Destination)
      ensures o.Done? ==> failurePreserved == promoted
      ensures !failurePreserved ==> Failure(a.names.failure) !in disk.files
      ensures !promoted ==> !failurePreserved
      ensures forall n | n != a.names.failure :: At(disk, Failure(n)) == At(old(disk), Failure(n))
      ensures old(step) <= step && (Quiet(script, old(step)) ==> o.Done?)
      ensures o.Threw? ==> SomeThrow(script, old(step), step)
      ensures moved && !promoted && old(disk).lock.journal.value.phase.Promoting?
              && Stage(a.names.stage) in old(disk).files
              && Proceeds(script, old(step), old(step) + 2) && script(old(step) + 2).Crashes? ==>
                o.Crashed? && PutBack(disk, prior) && step == old(step) + 3
    {
      failurePreserved := false;
      var errors := false;
      if promoted && Destination in disk.files {
        o := Check();
        if o.Done? { o := Rename(Destination, Failure(a.names.failure)); }
        if o.Crashed? { return; }
        if o.Done? { failurePreserved := true; } else { errors := true; }
      }
      if moved && Backup(a.names.backup) in disk.files {
        o := Check();
        if o.Done? { o := Rename(Backup(a.names.backup), Destination); }
        if o.Crashed? { return; }
        if o.Threw? { errors := true; }
      }
      if !promoted && Stage(a.names.stage) in disk.files {
        o := Check();
        if o.Done? { o := Remove(Stage(a.names.stage)); }
        if o.Crashed? { return; }
        if o.Threw? { errors := true; }
      }
      o := if errors then Threw else Done;
    }

    // -------------------------------------------------------------- the whole installer

    /** The transaction proper, from an unlocked disk on which the attempt's own paths are free. */
    method Install(a: Attempt) returns (e: Ending)
      requires disk.lock.Unlocked? && Source in disk.files && OwnPathsFree(disk, a.names)
      modifies this`disk, this`step
      ensures Kept(old(disk)) <= Kept(disk) + ReplacedBy(e)
      ensures Explained(disk, e, a.names, At(old(disk), Destination))
      ensures JournalOf(disk, a.names)
      ensures e.Died? && !Interrupted(disk, At(old(disk), Destination)) ==>
                disk.files == old(disk).files || NewAppInPlace(disk, a.names, At(old(disk), Destination))
      ensures forall n | n != a.names.failure :: At(disk, Failure(n)) == At(old(disk), Failure(n))
      ensures Destination in old(disk).files && Faithful(old(disk), a)
              && DiesHavingPutBack(script, old(step), old(step) + 6 + StageSteps(old(disk), a)) ==>
                e.DiedUndoing? && PutBack(disk, At(old(disk), Destination)) && Failure(a.names.failure) !in disk.files
                && step == old(step) + 10 + StageSteps(old(disk), a)
      ensures e.Installed? ==> Verified(disk)
      ensures Quiet(script, old(step)) ==> if Matching(old(disk), a) then e.Installed? else e.RolledBack?
      ensures Matching(old(disk), a) && OneThrow(script, old(step)) ==> Undisturbed(disk, e, At(old(disk), Destination))
    {
      hide Progress, Interrupted, Kept, Proceeds;
      ghost var prior := At(disk, Destination);
      ScriptSplits(script, step, step + 6 + StageSteps(disk, a));
      var o := SetLock(Held(None));
      if o.Done? { o := SetLock(Held(Some(Journal(a.names, Staging)))); }
      if o.Crashed? { return Died; }
      if o.Threw? { return Refused; }

      var moved, promoted;
      o, moved, promoted := GoForward(a, prior);
      if o.Crashed? {
        ProgressInterrupted(disk, a.names, prior, moved, promoted);
        return Died;
      }
      if o.Threw? { e := UndoInstall(a, moved, promoted, prior); return; }
      e := Commit(a, moved, prior);
    }

    /** Everything up to the verified new app in place; the flags and the journal record how far it got. */
    method GoForward(a: Attempt, ghost prior: Option<Bundle>) returns (o: Outcome, moved: bool, promoted: bool)
      requires disk.lock == Held(Some(Journal(a.names, Staging))) && At(disk, Destination) == prior
      requires Source in disk.files && OwnPathsFree(disk, a.names)
      modifies this`disk, this`step
      ensures Kept(old(disk)) <= Kept(disk)
      ensures Progress(disk, a.names, prior, moved, promoted)
      ensures Source in disk.files && disk.files[Source] == old(disk).files[Source]
      ensures o.Done? ==> promoted && disk.files[Destination].identity == disk.files[Source].identity
      ensures forall n :: At(disk, Failure(n)) == At(old(disk), Failure(n))
      ensures Destination in old(disk).files && Faithful(old(disk), a)
              && Proceeds(script, old(step), old(step) + 4 + StageSteps(old(disk), a))
              && script(old(step) + 4 + StageSteps(old(disk), a)).Throws? ==>
                o.Threw? && moved && !promoted && step == old(step) + 5 + StageSteps(old(disk), a)
                && disk.lock.journal.value.phase.Promoting? && Stage(a.names.stage) in disk.files
      ensures old(step) <= step && (Matching(old(disk), a) || !o.Threw? ==> Blames(o, script, old(step), step))
      ensures o.Done? ==> Matching(old(disk), a)
    {
      moved, promoted := false, false;
      ghost var start := disk;
      var sourceIdentity;
      o, sourceIdentity := StageApp(a);
      assert At(disk, Destination) == prior && At(disk, Source) == At(start, Source);
      assert At(disk, Backup(a.names.backup)) == None && At(disk, Failure(a.names.failure)) == None;
      if o.Done? { o, moved, promoted := SwapIn(a, sourceIdentity, prior); }
    }

    /** Releases the lock, then removes the old app that was set aside. */
    method Commit(a: Attempt, moved: bool, ghost prior: Option<Bundle>) returns (e: Ending)
      requires Progress(disk, a.names, prior, moved, true) && Source in disk.files
      requires disk.files[Destination].identity == disk.files[Source].identity
      modifies this`disk, this`step
      ensures Kept(old(disk)) <= Kept(disk) + ReplacedBy(e)
      ensures Explained(disk, e, a.names, prior)
      ensures e.Died? ==> Interrupted(disk, prior) || NewAppInPlace(disk, a.names, prior)
      ensures JournalOf(disk, a.names)
      ensures forall n :: At(disk, Failure(n)) == At(old(disk), Failure(n))
      ensures !e.RolledBack? && !e.Refused? && !e.RollbackFailed? && !e.DiedUndoing?
      ensures NewAtDestination(disk)
      ensures Quiet(script, old(step)) ==> e.Installed?
      ensures OneThrow(script, old(step)) ==> !e.Died?
    {
      var o := SetLock(Unlocked);
      if o.Crashed? { return Died; }
      if o.Threw? { return LockRetained; }
      if !(moved && Backup(a.names.backup) in disk.files) { return Installed(None); }
      var replaced := disk.files[Backup(a.names.backup)];
      o := Check();
      if o.Done? { o := Remove(Backup(a.names.backup)); }
      e := match o case Done => Installed(Some(replaced)) case Threw => BackupRetained case Crashed => Died;
    }

    /** One run of the installer: the attempt's paths must be free, and a lock left by an earlier run is
        recovered first. `prior` is what that earlier run, or this one, found installed. */
    method Run(a: Attempt, ghost prior: Option<Bundle>) returns (e: Ending)
      requires UniqueNames(disk, a.names)
      modifies this`disk, this`step
      ensures Kept(old(disk)) <= Kept(disk) + ReplacedBy(e)
      ensures Settled(old(disk), prior) || Interrupted(old(disk), prior) ==> Explained(disk, e, a.names, prior)
      ensures PutBack(old(disk), prior) ==>
                || (PutBack(disk, prior) && (e.Refused? || e.Died? || e.DiedUndoing?))
                || (Misread(disk, old(disk).lock, prior) && Explained(disk, e, a.names, None))
      ensures JournalOf(disk, a.names) || disk.lock == old(disk).lock
      ensures e.Installed? ==> Verified(disk)
      ensures old(disk).lock == Held(None) ==> (e.Refused? || e.Died?) && disk == old(disk)
    {
      var o := Check();
      if o.Crashed? { return Died; }
      if o.Threw? || Source !in disk.files || !OwnPathsFree(disk, a.names) { return Refused; }
      if disk.lock.Held? {
        ghost var stale := disk;
        o := Recover(prior);
        if o.Crashed? { return DiedUndoing; }
        if o.Threw? { return Refused; }
        RecoveryRestoresIfInterrupted(stale, prior);
        if PutBack(stale, prior) { PutBackIsMisread(stale, prior); }
        RecoveryLeavesFree(stale, a.names);
      }
      e := Install(a);
    }

    /** A crash at any step forward, then one uninterrupted recovery of the disk `crashed` it left. With a
        journal on it the destination holds exactly what it held before, and the stage and the lock are gone.
        Without one there is nothing to recover: the install had not begun, or it had released the lock and
        the verified new app stays. */
    method CrashThenRecover(a: Attempt) returns (e: Ending, ghost crashed: Disk)
      requires disk.lock.Unlocked? && Source in disk.files && OwnPathsFree(disk, a.names)
      modifies this
      ensures Explained(crashed, e, a.names, At(old(disk), Destination))
      ensures e.Died? && Journalled(crashed) ==>
                Settled(disk, At(old(disk), Destination)) && Stage(a.names.stage) !in disk.files
      ensures e.Died? && !Journalled(crashed) ==>
                && disk == crashed
                && (disk.files == old(disk).files || NewAppInPlace(disk, a.names, At(old(disk), Destination)))
    {
      ghost var prior := At(disk, Destination);
      e := Install(a);
      crashed := disk;
      if e.Died? && disk.lock.Held? && disk.lock.journal.Some? {
        script := _ => Proceed;
        RecoveryRestoresUnlessPutBack(disk, prior);
        var o := Recover(prior);
      }
    }

    /** A run into the state recovery misreads, whatever app was installed: the rename that promotes the new
        app fails, rollback puts the old app back, and the process dies before it removes the stage. One
        uninterrupted recovery then moves the old app away. */
    method DieHavingPutBack(a: Attempt) returns (e: Ending, ghost crashed: Disk)
      requires disk.lock.Unlocked? && OwnPathsFree(disk, a.names) && Faithful(disk, a) && Destination in disk.files
      modifies this
      ensures e.DiedUndoing? && PutBack(crashed, At(old(disk), Destination))
      ensures Destination !in disk.files && At(disk, Failure(a.names.failure)) == At(old(disk), Destination)
    {
      ghost var prior := At(disk, Destination);
      var rename := step + 6 + StageSteps(disk, a);
      script := k => if k == rename then Throws else if k == rename + 3 then Crashes else Proceed;
      e := Install(a);
      crashed := disk;
      PutBackIsMisread(disk, prior);
      var o := Recover(prior);
    }

    /** Any number of runs, each with its own names and stopped wherever the script says. `disks` are the disks
        before, between and after them: no app that is in place, set aside or preserved on any of them is
        missing at the end, except those a later completed install replaced, and such an install ends with the
        verified new app in place. */
    method Lifetime(attempts: seq<Attempt>) returns (endings: seq<Ending>, ghost disks: seq<Disk>)
      requires forall i, j | 0 <= i < j < |attempts| :: attempts[i].names.failure != attempts[j].names.failure
      requires forall i | 0 <= i < |attempts| :: UniqueNames(disk, attempts[i].names)
      modifies this`disk, this`step
      ensures |endings| == |attempts| && |disks| == |attempts| + 1
      ensures disks[0] == old(disk) && disks[|attempts|] == disk
      ensures forall i | 0 <= i < |attempts| :: Kept(disks[i]) <= Kept(disks[i + 1]) + ReplacedBy(endings[i])
      ensures forall i | 0 <= i < |disks| :: KeptSince(disks[i], disk, endings[i..])
      ensures forall i | 0 <= i < |attempts| && endings[i].Installed? :: Verified(disks[i + 1])
    {
      endings, disks := [], [disk];
      ghost var stale := disk.lock;
      for i := 0 to |attempts|
        invariant |endings| == i && |disks| == i + 1 && disks[0] == old(disk) && disks[i] == disk
        invariant forall k | 0 <= k < i :: Kept(disks[k]) <= Kept(disks[k + 1]) + ReplacedBy(endings[k])
        invariant forall k | 0 <= k <= i :: KeptSince(disks[k], disk, endings[k..])
        invariant forall k | 0 <= k < i && endings[k].Installed? :: Verified(disks[k + 1])
        invariant disk.lock == stale || exists k | 0 <= k < i :: JournalOf(disk, attempts[k].names)
      {
        assert UniqueNames(disk, attempts[i].names);
        ghost var before := disk;
        var e := Run(attempts[i], None);
        forall k | 0 <= k <= i ensures KeptSince(disks[k], disk, (endings + [e])[k..]) {
          assert (endings + [e])[k..] == endings[k..] + [e];
          KeptLonger(disks[k], before, disk, endings[k..], e);
        }
        endings := endings + [e];
        disks := disks + [disk];
      }
    }

    /** The failing path of an install: roll back, then release the lock unless rollback itself failed. */
    method UndoInstall(a: Attempt, moved: bool, promoted: bool, ghost prior: Option<Bundle>) returns (e: Ending)
      requires Progress(disk, a.names, prior, moved, promoted)
      modifies this`disk, this`step
      ensures Kept(old(disk)) <= Kept(disk)
      ensures e.RolledBack? || e.RollbackFailed? || e.LockRetained? || e.DiedUndoing?
      ensures Quiet(script, old(step)) ==> e.RolledBack?
      ensures e.RollbackFailed? ==> SomeThrow(script, old(step), step)
      ensures e.LockRetained? ==> At(disk, Destination) == prior && Stage(a.names.stage) !in disk.files
      ensures Explained(disk, e, a.names, prior)
      ensures JournalOf(disk, a.names)
      ensures e.RolledBack? ==>
                && disk.lock.Unlocked? && At(disk, Destination) == prior
                && Stage(a.names.stage) !in disk.files && Backup(a.names.backup) !in disk.files
                && e.failurePreserved == promoted
                && (e.failurePreserved ==> At(disk, Failure(a.names.failure)) == At(old(disk), Destination))
                && (!e.failurePreserved ==> Failure(a.names.failure) !in disk.files)
      ensures !e.RolledBack? ==> Interrupted(disk, prior) || PutBack(disk, prior)
      ensures forall n | n != a.names.failure :: At(disk, Failure(n)) == At(old(disk), Failure(n))
      ensures moved && !promoted && old(disk).lock.journal.value.phase.Promoting?
              && Stage(a.names.stage) in old(disk).files
              && Proceeds(script, old(step), old(step) + 2) && script(old(step) + 2).Crashes? ==>
                e.DiedUndoing? && PutBack(disk, prior) && step == old(step) + 3
                && Failure(a.names.failure) !in disk.files
    {
      var o, failurePreserved := Rollback(a, moved, promoted, prior);
      if o.Crashed? { return DiedUndoing; }
      if o.Threw? { return RollbackFailed; }
      o := SetLock(Unlocked);
      if o.Crashed? { return DiedUndoing; }
      if o.Threw? { return LockRetained; }
      return RolledBack(failurePreserved);
    }
  }

  /** How far an attempt got, as its two flags record it. */
  predicate Progress(d: Disk, names: Names, prior: Option<Bundle>, moved: bool, promoted: bool) {
    && d.lock.Held? && d.lock.journal.Some? && d.lock.journal.value.names == names
    && (moved ==> prior.Some?)
    && Failure(names.failure) !in d.files
    && var j := d.lock.journal.value;
       if promoted then Replaced(d, j, prior) && (prior.Some? ==> moved)
       else if moved then SetAside(d, j, prior)
       else Untouched(d, j, prior)
  }

  lemma ProgressInterrupted(d: Disk, names: Names, prior: Option<Bundle>, moved: bool, promoted: bool)
    requires Progress(d, names, prior, moved, promoted)
    ensures Interrupted(d, prior)
  {
  }

  lemma ScriptSplits(script: nat -> Fault, i: nat, rename: nat)
    ensures DiesHavingPutBack(script, i, rename) && i + 2 <= rename ==>
              script(i).Proceed? && script(i + 1).Proceed? && Proceeds(script, i + 2, rename)
  {
  }

  predicate OwnPathsFree(d: Disk, names: Names) {
    Stage(names.stage) !in d.files && Backup(names.backup) !in d.files && Failure(names.failure) !in d.files
  }

  /** Random sibling names do not repeat the failure name of the run that left the lock. */
  predicate UniqueNames(d: Disk, names: Names) {
    d.lock.Held? && d.lock.journal.Some? ==> d.lock.journal.value.names.failure != names.failure
  }

  /** A journal on the disk is this attempt's. */
  predicate JournalOf(d: Disk, names: Names) {
    d.lock.Held? && d.lock.journal.Some? ==> d.lock.journal.value.names == names
  }

  /** Copying leaves what the source holds. */
  predicate Faithful(d: Disk, a: Attempt) { Source in d.files && a.copied.identity == d.files[Source].identity }

  /** Copying and signing both keep the identity of the source. */
  predicate Matching(d: Disk, a: Attempt) { Faithful(d, a) && a.signed.identity == d.files[Source].identity }

  predicate NewAtDestination(d: Disk) {
    Destination in d.files && Source in d.files && d.files[Destination].identity == d.files[Source].identity
  }

  /** Installed and checked: the destination holds a bundle with the identity of the source. */
  predicate Verified(d: Disk) { d.lock.Unlocked? && NewAtDestination(d) }

  /** The old app or the verified new one is in place, and nothing went wrong on the way back. */
  predicate Undisturbed(d: Disk, e: Ending, prior: Option<Bundle>) {
    && !e.RollbackFailed? && !e.Died? && !e.DiedUndoing?
    && if e.Refused? || e.RolledBack? then At(d, Destination) == prior else NewAtDestination(d)
  }

  function VerifySteps(d: Disk, release: bool): nat {
    (if Destination in d.files then 1 else 0) + (if release then 1 else 0) + 2
  }

  function StageSteps(d: Disk, a: Attempt): nat { VerifySteps(d, a.release) + 5 }

  /** From step `i` all goes well but for the renaming step, which throws, and the third one after it, which is
      the last. */
  ghost predicate DiesHavingPutBack(script: nat -> Fault, i: nat, rename: nat) {
    && Proceeds(script, i, rename) && script(rename).Throws?
    && Proceeds(script, rename + 1, rename + 3) && script(rename + 3).Crashes?
  }

  predicate Journalled(d: Disk) { d.lock.Held? && d.lock.journal.Some? }

  /** The old app rests at the failure path that a stale lock names. */
  predicate Misread(d: Disk, stale: Lock, prior: Option<Bundle>) {
    && stale.Held? && stale.journal.Some? && prior.Some?
    && At(d, Failure(stale.journal.value.names.failure)) == prior
  }

  /** What `earlier` kept is still kept, unless one of the endings since is an install that replaced it. */
  ghost predicate KeptSince(earlier: Disk, d: Disk, since: seq<Ending>) {
    forall b | b in Kept(earlier) :: b in Kept(d) || Installed(Some(b)) in since
  }

  lemma KeptLonger(earlier: Disk, before: Disk, after: Disk, since: seq<Ending>, e: Ending)
    requires KeptSince(earlier, before, since) && Kept(before) <= Kept(after) + ReplacedBy(e)
    ensures KeptSince(earlier, after, since + [e])
  {
    assert (since + [e])[|since|] == e;
    forall b | b in Kept(earlier) ensures b in Kept(after) || Installed(Some(b)) in since + [e] {
      if b in Kept(before) && b !in Kept(after) {
        assert b in ReplacedBy(e);
      }
    }
  }

  predicate Settled(d: Disk, prior: Option<Bundle>) { d.lock.Unlocked? && At(d, Destination) == prior }

  function ReplacedBy(e: Ending): set<Bundle> {
    if e.Installed? && e.replaced.Some? then {e.replaced.value} else {}
  }

  /** Committed: the destination holds a bundle with the identity of the source, the old one still aside. */
  predicate NewAppInPlace(d: Disk, names: Names, prior: Option<Bundle>) {
    && d.lock.Unlocked? && prior.Some? && At(d, Backup(names.backup)) == prior
    && Destination in d.files && Source in d.files
    && d.files[Destination].identity == d.files[Source].identity
  }

  /** What each ending of a run over `prior` says about the disk it leaves. */
  predicate Explained(d: Disk, e: Ending, names: Names, prior: Option<Bundle>) {
    match e
    case Installed(replaced) =>
      && d.lock.Unlocked? && replaced == prior
      && Destination in d.files && Source in d.files && d.files[Destination].identity == d.files[Source].identity
      && Stage(names.stage) !in d.files && Backup(names.backup) !in d.files
    case RolledBack(preserved) =>
      && Settled(d, prior) && Stage(names.stage) !in d.files && Backup(names.backup) !in d.files
      && (preserved <==> Failure(names.failure) in d.files)
    case BackupRetained => NewAppInPlace(d, names, prior)
    case Refused =>
      || (At(d, Destination) == prior && (d.lock.Held? ==> d.lock.journal.None?))
      || Interrupted(d, prior) || PutBack(d, prior)
    case RollbackFailed => Interrupted(d, prior) || PutBack(d, prior)
    case LockRetained => Interrupted(d, prior) || PutBack(d, prior)
    case DiedUndoing => Interrupted(d, prior) || PutBack(d, prior)
    case Died =>
      || (At(d, Destination) == prior && (d.lock.Held? ==> d.lock.journal.None?))
      || NewAppInPlace(d, names, prior) || Interrupted(d, prior)
  }

  lemma RecoveryRestoresIfInterrupted(d: Disk, prior: Option<Bundle>)
    requires d.lock.Held? && Recovered(d).Some?
    ensures Interrupted(d, prior) ==> Settled(Recovered(d).value, prior)
  {
    if Interrupted(d, prior) { RecoveryRestoresUnlessPutBack(d, prior); }
  }

  lemma RecoveryLeavesFree(d: Disk, names: Names)
    requires d.lock.Held? && Recovered(d).Some? && OwnPathsFree(d, names) && UniqueNames(d, names)
    ensures OwnPathsFree(Recovered(d).value, names)
    ensures Source in d.files ==> Source in Recovered(d).value.files
    ensures Recovered(d).value.lock.Unlocked?
  {
  }
}
