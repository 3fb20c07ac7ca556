/** Applying an update file by file under its journal, concluding the health check, and recovering.

    Every call to the system may work, or fail having done nothing, half of it, or all of it.  A
    process that dies is one whose every later call fails having done nothing.  Unless all is
    quiet, any file may change at any moment. */
module UpdateApply {
  import opened UpdateJournal
  import opened Wrappers

  datatype Happening = Works | FailsBefore | FailsHalfway | FailsAfter

  /** One change of an installed file: what was there, what is now, whether the stored journal already
      said that the step was to be made, and whether the health child was known to be gone. */
  datatype Write = Write(path: string, was: Option<Identity>, now: Option<Identity>, intended: bool, alone: bool)

  /** Only recorded content, or none, was replaced by recorded content, or none. */
  predicate Recorded(s: Step, w: Write) {
    s.path == w.path && w.was in {s.before, s.after, None} && w.now in {s.before, s.after, None}
  }

  ghost predicate Proper(j: Journal, w: Write) {
    w.intended && exists i :: 0 <= i < |j.steps| && Recorded(j.steps[i], w)
  }

  ghost predicate AllProper(j: Journal, writes: seq<Write>) {
    forall k :: 0 <= k < |writes| ==> Proper(j, writes[k])
  }

  lemma ProperForPlan(a: Journal, b: Journal, writes: seq<Write>)
    requires SamePlan(a, b) && AllProper(a, writes)
    ensures AllProper(b, writes)
  {
  }

  ghost predicate Placed(j: Journal) {
    Started(j.phase) ==> Separate(j)
  }

  predicate StepAllowed(j: Journal, k: nat, next: StepState)
    requires k < |j.steps|
  {
    && j.phase == (if next in {Intent, Applied} then Applying else RollingBack)
    && StepMayFollow(j.steps[k].state, next)
  }

  /** What must hold on the disk before a phase may be entered. */
  ghost predicate Permits(j: Journal, disk: Disk, next: Phase) {
    && (next == AwaitingHealth ==> AllNew(j, disk) && Backed(j, disk) && AllApplied(j))
    && (next == Committed ==> AllNew(j, disk))
    && (next == RolledBack ==> AllOld(j, disk))
  }

  ghost predicate Backed(j: Journal, disk: Disk) {
    forall i :: 0 <= i < |j.steps| ==> HasBackup(disk, j.steps[i])
  }

  ghost predicate AllApplied(j: Journal) {
    forall i :: 0 <= i < |j.steps| ==> j.steps[i].state == Applied
  }

  ghost predicate AllPlanned(j: Journal) {
    forall i :: 0 <= i < |j.steps| ==> j.steps[i].state == Planned
  }

  function Moved(j: Journal, next: Phase): Journal {
    j.(phase := next, generation := j.generation + 1)
  }

  function Stepped(j: Journal, k: nat, next: StepState): Journal
    requires k < |j.steps|
  {
    j.(steps := j.steps[k := j.steps[k].(state := next)], generation := j.generation + 1)
  }

  function Wanted(s: Step, newer: bool): Option<Identity> {
    if newer then s.after else s.before
  }

  class Updater {
    const happens: nat -> Happening   // how the nth call to the system goes
    const quiet: bool                 // nobody else changes the files while this process runs
    var asked: nat
    var disk: Disk
    var stored: Journal               // what the store holds
    var current: Journal              // what this process takes it to hold
    var childGone: bool               // this process has seen the health child gone
    ghost var writes: seq<Write>      // every change of an installed file so far

    ghost predicate Valid()
      reads this
    {
      && WellFormed(stored) && Follows(current, stored) && Placed(current) && Placed(stored)
      && AllProper(stored, writes)
    }

    /** Nobody else changes the files, and those of the steps agree with the stored journal. */
    ghost predicate Agrees()
      reads `stored, `disk
    {
      quiet && StepsOk(stored, disk)
    }

    /** A journal just begun, or one found on the disk after a restart. */
    constructor (happens: nat -> Happening, quiet: bool, disk: Disk, j: Journal)
      requires WellFormed(j) && Placed(j)
      ensures Valid() && this.happens == happens && this.quiet == quiet && this.disk == disk
      ensures stored == current == j && writes == []
    {
      this.happens, this.quiet, this.disk, asked := happens, quiet, disk, 0;
      stored, current, childGone, writes := j, j, false, [];
    }

    /** The files the update leaves alone are what they were. */
    ghost predicate OthersWhole()
      reads `stored, `disk
    {
      Untouched(stored, disk)
    }

    ghost predicate Fine(from: nat, to: nat) {
      forall n: nat :: from <= n < to ==> happens(n).Works?
    }

    /** The last two calls, to load and to store the journal, worked. */
    ghost predicate StoreWorked()
      reads `asked
    {
      asked >= 2 && happens(asked - 2).Works? && happens(asked - 1).Works?
    }

    /** Nothing failed since, or at least the store's two calls, the last ones, worked. */
    ghost predicate CouldStore(from: nat)
      reads `asked
    {
      Fine(from, asked) || StoreWorked()
    }

    /** The store says that someone has to recover by hand, of this very plan. */
    ghost predicate HandedOver(j: Journal)
      reads `current, `stored
    {
      current == stored && stored.phase == RecoveryRequired && SamePlan(j, stored)
    }

    /** Files were changed since then only with the health child gone. */
    ghost predicate AddedAlone(before: seq<Write>)
      reads `writes
    {
      before <= writes && forall k :: |before| <= k < |writes| ==> writes[k].alone
    }

    // ---- The system

    method Others()
      modifies `disk
      ensures quiet ==> disk == old(disk)
    {
      var other: Disk := *;
      disk := if quiet then disk else other;
    }

    method Next() returns (h: Happening)
      modifies `asked
      ensures asked == old(asked) + 1 && h == happens(old(asked))
    {
      h := happens(asked);
      asked := asked + 1;
    }

    /** Stops the health child and waits until it is gone. */
    method StopChild() returns (ok: bool)
      modifies `asked, `childGone
      ensures asked == old(asked) + 1 && ok == happens(old(asked)).Works?
      ensures childGone == (old(childGone) || ok)
    {
      var h := Next();
      ok := h.Works?;
      childGone := childGone || ok;
    }

    /** Looks at one file; nothing if that fails. */
    method Observe(path: string) returns (r: Option<Option<Identity>>)
      modifies `disk, `asked
      ensures old(asked) < asked && (quiet ==> disk == old(disk))
      ensures r.Some? ==> r.value == At(disk, path)
      ensures Fine(old(asked), asked) ==> r.Some?
    {
      Others();
      var h := Next();
      r := if h.Works? then Some(At(disk, path)) else None;
    }

    /** Copies an installed file to its backup; only that path is written. */
    method CopyBackup(path: string) returns (ok: bool)
      modifies `disk, `asked
      ensures old(asked) < asked
      ensures quiet ==> forall p :: p != Backup(path) ==> At(disk, p) == At(old(disk), p)
      ensures quiet && Fine(old(asked), asked) && At(old(disk), path).Some? ==>
                ok && At(disk, Backup(path)) == At(old(disk), path)
    {
      Others();
      var h := Next();
      if h.FailsBefore? || At(disk, path).None? {
        return false;
      }
      var copy := disk[path];
      if h.FailsHalfway? {
        copy := *;
      }
      BackupIsElsewhere(path);
      disk := disk[Backup(path) := copy];
      ok := h.Works?;
    }

    ghost function WriteOf(i: nat, was: Option<Identity>, now: Option<Identity>): Write
      requires i < |stored.steps|
      reads `stored, `childGone
    {
      Write(stored.steps[i].path, was, now, stored.steps[i].state != Planned, childGone)
    }

    /** Binds the file to what is expected there and changes it, from the backup or from the staged
        files; a replacement may stop with the file missing. */
    method Mutate(i: nat, expected: Option<Identity>, next: Option<Identity>, fromBackup: bool) returns (ok: bool)
      requires i < |stored.steps|
      modifies `disk, `asked, `writes
      ensures old(asked) < asked
      ensures var path := stored.steps[i].path;
        && (quiet ==> forall p :: p != path ==> At(disk, p) == At(old(disk), p))
        && (quiet ==> At(disk, path) in {At(old(disk), path), next}
                      || (At(disk, path).None? && expected.Some? && next.Some?))
        && (quiet && At(old(disk), path) != expected ==> disk == old(disk) && !ok)
        && (ok ==> At(disk, path) == next)
        && (quiet && fromBackup && At(old(disk), Backup(path)) != next ==> disk == old(disk) && !ok)
        && (quiet && Fine(old(asked), asked) && At(old(disk), path) == expected ==>
              ok || (fromBackup && At(old(disk), Backup(path)) != next))
      ensures writes == old(writes) || writes == old(writes) + [WriteOf(i, expected, next)]
              || writes == old(writes) + [WriteOf(i, expected, None)]
    {
      var path := stored.steps[i].path;
      Others();
      var h := Next();
      if At(disk, path) != expected || h.FailsBefore? || (fromBackup && At(disk, Backup(path)) != next) {
        return false;
      }
      if h.FailsHalfway? && (expected.None? || next.None?) {
        return false;
      }
      var now := if h.FailsHalfway? then None else next;
      disk := if now.Some? then disk[path := now.value] else disk - {path};
      writes := writes + [WriteOf(i, expected, now)];
      ok := h.Works?;
    }

    /** Stores the journal's next state.  A failed store may have landed; the writer then refuses to
        go on, because the generations no longer match. */
    method Persist(next: Journal) returns (ok: bool)
      requires Follows(current, stored) && next.generation == current.generation
      modifies `stored, `current, `asked
      ensures old(asked) < asked
      ensures ok ==> old(stored) == old(current) && stored == current == next.(generation := next.generation + 1)
      ensures !ok ==> current == old(current)
                      && (stored == old(stored)
                          || (old(stored) == old(current) && stored == next.(generation := next.generation + 1)))
      ensures CouldStore(old(asked)) && old(stored) == old(current) ==> ok
    {
      var loaded := Next();
      if !loaded.Works? || stored.generation != current.generation {
        return false;
      }
      var following := next.(generation := current.generation + 1);
      var h := Next();
      ok := h.Works?;
      if ok {
        stored, current := following, following;
      } else if h.FailsAfter? {
        stored := following;
      }
    }

    // ---- Advancing the journal

    method AdvancePhase(next: Phase) returns (ok: bool)
      requires Valid()
      requires next == Applying ==> Separate(current)
      requires Agrees() && current == stored ==> Permits(stored, disk, next)
      modifies `stored, `current, `asked
      ensures OthersWhole() == old(OthersWhole())
      ensures old(Agrees()) ==> Agrees()
      ensures Valid() && old(asked) <= asked
      ensures ok ==> MayFollow(old(current).phase, next) && old(current) == old(stored)
                     && stored == current == Moved(old(current), next)
      ensures !ok ==> current == old(current)
                      && (stored == old(stored) || (old(stored) == old(current) && stored == Moved(old(current), next)))
      ensures !MayFollow(old(current).phase, next) ==> !ok && stored == old(stored)
      ensures CouldStore(old(asked)) && old(current) == old(stored) && MayFollow(old(current).phase, next) ==> ok
    {
      if !MayFollow(current.phase, next) {
        return false;
      }
      if Agrees() && current == stored {
        PhaseKept(stored, disk, next);
      }
      ProperForPlan(stored, Moved(current, next), writes);
      ok := Persist(current.(phase := next));
    }

    method AdvanceStep(k: nat, next: StepState) returns (ok: bool)
      requires Valid() && k < |current.steps|
      requires Agrees() && current == stored && StepAllowed(current, k, next) ==>
                 StepOk(stored.phase, disk, stored.steps[k].(state := next))
      modifies `stored, `current, `asked
      ensures OthersWhole() == old(OthersWhole())
      ensures old(Agrees()) ==> Agrees()
      ensures Valid() && old(asked) <= asked
      ensures ok ==> StepAllowed(old(current), k, next) && old(current) == old(stored)
                     && stored == current == Stepped(old(current), k, next)
      ensures !ok ==> current == old(current)
                      && (stored == old(stored)
                          || (old(stored) == old(current) && stored == Stepped(old(current), k, next)))
      ensures Fine(old(asked), asked) && old(current) == old(stored) && StepAllowed(old(current), k, next) ==> ok
    {
      if !StepAllowed(current, k, next) {
        return false;
      }
      if Agrees() && current == stored {
        StepKept(stored, disk, k, next);
      }
      ProperForPlan(stored, Stepped(current, k, next), writes);
      ok := Persist(current.(steps := current.steps[k := current.steps[k].(state := next)]));
    }

    // ---- Applying

    /** In the middle of applying, with the journal in hand. */
    ghost predicate InHand(phase: Phase)
      reads this
    {
      Valid() && current == stored && stored.phase == phase && Separate(stored)
    }

    method StillOld(i: nat) returns (ok: bool)
      requires i < |current.steps|
      modifies `disk, `asked
      ensures old(asked) < asked && (quiet ==> disk == old(disk))
      ensures ok ==> At(disk, current.steps[i].path) == current.steps[i].before
      ensures Fine(old(asked), asked) && quiet && At(disk, current.steps[i].path) == current.steps[i].before ==> ok
    {
      var seen := Observe(current.steps[i].path);
      ok := seen.Some? && seen.value == current.steps[i].before;
    }

    /** The backup of one step, made and looked at, with the installed file looked at around it. */
    method BackUpOne(i: nat) returns (ok: bool)
      requires InHand(Applying) && AllPlanned(stored) && i < |stored.steps|
      modifies `disk, `asked
      ensures quiet ==> OthersWhole() == old(OthersWhole())
      ensures old(Agrees()) ==> Agrees()
      ensures InHand(Applying) && old(asked) <= asked
      ensures quiet ==> forall p :: p != Backup(stored.steps[i].path) ==> At(disk, p) == At(old(disk), p)
      ensures quiet && ok ==> HasBackup(disk, stored.steps[i])
      ensures old(Agrees()) && Fine(old(asked), asked) ==> ok
    {
      var s := current.steps[i];
      if s.before.None? {
        return true;
      }
      assert Agrees() ==> StepOk(Applying, disk, s);
      ok := StillOld(i);
      if ok {
        ok := CopyBackup(s.path);
        if quiet {
          BackupWritten(stored, old(disk), disk, i);
        }
        if ok {
          var seen := Observe(Backup(s.path));
          ok := seen.Some? && seen.value == s.before;
          if ok {
            assert Agrees() ==> StepOk(Applying, disk, s);
            ok := StillOld(i);
          }
        }
      }
    }

    method BackUpAll() returns (ok: bool)
      requires InHand(Applying) && AllPlanned(stored)
      modifies `disk, `asked
      ensures quiet ==> OthersWhole() == old(OthersWhole())
      ensures old(Agrees()) ==> Agrees()
      ensures InHand(Applying) && old(asked) <= asked
      ensures quiet && ok ==> Backed(stored, disk)
      ensures old(Agrees()) && Fine(old(asked), asked) ==> ok
    {
      for i := 0 to |current.steps|
        invariant (old(Agrees()) ==> Agrees()) && (quiet ==> OthersWhole() == old(OthersWhole()))
        invariant InHand(Applying) && old(asked) <= asked
        invariant quiet ==> forall k :: 0 <= k < i ==> HasBackup(disk, stored.steps[k])
      {
        ghost var before := disk;
        ok := BackUpOne(i);
        if !ok {
          return;
        }
        if quiet {
          EarlierBackups(stored, before, disk, i);
        }
      }
      ok := true;
    }

    /** The file of one step is changed where its content is expected; the log stays proper and the
        disk in step with the journal. */
    method Change(i: nat, expected: Option<Identity>, next: Option<Identity>, fromBackup: bool) returns (ok: bool)
      requires Valid() && Separate(stored) && i < |stored.steps| && stored.steps[i].state != Planned
      requires expected in {stored.steps[i].before, stored.steps[i].after, None}
      requires next in {stored.steps[i].before, stored.steps[i].after}
      requires Agrees() && At(disk, stored.steps[i].path) == expected ==>
                 || (stored.phase == Applying && stored.steps[i].state == Intent)
                 || (stored.phase in {RollingBack, RecoveryRequired} && stored.steps[i].state in {Intent, Applied})
      modifies `disk, `asked, `writes
      ensures quiet ==> OthersWhole() == old(OthersWhole())
      ensures old(Agrees()) ==> Agrees()
      ensures Valid() && old(asked) <= asked
      ensures quiet ==> forall p :: p != stored.steps[i].path ==> At(disk, p) == At(old(disk), p)
      ensures ok ==> At(disk, stored.steps[i].path) == next
      ensures quiet && Fine(old(asked), asked) && At(old(disk), stored.steps[i].path) == expected ==>
                ok || (fromBackup && At(old(disk), Backup(stored.steps[i].path)) != next)
      ensures old(childGone) ==> AddedAlone(old(writes))
    {
      ghost var before := disk;
      ok := Mutate(i, expected, next, fromBackup);
      WritesProper(stored, old(writes), i, WriteOf(i, expected, next), WriteOf(i, expected, None));
      if quiet && StepsOk(stored, before) && At(before, stored.steps[i].path) == expected {
        assert StepOk(stored.phase, before, stored.steps[i]);
        BackupElsewhere(stored.steps[i].path, stored.steps[i].path);
        OthersKept(stored, before, disk, i);
      }
      if quiet {
        KeptElsewhere(stored, before, disk, stored.steps[i].path);
      }
    }

    /** With the intent stored, the file is changed, and that is stored. */
    method PutNew(i: nat) returns (ok: bool)
      requires InHand(Applying) && i < |stored.steps| && stored.steps[i].state == Intent
      requires quiet ==> Backed(stored, disk)
      modifies this
      ensures quiet ==> OthersWhole() == old(OthersWhole())
      ensures old(Agrees()) ==> Agrees()
      ensures Valid() && old(asked) <= asked
      ensures current.phase == Applying && SamePlan(old(current), current)
      ensures ok ==> InHand(Applying) && stored == Stepped(old(stored), i, Applied)
      ensures quiet && ok ==> Backed(stored, disk)
      ensures Fine(old(asked), asked) ==> current == stored
      ensures quiet && Fine(old(asked), asked) && old(At(disk, stored.steps[i].path) == stored.steps[i].before) ==> ok
    {
      var s := current.steps[i];
      ghost var before := disk;
      ok := Change(i, s.before, s.after, false);
      if quiet {
        BackedKept(stored, before, disk, i);
      }
      if ok {
        ok := AdvanceStep(i, Applied);
      }
    }

    /** The intent is stored, the file looked at once more and changed, and that is stored. */
    method ReplaceOne(i: nat) returns (ok: bool)
      requires InHand(Applying) && i < |stored.steps| && stored.steps[i].state == Planned
      requires quiet ==> Backed(stored, disk)
      modifies this
      ensures quiet ==> OthersWhole() == old(OthersWhole())
      ensures old(Agrees()) ==> Agrees()
      ensures Valid() && old(asked) <= asked
      ensures current.phase == Applying && SamePlan(old(current), current)
      ensures ok ==> InHand(Applying) && stored.kept == old(stored).kept
                     && stored.steps == old(stored).steps[i := old(stored).steps[i].(state := Applied)]
      ensures quiet && ok ==> Backed(stored, disk)
      ensures Fine(old(asked), asked) ==> current == stored
      ensures old(Agrees()) && Fine(old(asked), asked) ==> ok
    {
      assert Agrees() ==> StepOk(Applying, disk, current.steps[i]);
      ok := AdvanceStep(i, Intent);
      if ok {
        ok := StillOld(i);
        if ok {
          ok := PutNew(i);
        }
      }
    }

    method ReplaceAll() returns (ok: bool)
      requires InHand(Applying) && AllPlanned(stored) && (quiet ==> Backed(stored, disk))
      modifies this
      ensures quiet ==> OthersWhole() == old(OthersWhole())
      ensures old(Agrees()) ==> Agrees()
      ensures Valid() && old(asked) <= asked
      ensures current.phase == Applying && SamePlan(old(current), current)
      ensures ok ==> InHand(Applying) && AllApplied(stored)
      ensures quiet && ok ==> Backed(stored, disk)
      ensures Fine(old(asked), asked) ==> current == stored
      ensures old(Agrees()) && Fine(old(asked), asked) ==> ok
    {
      for i := 0 to |current.steps|
        invariant (old(Agrees()) ==> Agrees()) && (quiet ==> OthersWhole() == old(OthersWhole()))
        invariant InHand(Applying) && old(asked) <= asked && |stored.steps| == |old(current).steps|
        invariant forall k :: 0 <= k < |stored.steps| ==> stored.steps[k].state == if k < i then Applied else Planned
        invariant SamePlan(old(current), current)
        invariant quiet ==> Backed(stored, disk)
      {
        ghost var before := current;
        ok := ReplaceOne(i);
        SamePlanTrans(old(current), before, current);
        if !ok {
          return;
        }
      }
      ok := true;
    }

    /** Whether every step's file is the new one, or the old one; nothing if a look fails. */
    method CheckSteps(newer: bool) returns (r: Option<bool>)
      modifies `disk, `asked
      ensures old(asked) <= asked && (quiet ==> disk == old(disk))
      ensures quiet && r.Some? ==> (r.value <==> if newer then AllNew(current, disk) else AllOld(current, disk))
      ensures Fine(old(asked), asked) ==> r.Some?
    {
      for i := 0 to |current.steps|
        invariant old(asked) <= asked && (quiet ==> disk == old(disk))
        invariant quiet ==>
                    forall k :: 0 <= k < i ==> At(disk, current.steps[k].path) == Wanted(current.steps[k], newer)
      {
        var s := current.steps[i];
        var seen := Observe(s.path);
        if seen.None? {
          return None;
        }
        if seen.value != Wanted(s, newer) {
          return Some(false);
        }
      }
      r := Some(true);
    }

    /** The files the update leaves alone are looked at; nothing if a look fails. */
    method CheckKept() returns (r: Option<bool>)
      modifies `disk, `asked
      ensures old(asked) <= asked && (quiet ==> disk == old(disk))
      ensures quiet && r.Some? ==> (r.value <==> Untouched(current, disk))
      ensures Fine(old(asked), asked) ==> r.Some?
    {
      var left := current.kept.Keys;
      while left != {}
        invariant old(asked) <= asked && (quiet ==> disk == old(disk)) && left <= current.kept.Keys
        invariant quiet ==> forall p :: p in current.kept && p !in left ==> At(disk, p) == Some(current.kept[p])
        decreases |left|
      {
        var path :| path in left;
        var seen := Observe(path);
        if seen.None? {
          return None;
        }
        if seen.value != Some(current.kept[path]) {
          return Some(false);
        }
        left := left - {path};
      }
      r := Some(true);
    }

    /** All backups first, then each step, then a look at the result. */
    method RunSteps() returns (ok: bool)
      requires InHand(Applying) && AllPlanned(stored)
      modifies this
      ensures quiet ==> OthersWhole() == old(OthersWhole())
      ensures old(Agrees()) ==> Agrees()
      ensures Valid() && old(asked) <= asked
      ensures ok ==> current == stored && stored.phase == AwaitingHealth
      ensures SamePlan(old(current), current) && (!ok ==> current.phase == Applying)
      ensures quiet && ok ==> NewVersion(stored, disk)
      ensures Fine(old(asked), asked) ==> current == stored
      ensures old(Agrees()) && Fine(old(asked), asked) ==> ok == old(OthersWhole())
    {
      ok := BackUpAll();
      if ok {
        ok := ReplaceAll();
        if ok {
          AppliedIsNew(stored, disk, Agrees());
          var same := CheckSteps(true);
          ok := same == Some(true);
          if ok {
            same := CheckKept();
            ok := same == Some(true);
            if ok {
              ok := AdvancePhase(AwaitingHealth);
            }
          }
        }
      }
    }
  }

  lemma AppliedIsNew(j: Journal, disk: Disk, quiet: bool)
    requires j.phase == Applying && AllApplied(j) && (quiet ==> StepsOk(j, disk))
    ensures quiet ==> AllNew(j, disk)
  {
  }

  lemma WritesProper(j: Journal, writes: seq<Write>, i: nat, a: Write, b: Write)
    requires AllProper(j, writes) && i < |j.steps|
    requires a.intended && Recorded(j.steps[i], a) && b.intended && Recorded(j.steps[i], b)
    ensures AllProper(j, writes + [a]) && AllProper(j, writes + [b])
  {
  }

  /** Changing an installed file leaves every backup alone. */
  lemma BackedKept(j: Journal, before: Disk, after: Disk, i: nat)
    requires Separate(j) && i < |j.steps| && Backed(j, before)
    requires forall p :: p != j.steps[i].path ==> At(after, p) == At(before, p)
    ensures Backed(j, after)
  {
  }

  /** Writing one backup changes no installed file and no other backup. */
  lemma BackupWritten(j: Journal, before: Disk, after: Disk, i: nat)
    requires WellFormed(j) && Separate(j) && j.phase == Applying && AllPlanned(j) && i < |j.steps|
    requires forall p :: p != Backup(j.steps[i].path) ==> At(after, p) == At(before, p)
    ensures StepsOk(j, before) ==> StepsOk(j, after)
    ensures Untouched(j, before) <==> Untouched(j, after)
  {
  }

  lemma EarlierBackups(j: Journal, before: Disk, after: Disk, i: nat)
    requires WellFormed(j) && i < |j.steps|
    requires forall p :: p != Backup(j.steps[i].path) ==> At(after, p) == At(before, p)
    requires forall k :: 0 <= k < i ==> HasBackup(before, j.steps[k])
    ensures forall k :: 0 <= k < i ==> HasBackup(after, j.steps[k])
  {
    forall k | 0 <= k < i ensures HasBackup(after, j.steps[k]) {
      BackupsDiffer(j.steps[i].path, j.steps[k].path);
      assert j.steps[k].path != j.steps[i].path;
    }
  }

  lemma BackupIsElsewhere(path: string)
    ensures Backup(path) != path
  {
  }
}
