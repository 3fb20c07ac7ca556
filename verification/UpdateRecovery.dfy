/** Recovering an interrupted update from its journal and the actual files, and the whole of an
    update: applying it, concluding the health check, and recovering after any stop. */
module UpdateRecovery {
  import opened UpdateApply
  import opened UpdateJournal
  import opened Wrappers

  // ---- The decision

  datatype Choice = Leave | Act(action: Action) | Stop

  /** The decision is the one the files call for. */
  ghost predicate Right(j: Journal, disk: Disk, d: Decision) {
    match d
    case KeepOld => j.phase !in {Committed, RecoveryRequired} && OldVersion(j, disk)
    case KeepNew => j.phase == Committed && NewVersion(j, disk)
    case RollBack(actions) => Interrupted(j.phase) && actions != [] && Suffices(j, disk, actions)
    case Required =>
      || j.phase == RecoveryRequired
      || (j.phase == Committed && !NewVersion(j, disk))
      || (j.phase in {Prepared, ExitAuthorized, RolledBack} && !OldVersion(j, disk))
      || (Interrupted(j.phase) && (Lost(j, disk) || (AllOld(j, disk) && !Untouched(j, disk))))
  }

  predicate Interrupted(p: Phase) {
    p in {Applying, AwaitingHealth, RollingBack}
  }

  /** Some file is nothing the journal knows, or its backup is not there. */
  ghost predicate Lost(j: Journal, disk: Disk) {
    exists i :: 0 <= i < |j.steps| && Hopeless(disk, j.steps[i])
  }

  /** With every file the old one, there is nothing to roll back. */
  lemma OldDecided(j: Journal, disk: Disk, d: Decision)
    requires Right(j, disk, d) && Interrupted(j.phase) && AllOld(j, disk)
    ensures d == if Untouched(j, disk) then KeepOld else Required
  {
    assert d.RollBack? ==> !Founded(j, disk, d.actions[0]);
  }

  method Choose(u: Updater, i: nat) returns (r: Option<Choice>)
    requires WellFormed(u.current) && i < |u.current.steps|
    modifies u`disk, u`asked
    ensures old(u.asked) <= u.asked && (u.quiet ==> u.disk == old(u.disk))
    ensures r.Some? && r.value.Act? ==> ActionOk(u.current, r.value.action) && r.value.action.i == i
    ensures u.quiet && r.Some? ==>
              match r.value
              case Leave => At(u.disk, u.current.steps[i].path) == u.current.steps[i].before
              case Act(a) => Founded(u.current, u.disk, a)
              case Stop => Hopeless(u.disk, u.current.steps[i])
    ensures u.Fine(old(u.asked), u.asked) ==> r.Some?
  {
    var s := u.current.steps[i];
    var seen := u.Observe(s.path);
    if seen.None? {
      return None;
    }
    if seen.value == s.before {
      return Some(Leave);
    }
    var known := seen.value == s.after;
    if s.before.None? {
      return Some(if known then Act(RemoveAdded(i)) else Stop);
    }
    if !known {
      seen := u.Observe(s.path);
      if seen.None? {
        return None;
      }
      if seen.value.Some? {
        return Some(Stop);
      }
    }
    var backup := u.Observe(Backup(s.path));
    if backup.None? {
      return None;
    }
    r := Some(if backup.value != s.before then Stop
              else Act(RestoreBackup(i, if known then s.after else None)));
  }

  /** What an interrupted update needs, file by file. */
  method DecideSteps(u: Updater) returns (r: Option<Decision>)
    requires WellFormed(u.current) && Interrupted(u.current.phase)
    modifies u`disk, u`asked
    ensures old(u.asked) <= u.asked && (u.quiet ==> u.disk == old(u.disk))
    ensures r.Some? ==> !r.value.KeepNew?
    ensures r.Some? && r.value.RollBack? ==> Planful(u.current, r.value.actions)
    ensures u.quiet && r.Some? ==> Right(u.current, u.disk, r.value)
    ensures u.Fine(old(u.asked), u.asked) ==> r.Some?
  {
    var j := u.current;
    var actions: seq<Action> := [];
    for i := 0 to |j.steps|
      invariant old(u.asked) <= u.asked && (u.quiet ==> u.disk == old(u.disk))
      invariant Planful(j, actions) && forall k :: 0 <= k < |actions| ==> actions[k].i < i
      invariant u.quiet ==> SufficesTo(j, u.disk, actions, i)
    {
      var choice := Choose(u, i);
      if choice.None? {
        return None;
      }
      match choice.value {
        case Stop => return Some(Required);
        case Leave =>
        case Act(a) =>
          Appended(j, u.disk, actions, i, a, u.quiet);
          actions := actions + [a];
      }
    }
    if actions != [] {
      return Some(RollBack(actions));
    }
    var same := u.CheckKept();
    r := match same
      case None => None
      case Some(kept) => Some(if kept then KeepOld else Required);
  }

  ghost predicate SufficesTo(j: Journal, disk: Disk, actions: seq<Action>, n: nat)
    requires n <= |j.steps|
  {
    && (forall k :: 0 <= k < |actions| ==> Founded(j, disk, actions[k]))
    && forall i :: 0 <= i < n && !Acts(actions, i) ==> At(disk, j.steps[i].path) == j.steps[i].before
  }

  lemma Appended(j: Journal, disk: Disk, actions: seq<Action>, n: nat, a: Action, quiet: bool)
    requires n < |j.steps| && a.i == n
    requires quiet ==> SufficesTo(j, disk, actions, n) && Founded(j, disk, a)
    ensures quiet ==> SufficesTo(j, disk, actions + [a], n + 1)
  {
    if quiet {
      var all := actions + [a];
      assert all[|actions|] == a && Acts(all, n);
      forall i | Acts(actions, i) ensures Acts(all, i) {
        var k :| 0 <= k < |actions| && actions[k].i == i;
        assert all[k].i == i;
      }
    }
  }

  method Decide(u: Updater) returns (r: Option<Decision>)
    requires WellFormed(u.current)
    modifies u`disk, u`asked
    ensures old(u.asked) <= u.asked && (u.quiet ==> u.disk == old(u.disk))
    ensures r.Some? && r.value.RollBack? ==> Interrupted(u.current.phase) && Planful(u.current, r.value.actions)
    ensures r.Some? && r.value.KeepNew? ==> u.current.phase == Committed
    ensures r.Some? && r.value.KeepOld? ==> u.current.phase !in {Committed, RecoveryRequired}
    ensures u.quiet && r.Some? ==> Right(u.current, u.disk, r.value)
    ensures u.Fine(old(u.asked), u.asked) ==> r.Some?
  {
    var phase := u.current.phase;
    if phase == RecoveryRequired {
      return Some(Required);
    }
    if Interrupted(phase) {
      r := DecideSteps(u);
      return;
    }
    var same := u.CheckSteps(phase == Committed);
    if same == Some(true) {
      same := u.CheckKept();
    }
    r := match same
      case None => None
      case Some(whole) => Some(if !whole then Required else if phase == Committed then KeepNew else KeepOld);
  }

  // ---- Rolling back

  datatype Performed = Done | Stopped | Failed

  /** Only the progress of one step may have changed. */
  ghost predicate OnlyStep(before: Journal, j: Journal, i: nat) {
    && SamePlan(before, j) && before.phase == j.phase && i < |j.steps|
    && (forall k :: 0 <= k < |j.steps| && k != i ==> j.steps[k].state == before.steps[k].state)
    && (j.steps[i].state == before.steps[i].state || j.steps[i].state == StepState.Restored)
  }

  /** The file, and the backup if one is to be put back, are looked at again. */
  method LookAgain(u: Updater, a: Action) returns (r: Performed)
    requires ActionOk(u.current, a)
    modifies u`disk, u`asked
    ensures old(u.asked) <= u.asked && (u.quiet ==> u.disk == old(u.disk))
    ensures u.quiet && !r.Failed? ==> (r.Done? <==> Founded(u.current, u.disk, a))
    ensures u.Fine(old(u.asked), u.asked) ==> !r.Failed?
  {
    var s := u.current.steps[a.i];
    var seen := u.Observe(s.path);
    if seen.None? {
      return Failed;
    }
    if seen.value != ExpectedAt(u.current, a) {
      return Stopped;
    }
    if a.RemoveAdded? {
      return Done;
    }
    var backup := u.Observe(Backup(s.path));
    if backup.None? {
      return Failed;
    }
    r := if backup.value == s.before then Done else Stopped;
  }

  /** The steps of these actions are stored as restored. */
  ghost predicate AllRestored(j: Journal, actions: seq<Action>) {
    forall k :: 0 <= k < |actions| ==> actions[k].i < |j.steps| && j.steps[actions[k].i].state == StepState.Restored
  }

  /** Every file that was not the old one belongs to a step now stored as restored. */
  ghost predicate MarkedBack(was: Journal, disk: Disk, j: Journal) {
    forall i :: 0 <= i < |was.steps| && i < |j.steps| && At(disk, was.steps[i].path) != was.steps[i].before ==>
      j.steps[i].state == StepState.Restored
  }

  /** Stores that the step is restored, unless it says so already. */
  method MarkRestored(u: Updater, i: nat) returns (ok: bool)
    requires u.Valid() && u.current.phase == RollingBack && i < |u.current.steps|
    requires u.current.steps[i].state != Planned
    requires u.quiet ==> At(u.disk, u.current.steps[i].path) == u.current.steps[i].before
    modifies u`stored, u`current, u`asked
    ensures u.OthersWhole() == old(u.OthersWhole())
    ensures old(u.Agrees()) ==> u.Agrees()
    ensures u.Valid() && old(u.asked) <= u.asked && OnlyStep(old(u.current), u.current, i)
    ensures ok && old(u.current == u.stored) ==> u.current == u.stored
    ensures u.Fine(old(u.asked), u.asked) && old(u.current == u.stored) ==> ok
    ensures ok ==> u.current.steps[i].state == StepState.Restored
  {
    ok := true;
    if u.current.steps[i].state in {Intent, Applied} {
      ok := u.AdvanceStep(i, StepState.Restored);
    }
  }

  /** Makes the change and stores that the step is restored. */
  method ChangeBack(u: Updater, a: Action) returns (ok: bool)
    requires u.Valid() && u.current.phase == RollingBack && ActionOk(u.current, a)
    requires u.current.steps[a.i].state != Planned
    modifies u
    ensures u.quiet ==> u.OthersWhole() == old(u.OthersWhole())
    ensures old(u.Agrees()) ==> u.Agrees()
    ensures u.Valid() && old(u.asked) <= u.asked && OnlyStep(old(u.current), u.current, a.i)
    ensures u.quiet ==> forall p :: p != u.current.steps[a.i].path ==> At(u.disk, p) == At(old(u.disk), p)
    ensures u.quiet && ok ==> At(u.disk, u.current.steps[a.i].path) == u.current.steps[a.i].before
    ensures ok && old(u.current == u.stored) ==> u.current == u.stored
    ensures u.quiet && u.Fine(old(u.asked), u.asked) && old(u.current == u.stored) ==>
              old(Founded(u.current, u.disk, a)) ==> ok
    ensures ok ==> u.current.steps[a.i].state == StepState.Restored
    ensures old(u.childGone) ==> u.childGone && u.AddedAlone(old(u.writes))
  {
    var s := u.current.steps[a.i];
    StaleStep(u, a.i);
    ok := u.Change(a.i, ExpectedAt(u.current, a), s.before, a.RestoreBackup?);
    if ok {
      ok := MarkRestored(u, a.i);
    }
  }

  /** Carries out one action after looking again; without its grounds nothing is touched. */
  method Perform(u: Updater, a: Action) returns (r: Performed)
    requires u.Valid() && u.current.phase == RollingBack && ActionOk(u.current, a)
    requires u.current.steps[a.i].state != Planned
    modifies u
    ensures u.quiet ==> u.OthersWhole() == old(u.OthersWhole())
    ensures old(u.Agrees()) ==> u.Agrees()
    ensures u.Valid() && old(u.asked) <= u.asked && OnlyStep(old(u.current), u.current, a.i)
    ensures u.quiet ==> forall p :: p != u.current.steps[a.i].path ==> At(u.disk, p) == At(old(u.disk), p)
    ensures u.quiet && r.Done? ==> At(u.disk, u.current.steps[a.i].path) == u.current.steps[a.i].before
    ensures u.quiet && !old(Founded(u.current, u.disk, a)) ==>
              !r.Done? && u.disk == old(u.disk) && u.writes == old(u.writes)
    ensures !r.Failed? && old(u.current == u.stored) ==> u.current == u.stored
    ensures u.quiet && u.Fine(old(u.asked), u.asked) && old(u.current == u.stored) ==>
              r == if old(Founded(u.current, u.disk, a)) then Done else Stopped
    ensures r.Done? ==> u.current.steps[a.i].state == StepState.Restored
    ensures old(u.childGone) ==> u.childGone && u.AddedAlone(old(u.writes))
  {
    r := LookAgain(u, a);
    if r.Done? {
      var ok := ChangeBack(u, a);
      r := if ok then Done else Failed;
    }
  }

  /** What a writer rolling back may rely on even if the store is one change ahead of it. */
  lemma StaleStep(u: Updater, i: nat)
    requires u.Valid() && u.current.phase == RollingBack && i < |u.current.steps| && u.current.steps[i].state != Planned
    ensures Separate(u.stored) && i < |u.stored.steps| && SameStep(u.current.steps[i], u.stored.steps[i])
    ensures u.stored.steps[i].state != Planned && u.stored.phase in {RollingBack, RolledBack, RecoveryRequired}
    ensures u.Agrees() && At(u.disk, u.stored.steps[i].path) != u.stored.steps[i].before ==>
              u.stored.phase != RolledBack && u.stored.steps[i].state in {Intent, Applied}
  {
  }

  ghost predicate Intended(j: Journal, actions: seq<Action>)
    requires Planful(j, actions)
  {
    forall k :: 0 <= k < |actions| ==> j.steps[actions[k].i].state != Planned
  }

  lemma ActedEarlier(actions: seq<Action>, k: nat, i: nat)
    requires k < |actions| && Acts(actions[..k + 1], i) && actions[k].i != i
    ensures Acts(actions[..k], i)
  {
  }

  /** The last of the remaining actions is done: the ones before it suffice. */
  lemma LastDone(before: Journal, was: Disk, j: Journal, disk: Disk, actions: seq<Action>, k: nat)
    requires k < |actions| && Planful(before, actions) && Suffices(before, was, actions[..k + 1])
    requires WellFormed(j) && Separate(j) && OnlyStep(before, j, actions[k].i)
    requires forall p :: p != j.steps[actions[k].i].path ==> At(disk, p) == At(was, p)
    requires At(disk, j.steps[actions[k].i].path) == j.steps[actions[k].i].before
    ensures Suffices(j, disk, actions[..k])
    ensures Untouched(before, was) <==> Untouched(j, disk)
  {
    var last := actions[k].i;
    forall l | 0 <= l < k ensures Founded(j, disk, actions[..k][l]) {
      assert actions[..k + 1][l] == actions[l] && actions[l].i < last;
      assert Founded(before, was, actions[l]);
      assert SameStep(before.steps[actions[l].i], j.steps[actions[l].i]);
      BackupElsewhere(j.steps[actions[l].i].path, j.steps[last].path);
    }
    forall i | 0 <= i < |j.steps| && !Acts(actions[..k], i) ensures At(disk, j.steps[i].path) == j.steps[i].before {
      if i != last {
        if Acts(actions[..k + 1], i) {
          ActedEarlier(actions, k, i);
        }
        assert !Acts(actions[..k + 1], i) && SameStep(before.steps[i], j.steps[i]);
      }
    }
  }

  lemma OneMoreRestored(was: Journal, j: Journal, actions: seq<Action>, k: nat)
    requires k < |actions| && AllRestored(was, actions[k + 1..]) && OnlyStep(was, j, actions[k].i)
    requires j.steps[actions[k].i].state == StepState.Restored
    ensures AllRestored(j, actions[k..])
  {
    forall l | 0 <= l < |actions[k..]|
      ensures actions[k..][l].i < |j.steps| && j.steps[actions[k..][l].i].state == StepState.Restored
    {
      if l > 0 {
        assert actions[k..][l] == actions[k + 1..][l - 1];
      }
    }
  }

  /** One of the actions is carried out, the ones after it being done. */
  method PerformAt(u: Updater, actions: seq<Action>, k: nat) returns (r: Performed)
    requires u.Valid() && u.current.phase == RollingBack && Planful(u.current, actions) && Intended(u.current, actions)
    requires k < |actions| && (u.quiet ==> Suffices(u.current, u.disk, actions[..k + 1]))
    modifies u
    ensures u.quiet ==> u.OthersWhole() == old(u.OthersWhole())
    ensures old(u.Agrees()) ==> u.Agrees()
    ensures u.Valid() && old(u.asked) <= u.asked
    ensures u.current.phase == RollingBack && SamePlan(old(u.current), u.current)
    ensures Planful(u.current, actions) && Intended(u.current, actions)
    ensures u.quiet && r.Done? ==>
              && Suffices(u.current, u.disk, actions[..k])
              && (Untouched(old(u.current), old(u.disk)) <==> Untouched(u.current, u.disk))
    ensures !r.Failed? && old(u.current == u.stored) ==> u.current == u.stored
    ensures u.quiet && u.Fine(old(u.asked), u.asked) && old(u.current == u.stored) ==> r.Done?
    ensures r.Done? && AllRestored(old(u.current), actions[k + 1..]) ==> AllRestored(u.current, actions[k..])
    ensures old(u.childGone) ==> u.childGone && u.AddedAlone(old(u.writes))
  {
    assert actions[..k + 1][k] == actions[k];
    r := Perform(u, actions[k]);
    if u.quiet && r.Done? {
      LastDone(old(u.current), old(u.disk), u.current, u.disk, actions, k);
    }
    if r.Done? && AllRestored(old(u.current), actions[k + 1..]) {
      OneMoreRestored(old(u.current), u.current, actions, k);
    }
  }

  /** The actions are carried out, the last one first. */
  method PerformAll(u: Updater, actions: seq<Action>) returns (r: Performed)
    requires u.Valid() && u.current.phase == RollingBack && Planful(u.current, actions) && Intended(u.current, actions)
    requires u.quiet ==> Suffices(u.current, u.disk, actions)
    modifies u
    ensures u.quiet ==> u.OthersWhole() == old(u.OthersWhole())
    ensures old(u.Agrees()) ==> u.Agrees()
    ensures u.Valid() && old(u.asked) <= u.asked
    ensures u.current.phase == RollingBack && SamePlan(old(u.current), u.current)
    ensures u.quiet && r.Done? ==>
              AllOld(u.current, u.disk) && (Untouched(old(u.current), old(u.disk)) <==> Untouched(u.current, u.disk))
    ensures !r.Failed? && old(u.current == u.stored) ==> u.current == u.stored
    ensures u.quiet && u.Fine(old(u.asked), u.asked) && old(u.current == u.stored) ==> r.Done?
    ensures r.Done? ==> AllRestored(u.current, actions)
    ensures old(u.childGone) ==> u.childGone && u.AddedAlone(old(u.writes))
  {
    r := Done;
    ghost var j, was := u.current, u.disk;
    assert actions[..|actions|] == actions;
    for k := |actions| downto 0
      invariant u.Valid() && old(u.asked) <= u.asked && r.Done? && (old(u.Agrees()) ==> u.Agrees())
      invariant u.quiet ==> u.OthersWhole() == old(u.OthersWhole())
      invariant u.current.phase == RollingBack && SamePlan(j, u.current)
      invariant Planful(u.current, actions) && Intended(u.current, actions)
      invariant u.quiet ==>
                  Suffices(u.current, u.disk, actions[..k]) && (Untouched(j, was) <==> Untouched(u.current, u.disk))
      invariant old(u.current == u.stored) ==> u.current == u.stored
      invariant AllRestored(u.current, actions[k..])
      invariant old(u.childGone) ==> u.childGone && u.AddedAlone(old(u.writes))
    {
      ghost var before := u.current;
      r := PerformAt(u, actions, k);
      SamePlanTrans(j, before, u.current);
      if !r.Done? {
        return;
      }
    }
  }

  // ---- Recovering

  /** The old version is kept, or the new one, or the old one is put back, or someone has to recover
      by hand. */
  datatype Recovered = KeptOld | KeptNew | PutBack | ByHand

  /** Recovery can end with one whole version. */
  ghost predicate Recoverable(j: Journal, disk: Disk) {
    match j.phase
    case RecoveryRequired => false
    case Committed => NewVersion(j, disk)
    case Prepared | ExitAuthorized | RolledBack => OldVersion(j, disk)
    case _ => !Lost(j, disk) && Untouched(j, disk) && Explained(j, disk)
  }

  /** Only steps whose intent was stored have changed their files. */
  ghost predicate Explained(j: Journal, disk: Disk) {
    forall i :: 0 <= i < |j.steps| && j.steps[i].state == Planned ==> At(disk, j.steps[i].path) == j.steps[i].before
  }

  /** Terminal phases refuse the move; the state is then set already. */
  method Require(u: Updater)
    requires u.Valid()
    modifies u`stored, u`current, u`asked
    ensures u.quiet ==> u.OthersWhole() == old(u.OthersWhole())
    ensures old(u.Agrees()) ==> u.Agrees()
    ensures u.Valid() && old(u.asked) <= u.asked && SamePlan(old(u.current), u.current)
    ensures Terminal(old(u.current).phase) ==> u.stored == old(u.stored) && u.current == old(u.current)
    ensures old(u.current == u.stored && !Terminal(u.current.phase)) ==>
              u.CouldStore(old(u.asked)) ==> u.HandedOver(old(u.current))
  {
    var _ := u.AdvancePhase(RecoveryRequired);
  }

  method CheckIntents(u: Updater, actions: seq<Action>) returns (ok: bool)
    requires Planful(u.current, actions)
    ensures ok <==> Intended(u.current, actions)
  {
    ok := true;
    for k := 0 to |actions|
      invariant ok <==> forall l :: 0 <= l < k ==> u.current.steps[actions[l].i].state != Planned
    {
      if u.current.steps[actions[k].i].state == Planned {
        ok := false;
      }
    }
  }

  /** Looks at everything once more; only the whole old version ends the rollback. */
  method FinishBack(u: Updater) returns (r: Option<Recovered>)
    requires u.Valid() && u.current.phase == RollingBack
    modifies u`disk, u`stored, u`current, u`asked
    ensures u.quiet ==> u.OthersWhole() == old(u.OthersWhole())
    ensures old(u.Agrees()) ==> u.Agrees()
    ensures u.Valid() && old(u.asked) <= u.asked && (u.quiet ==> u.disk == old(u.disk))
    ensures SamePlan(old(u.current), u.current) && (r.Some? ==> r.value in {PutBack, ByHand})
    ensures r == Some(PutBack) ==> u.stored == u.current && u.stored.phase == RolledBack
                                   && (u.quiet ==> OldVersion(u.stored, u.disk))
    ensures u.quiet && AllOld(u.current, u.disk) && u.Fine(old(u.asked), u.asked) && old(u.current == u.stored) ==>
              r == Some(if Untouched(u.current, u.disk) then PutBack else ByHand)
    ensures r == Some(ByHand) && old(u.current == u.stored && !Terminal(u.current.phase)) ==>
              u.CouldStore(old(u.asked)) ==> u.HandedOver(old(u.current))
    ensures r == Some(PutBack) ==> u.current.steps == old(u.current).steps
  {
    var d := Decide(u);
    if d.None? {
      return None;
    }
    if u.quiet && AllOld(u.current, u.disk) {
      OldDecided(u.current, u.disk, d.value);
    }
    if !d.value.KeepOld? {
      Require(u);
      return Some(ByHand);
    }
    var ok := u.AdvancePhase(RolledBack);
    r := if ok then Some(PutBack) else None;
  }

  /** The child is stopped first where one may be running. */
  method StartBack(u: Updater) returns (r: Performed)
    requires u.Valid() && Interrupted(u.current.phase)
    modifies u`stored, u`current, u`asked, u`childGone
    ensures u.quiet ==> u.OthersWhole() == old(u.OthersWhole())
    ensures old(u.Agrees()) ==> u.Agrees()
    ensures u.Valid() && old(u.asked) <= u.asked
    ensures r.Done? && old(u.current).phase == AwaitingHealth ==> u.childGone
    ensures !r.Failed? && old(u.current == u.stored) ==> u.current == u.stored
    ensures r.Done? ==> u.current == old(u.current).(phase := RollingBack, generation := u.current.generation)
    ensures r.Stopped? ==> u.current == old(u.current)
    ensures u.Fine(old(u.asked), u.asked) && old(u.current == u.stored) ==> r.Done?
  {
    if u.current.phase == AwaitingHealth {
      var stopped := u.StopChild();
      if !stopped {
        return Stopped;
      }
    }
    r := Done;
    if u.current.phase != RollingBack {
      var ok := u.AdvancePhase(RollingBack);
      r := if ok then Done else Failed;
    }
  }

  /** Carries out all actions, all of them intended, and looks at the result. */
  method PutAllBack(u: Updater, actions: seq<Action>) returns (r: Option<Recovered>)
    requires u.Valid() && u.current.phase == RollingBack && Planful(u.current, actions) && Intended(u.current, actions)
    requires u.quiet ==> Suffices(u.current, u.disk, actions)
    modifies u
    ensures u.quiet ==> u.OthersWhole() == old(u.OthersWhole())
    ensures old(u.Agrees()) ==> u.Agrees()
    ensures u.Valid() && old(u.asked) <= u.asked && (r.Some? ==> r.value in {PutBack, ByHand})
    ensures r == Some(PutBack) ==> u.stored == u.current && u.stored.phase == RolledBack
                                   && (u.quiet ==> OldVersion(u.stored, u.disk) && old(Untouched(u.current, u.disk)))
    ensures u.quiet && u.Fine(old(u.asked), u.asked) && old(u.current == u.stored) ==>
              r == Some(if old(Untouched(u.current, u.disk)) then PutBack else ByHand)
    ensures r == Some(ByHand) && old(u.current == u.stored && !Terminal(u.current.phase)) ==>
              u.CouldStore(old(u.asked)) ==> u.HandedOver(old(u.current))
    ensures r == Some(PutBack) ==> AllRestored(u.stored, actions)
    ensures old(u.childGone) ==> u.childGone && u.AddedAlone(old(u.writes))
  {
    var p := PerformAll(u, actions);
    match p
    case Failed => r := None;
    case Stopped =>
      Require(u);
      r := Some(ByHand);
    case Done => r := FinishBack(u);
  }

  /** Rolls back if every step to be undone was intended; otherwise nothing is touched. */
  method Undo(u: Updater, actions: seq<Action>) returns (r: Option<Recovered>)
    requires u.Valid() && Interrupted(u.current.phase) && Planful(u.current, actions)
    requires u.quiet ==> Suffices(u.current, u.disk, actions)
    modifies u
    ensures u.quiet ==> u.OthersWhole() == old(u.OthersWhole())
    ensures old(u.Agrees()) ==> u.Agrees()
    ensures u.Valid() && old(u.asked) <= u.asked && (r.Some? ==> r.value in {PutBack, ByHand})
    ensures r == Some(PutBack) ==> u.stored == u.current && u.stored.phase == RolledBack
                                   && (u.quiet ==> OldVersion(u.stored, u.disk) && old(Untouched(u.current, u.disk)))
    ensures old(!Intended(u.current, actions)) ==> u.writes == old(u.writes) && r != Some(PutBack)
    ensures u.quiet && u.Fine(old(u.asked), u.asked) && old(u.current == u.stored) ==>
              r == Some(if old(Intended(u.current, actions) && Untouched(u.current, u.disk)) then PutBack else ByHand)
    ensures r == Some(ByHand) && old(u.current == u.stored && !Terminal(u.current.phase)) ==>
              u.CouldStore(old(u.asked)) ==> u.HandedOver(old(u.current))
    ensures r == Some(PutBack) ==> AllRestored(u.stored, actions)
    ensures old(u.current).phase == AwaitingHealth ==> u.AddedAlone(old(u.writes))
  {
    var p := StartBack(u);
    if p.Failed? {
      return None;
    }
    if p.Done? {
      var intended := CheckIntents(u, actions);
      if intended {
        r := PutAllBack(u, actions);
        return;
      }
    }
    Require(u);
    r := Some(ByHand);
  }

  method SettleOld(u: Updater) returns (ok: bool)
    requires u.Valid() && u.current.phase !in {Committed, RecoveryRequired}
    requires u.quiet ==> AllOld(u.current, u.disk)
    modifies u`stored, u`current, u`asked
    ensures u.quiet ==> u.OthersWhole() == old(u.OthersWhole())
    ensures old(u.Agrees()) ==> u.Agrees()
    ensures u.Valid() && old(u.asked) <= u.asked && SamePlan(old(u.current), u.stored)
    ensures ok ==> u.stored.phase == RolledBack
    ensures Terminal(old(u.current).phase) ==> u.stored == old(u.stored) && u.current == old(u.current)
    ensures u.Fine(old(u.asked), u.asked) && old(u.current == u.stored) ==> ok
  {
    ok := true;
    if u.current.phase in {Applying, AwaitingHealth} {
      ok := u.AdvancePhase(RollingBack);
    }
    if ok && u.current.phase != RolledBack {
      ok := u.AdvancePhase(RolledBack);
    }
  }

  /** How recovery ends, told from the journal and the files alone. */
  ghost function Ending(j: Journal, disk: Disk): Recovered {
    if !Recoverable(j, disk) then ByHand
    else if j.phase == Committed then KeptNew
    else if AllOld(j, disk) then KeptOld
    else PutBack
  }

  lemma SameFiles(a: Journal, b: Journal, disk: Disk)
    requires SamePlan(a, b)
    ensures OldVersion(a, disk) <==> OldVersion(b, disk)
    ensures NewVersion(a, disk) <==> NewVersion(b, disk)
  {
  }

  /** The actions found undo exactly the steps whose files are not the old ones. */
  lemma ToUndo(j: Journal, disk: Disk, actions: seq<Action>)
    requires Planful(j, actions) && Suffices(j, disk, actions) && actions != []
    ensures !AllOld(j, disk) && !Lost(j, disk)
    ensures Intended(j, actions) <==> Explained(j, disk)
  {
    assert Founded(j, disk, actions[0]);
    forall i | 0 <= i < |j.steps| && At(disk, j.steps[i].path) != j.steps[i].before
      ensures Acts(actions, i) && !Hopeless(disk, j.steps[i])
    {
      var k :| 0 <= k < |actions| && actions[k].i == i;
      assert Founded(j, disk, actions[k]);
    }
    if Intended(j, actions) {
      forall i | 0 <= i < |j.steps| && j.steps[i].state == Planned
        ensures At(disk, j.steps[i].path) == j.steps[i].before
      {
        if Acts(actions, i) {
          assert false;
        }
      }
    }
    if Explained(j, disk) {
      forall k | 0 <= k < |actions| ensures j.steps[actions[k].i].state != Planned {
        assert Founded(j, disk, actions[k]);
      }
    }
  }

  /** Every decision but one fixes the ending. */
  lemma EndingOf(j: Journal, disk: Disk, d: Decision)
    requires Right(j, disk, d)
    ensures d.KeepOld? ==> Ending(j, disk) == KeptOld
    ensures d.KeepNew? ==> Ending(j, disk) == KeptNew
    ensures d.Required? ==> Ending(j, disk) == ByHand
    ensures d.RollBack? && Planful(j, d.actions) ==>
              Ending(j, disk) == if Intended(j, d.actions) && Untouched(j, disk) then PutBack else ByHand
    ensures d.RollBack? && Planful(j, d.actions) && (Lost(j, disk) || !Explained(j, disk)) ==> !Intended(j, d.actions)
  {
    if d.RollBack? && Planful(j, d.actions) {
      ToUndo(j, disk, d.actions);
    }
  }

  lemma RestoredIsMarked(was: Journal, disk: Disk, actions: seq<Action>, j: Journal)
    requires Suffices(was, disk, actions) && AllRestored(j, actions)
    ensures MarkedBack(was, disk, j)
  {
    forall i | 0 <= i < |was.steps| && i < |j.steps| && At(disk, was.steps[i].path) != was.steps[i].before
      ensures j.steps[i].state == StepState.Restored
    {
      var k :| 0 <= k < |actions| && actions[k].i == i;
    }
  }

  method Recover(u: Updater) returns (r: Option<Recovered>)
    requires u.Valid()
    modifies u
    ensures u.quiet ==> u.OthersWhole() == old(u.OthersWhole())
    ensures old(u.Agrees()) ==> u.Agrees()
    ensures u.Valid() && old(u.asked) < u.asked
    ensures r == Some(KeptNew) ==>
              old(u.current).phase == u.stored.phase == Committed && (u.quiet ==> NewVersion(u.stored, u.disk))
    ensures r in {Some(KeptOld), Some(PutBack)} ==>
              u.stored.phase == RolledBack && (u.quiet ==> OldVersion(u.stored, u.disk))
    ensures !Interrupted(old(u.current).phase) ==> u.writes == old(u.writes)
    ensures Terminal(old(u.current).phase) ==> u.stored == old(u.stored) && u.current == old(u.current)
    ensures u.quiet && old(Lost(u.current, u.disk) || !Explained(u.current, u.disk)) ==> u.writes == old(u.writes)
    ensures u.quiet && r.Some? ==> r.value in {old(Ending(u.current, u.disk)), ByHand}
    ensures u.quiet && u.Fine(old(u.asked), u.asked) && old(u.current == u.stored) ==>
              r == Some(old(Ending(u.current, u.disk)))
    ensures r == Some(ByHand) && old(u.current == u.stored && !Terminal(u.current.phase)) ==>
              u.CouldStore(old(u.asked)) ==> u.HandedOver(old(u.current))
    ensures u.quiet && r == Some(PutBack) ==> MarkedBack(old(u.current), old(u.disk), u.stored)
    ensures old(u.current).phase == AwaitingHealth ==> u.AddedAlone(old(u.writes))
  {
    var placed := u.Next();
    if !placed.Works? {
      var _ := u.StopChild();
      Require(u);
      return Some(ByHand);
    }
    var d := Decide(u);
    if d.None? {
      return None;
    }
    r := Carry(u, d.value);
  }

  /** Does what was decided. */
  method Carry(u: Updater, d: Decision) returns (r: Option<Recovered>)
    requires u.Valid() && (u.quiet ==> Right(u.current, u.disk, d))
    requires d.RollBack? ==> Interrupted(u.current.phase) && Planful(u.current, d.actions)
    requires d.KeepNew? ==> u.current.phase == Committed
    requires d.KeepOld? ==> u.current.phase !in {Committed, RecoveryRequired}
    modifies u
    ensures u.quiet ==> u.OthersWhole() == old(u.OthersWhole())
    ensures old(u.Agrees()) ==> u.Agrees()
    ensures u.Valid() && old(u.asked) <= u.asked
    ensures r == Some(KeptNew) ==>
              old(u.current).phase == u.stored.phase == Committed && (u.quiet ==> NewVersion(u.stored, u.disk))
    ensures r in {Some(KeptOld), Some(PutBack)} ==>
              u.stored.phase == RolledBack && (u.quiet ==> OldVersion(u.stored, u.disk))
    ensures !Interrupted(old(u.current).phase) ==> u.writes == old(u.writes)
    ensures Terminal(old(u.current).phase) ==> u.stored == old(u.stored) && u.current == old(u.current)
    ensures u.quiet && old(Lost(u.current, u.disk) || !Explained(u.current, u.disk)) ==> u.writes == old(u.writes)
    ensures u.quiet && r.Some? ==> r.value in {old(Ending(u.current, u.disk)), ByHand}
    ensures u.quiet && u.Fine(old(u.asked), u.asked) && old(u.current == u.stored) ==>
              r == Some(old(Ending(u.current, u.disk)))
    ensures r == Some(ByHand) && old(u.current == u.stored && !Terminal(u.current.phase)) ==>
              u.CouldStore(old(u.asked)) ==> u.HandedOver(old(u.current))
    ensures u.quiet && r == Some(PutBack) ==> MarkedBack(old(u.current), old(u.disk), u.stored)
    ensures old(u.current).phase == AwaitingHealth ==> u.AddedAlone(old(u.writes))
  {
    if u.quiet {
      EndingOf(u.current, u.disk, d);
    }
    match d
    case KeepNew =>
      SameFiles(u.current, u.stored, u.disk);
      r := Some(KeptNew);
    case Required =>
      Require(u);
      r := Some(ByHand);
    case KeepOld =>
      var ok := SettleOld(u);
      SameFiles(old(u.current), u.stored, u.disk);
      r := if ok then Some(KeptOld) else None;
    case RollBack(actions) =>
      r := Undo(u, actions);
      if u.quiet && r == Some(PutBack) {
        RestoredIsMarked(old(u.current), old(u.disk), actions, u.stored);
      }
  }
}
