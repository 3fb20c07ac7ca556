/** The whole of an update: applying it, concluding the health check, and what recovery makes of any
    run, wherever its processes stopped. */
module UpdateRuns {
  import opened UpdateApply
  import opened UpdateJournal
  import opened UpdateRecovery
  import opened Wrappers

  /** Refused with nothing touched; done; back at the old version; left to someone's hands; or ended by
      an error. */
  datatype Outcome = Refused | Reached | Reverted | Manual | Broken

  function FromRecovery(r: Option<Recovered>): Outcome {
    match r
    case None => Broken
    case Some(ByHand) => Manual
    case Some(KeptNew) => Manual
    case Some(_) => Reverted
  }

  // ---- Applying

  /** Every step is still planned, is outside the backup area, and its file is the old one. */
  method CheckStart(u: Updater) returns (ok: bool)
    modifies u`disk, u`asked
    ensures old(u.asked) <= u.asked && (u.quiet ==> u.disk == old(u.disk))
    ensures ok ==> Separate(u.current) && AllPlanned(u.current)
    ensures u.quiet && ok ==> AllOld(u.current, u.disk)
    ensures u.quiet && u.Fine(old(u.asked), u.asked) && AllOld(u.current, u.disk) ==>
              (ok <==> Separate(u.current) && AllPlanned(u.current))
  {
    for i := 0 to |u.current.steps|
      invariant old(u.asked) <= u.asked && (u.quiet ==> u.disk == old(u.disk))
      invariant forall k :: 0 <= k < i ==> !UnderBackup(u.current.steps[k].path) && u.current.steps[k].state == Planned
      invariant u.quiet ==> forall k :: 0 <= k < i ==> At(u.disk, u.current.steps[k].path) == u.current.steps[k].before
    {
      var s := u.current.steps[i];
      if UnderBackup(s.path) || s.state != Planned {
        return false;
      }
      var seen := u.Observe(s.path);
      if seen.None? || seen.value != s.before {
        return false;
      }
    }
    ok := true;
  }

  /** A fresh journal, and every file of a step the old one. */
  ghost predicate Ready(j: Journal, disk: Disk) {
    j.phase == Prepared && Separate(j) && AllPlanned(j) && AllOld(j, disk)
  }

  /** From a prepared journal to the phase in which files may be changed. */
  method Begin(u: Updater) returns (ok: bool)
    requires u.Valid() && u.current.phase == Prepared && Separate(u.current) && AllPlanned(u.current)
    modifies u`stored, u`current, u`asked
    ensures u.quiet ==> u.OthersWhole() == old(u.OthersWhole())
    ensures old(u.Agrees()) ==> u.Agrees()
    ensures u.Valid() && old(u.asked) <= u.asked
    ensures SamePlan(old(u.current), u.current)
    ensures ok ==> u.InHand(Applying) && AllPlanned(u.stored)
    ensures u.Fine(old(u.asked), u.asked) && old(u.current == u.stored) ==> ok
  {
    ok := u.AdvancePhase(ExitAuthorized);
    if ok {
      ok := u.AdvancePhase(Applying);
    }
  }

  /** All steps, or the way back. */
  method RunOrRecover(u: Updater) returns (r: Outcome)
    requires u.InHand(Applying) && AllPlanned(u.stored)
    modifies u
    ensures u.quiet ==> u.OthersWhole() == old(u.OthersWhole())
    ensures old(u.Agrees()) ==> u.Agrees()
    ensures u.Valid() && old(u.asked) <= u.asked && !r.Refused?
    ensures r.Reached? ==> u.current == u.stored && u.stored.phase == AwaitingHealth
                           && (u.quiet ==> NewVersion(u.stored, u.disk))
    ensures r.Reverted? ==> u.stored.phase == RolledBack && (u.quiet ==> OldVersion(u.stored, u.disk))
    ensures old(u.Agrees()) && u.Fine(old(u.asked), u.asked) ==> r == if old(u.OthersWhole()) then Reached else Manual
    ensures r.Manual? && u.Fine(old(u.asked), u.asked) ==> u.HandedOver(old(u.current))
  {
    var ok := u.RunSteps();
    if ok {
      return Reached;
    }
    ghost var between := u.current;
    var recovered := Recover(u);
    if u.HandedOver(between) {
      SamePlanTrans(old(u.current), between, u.stored);
    }
    r := FromRecovery(recovered);
  }

  method Apply(u: Updater, exited: bool) returns (r: Outcome)
    requires u.Valid()
    modifies u
    ensures u.quiet ==> u.OthersWhole() == old(u.OthersWhole())
    ensures old(u.Agrees()) ==> u.Agrees()
    ensures u.Valid() && old(u.asked) < u.asked
    ensures r.Refused? ==> u.stored == old(u.stored) && u.current == old(u.current) && u.writes == old(u.writes)
    ensures !exited || old(u.current).phase != Prepared || old(!Separate(u.current)) ==> r.Refused?
    ensures u.quiet && old(!Ready(u.current, u.disk)) ==> r.Refused?
    ensures r.Reached? ==> u.current == u.stored && u.stored.phase == AwaitingHealth
                           && (u.quiet ==> NewVersion(u.stored, u.disk))
    ensures r.Reverted? ==> u.stored.phase == RolledBack && (u.quiet ==> OldVersion(u.stored, u.disk))
    ensures u.quiet && u.Fine(old(u.asked), u.asked) && old(u.current == u.stored) ==>
              r == if !exited || old(!Ready(u.current, u.disk)) then Refused
                   else if old(u.OthersWhole()) then Reached else Manual
    ensures r.Manual? && old(u.current == u.stored) && u.Fine(old(u.asked), u.asked) ==>
              u.HandedOver(old(u.current))
  {
    var parent := u.Next();
    if !parent.Works? || !exited || u.current.phase != Prepared {
      return Refused;
    }
    var ok := CheckStart(u);
    if !ok {
      return Refused;
    }
    ok := Begin(u);
    if !ok {
      return Broken;
    }
    ghost var begun := u.current;
    r := RunOrRecover(u);
    if u.HandedOver(begun) {
      SamePlanTrans(old(u.current), begun, u.stored);
    }
  }

  // ---- The health check

  /** Right before the commit everything is looked at again, and the platform's own checks are made. */
  method ReadyToCommit(u: Updater) returns (ok: bool)
    modifies u`disk, u`asked
    ensures old(u.asked) <= u.asked && (u.quiet ==> u.disk == old(u.disk))
    ensures u.quiet && ok ==> NewVersion(u.current, u.disk)
    ensures ok ==> u.asked > old(u.asked) && u.happens(u.asked - 1).Works?   // the platform's own check
    ensures u.quiet && u.Fine(old(u.asked), u.asked) && NewVersion(u.current, u.disk) ==> ok
  {
    var same := u.CheckSteps(true);
    if same == Some(true) {
      same := u.CheckKept();
    }
    ok := same == Some(true);
    if ok {
      var platform := u.Next();
      ok := platform.Works?;
    }
  }

  /** Commits a healthy run; nothing if recovery has to go on, the child then being stopped where the
      files were found changed. */
  method TryCommit(u: Updater) returns (r: Option<Outcome>)
    requires u.Valid() && u.current.phase == AwaitingHealth
    modifies u`disk, u`stored, u`current, u`asked, u`childGone
    ensures u.quiet ==> u.OthersWhole() == old(u.OthersWhole())
    ensures old(u.Agrees()) ==> u.Agrees()
    ensures u.Valid() && old(u.asked) <= u.asked && (u.quiet ==> u.disk == old(u.disk))
    ensures r in {None, Some(Reached), Some(Manual)}
    ensures r == None && u.Fine(old(u.asked), u.asked) && old(u.current == u.stored) ==> u.current == u.stored
    ensures r == None ==> u.current == old(u.current)
    ensures r == Some(Reached) ==> u.current == u.stored && u.stored.phase == Committed
                                   && (u.quiet ==> NewVersion(u.stored, u.disk))
    ensures u.quiet && u.Fine(old(u.asked), u.asked) && old(u.current == u.stored) ==>
              (r == Some(Reached) <==> old(NewVersion(u.current, u.disk)))
              && (r == None ==> u.stored == u.current) && r != Some(Manual)
    ensures r == Some(Manual) && old(u.current == u.stored) && u.CouldStore(old(u.asked)) ==>
              u.HandedOver(old(u.current))
  {
    r := None;
    var placed := u.Next();
    if !placed.Works? {
      return;
    }
    var ok := ReadyToCommit(u);
    if ok {
      ok := u.AdvancePhase(Committed);
      r := if ok then Some(Reached) else None;
    } else {
      var stopped := u.StopChild();
      if !stopped {
        Require(u);
        r := Some(Manual);
      }
    }
  }

  method ConcludeHealth(u: Updater, healthy: bool) returns (r: Outcome)
    requires u.Valid()
    modifies u
    ensures u.quiet ==> u.OthersWhole() == old(u.OthersWhole())
    ensures old(u.Agrees()) ==> u.Agrees()
    ensures u.Valid() && old(u.asked) <= u.asked
    ensures r.Refused? <==> old(u.current).phase != AwaitingHealth
    ensures r.Refused? ==> u.stored == old(u.stored) && u.current == old(u.current) && u.writes == old(u.writes)
    ensures r.Reached? ==> healthy && u.current == u.stored && u.stored.phase == Committed
                           && (u.quiet ==> NewVersion(u.stored, u.disk)) && u.writes == old(u.writes)
    ensures r.Reverted? ==> u.stored.phase == RolledBack && (u.quiet ==> OldVersion(u.stored, u.disk))
    ensures u.quiet && old(Lost(u.current, u.disk) || !Explained(u.current, u.disk)) ==> u.writes == old(u.writes)
    ensures u.quiet && u.Fine(old(u.asked), u.asked) && old(u.current == u.stored) && !r.Refused? ==>
              r == if healthy && old(NewVersion(u.current, u.disk)) then Reached
                   else if old(Recoverable(u.current, u.disk)) then Reverted else Manual
    ensures r.Manual? && old(u.current == u.stored) && u.Fine(old(u.asked), u.asked) ==>
              u.HandedOver(old(u.current))
    ensures u.AddedAlone(old(u.writes))
  {
    if u.current.phase != AwaitingHealth {
      return Refused;
    }
    if healthy {
      var done := TryCommit(u);
      if done.Some? {
        return done.value;
      }
    }
    var recovered := Recover(u);
    r := FromRecovery(recovered);
  }

  // ---- Any run

  datatype Call = CallApply(exited: bool) | CallConclude(healthy: bool) | CallRecover | CallReopen

  /** A process starts and takes the journal from the store. */
  method Reopen(u: Updater) returns (ok: bool)
    requires u.Valid()
    modifies u`current, u`asked, u`childGone
    ensures u.quiet ==> u.OthersWhole() == old(u.OthersWhole())
    ensures old(u.Agrees()) ==> u.Agrees()
    ensures u.Valid() && old(u.asked) < u.asked
    ensures u.current == if ok then u.stored else old(u.current)
    ensures u.Fine(old(u.asked), u.asked) ==> ok
  {
    var loaded := u.Next();
    ok := loaded.Works?;
    if ok {
      u.current, u.childGone := u.stored, false;
    }
  }

  method Run(u: Updater, calls: seq<Call>)
    requires u.Valid()
    modifies u
    ensures u.quiet ==> u.OthersWhole() == old(u.OthersWhole())
    ensures old(u.Agrees()) ==> u.Agrees()
    ensures u.Valid() && old(u.asked) <= u.asked
    ensures old(u.current == u.stored && Terminal(u.stored.phase)) ==>
              u.stored == old(u.stored) && u.writes == old(u.writes)
  {
    for i := 0 to |calls|
      invariant u.Valid() && old(u.asked) <= u.asked && (old(u.Agrees()) ==> u.Agrees())
      invariant u.quiet ==> u.OthersWhole() == old(u.OthersWhole())
      invariant old(u.current == u.stored && Terminal(u.stored.phase)) ==>
                  u.current == u.stored == old(u.stored) && u.writes == old(u.writes)
    {
      match calls[i] {
        case CallApply(exited) => var _ := Apply(u, exited);
        case CallConclude(healthy) => var _ := ConcludeHealth(u, healthy);
        case CallRecover => var _ := Recover(u);
        case CallReopen => var _ := Reopen(u);
      }
    }
  }

  /** Files that agree with the journal can be recovered in each of its states, if those left alone are
      what they were and it does not ask for a hand already. */
  lemma AgreeingRecoverable(j: Journal, disk: Disk)
    requires StepsOk(j, disk)
    ensures Recoverable(j, disk) <==> j.phase != RecoveryRequired && Untouched(j, disk)
  {
  }

  /** Each file is the old one, the new one or missing, and what is not old has its backup. */
  ghost predicate InReach(j: Journal, disk: Disk) {
    forall i :: 0 <= i < |j.steps| ==>
      Touched(disk, j.steps[i]) && (At(disk, j.steps[i].path) == j.steps[i].before || HasBackup(disk, j.steps[i]))
  }

  lemma RequiredInReach(j: Journal, disk: Disk)
    requires StepsOk(j, disk) && j.phase == RecoveryRequired
    ensures InReach(j, disk)
  {
  }

  /** Whatever was called before and however each call to the system went, a process that starts
      and meets no failure ends with one whole version, unless the journal already asks for a hand or a
      file left alone has changed; and then no file of a step is out of reach. */
  method StartUp(u: Updater) returns (r: Option<Recovered>)
    requires u.Valid()
    modifies u
    ensures u.Valid() && AllProper(u.stored, u.writes) && (old(u.Agrees()) ==> u.Agrees())
    ensures old(u.Agrees()) && u.Fine(old(u.asked), u.asked) ==>
              && r.Some? && (r.value.ByHand? <==> old(u.stored.phase == RecoveryRequired || !u.OthersWhole()))
              && match r.value
                 case KeptOld | PutBack =>
                   u.stored.phase == RolledBack && old(u.stored).phase != Committed && OldVersion(u.stored, u.disk)
                 case KeptNew =>
                   u.stored == old(u.stored) && u.stored.phase == Committed && NewVersion(u.stored, u.disk)
                 case ByHand =>
                   && (if Terminal(old(u.stored).phase) then u.stored == old(u.stored) else u.HandedOver(old(u.stored)))
                   && (u.stored.phase == RecoveryRequired ==> InReach(u.stored, u.disk))
  {
    var ok := Reopen(u);
    if !ok {
      return None;
    }
    if u.Agrees() {
      AgreeingRecoverable(u.stored, u.disk);
    }
    r := Recover(u);
    if u.Agrees() && u.stored.phase == RecoveryRequired {
      RequiredInReach(u.stored, u.disk);
    }
  }
}
