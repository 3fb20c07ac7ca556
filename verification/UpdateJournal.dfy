/** The journal of one update of an installed program: what each step replaces by what, how far it
    got, and what the disk has to look like at every phase. */
module UpdateJournal {
  import opened Wrappers

  /** What the code can tell of a file's content. */
  datatype Identity = Identity(size: nat, sha256: string)

  /** Files by their path; backups live at their own paths beneath `backup/`. */
  type Disk = map<string, Identity>

  function At(disk: Disk, path: string): Option<Identity> {
    if path in disk then Some(disk[path]) else None
  }

  datatype Phase =
    | Prepared | ExitAuthorized | Applying | AwaitingHealth | Committed
    | RollingBack | RolledBack | RecoveryRequired

  predicate Terminal(p: Phase) {
    p in {Committed, RolledBack, RecoveryRequired}
  }

  predicate MayFollow(p: Phase, next: Phase) {
    match p
    case Prepared => next in {ExitAuthorized, RolledBack, RecoveryRequired}
    case ExitAuthorized => next in {Applying, RolledBack, RecoveryRequired}
    case Applying => next in {AwaitingHealth, RollingBack, RecoveryRequired}
    case AwaitingHealth => next in {Committed, RollingBack, RecoveryRequired}
    case RollingBack => next in {RolledBack, RecoveryRequired}
    case _ => false
  }

  datatype StepState = Planned | Intent | Applied | Restored

  predicate StepMayFollow(s: StepState, next: StepState) {
    || (s == Planned && next == Intent)
    || (s == Intent && next in {Applied, Restored})
    || (s == Applied && next == Restored)
  }

  /** The transitions, all of them. */
  lemma Transitions(p: Phase, next: Phase, s: StepState, after: StepState)
    ensures MayFollow(p, next) <==>
            || (p, next) in {(Prepared, ExitAuthorized), (ExitAuthorized, Applying), (Applying, AwaitingHealth),
                             (AwaitingHealth, Committed), (Prepared, RolledBack), (ExitAuthorized, RolledBack),
                             (Applying, RollingBack), (AwaitingHealth, RollingBack), (RollingBack, RolledBack)}
            || (next == RecoveryRequired && p !in {Committed, RolledBack, RecoveryRequired})
    ensures StepMayFollow(s, after) <==>
            (s, after) in {(Planned, Intent), (Intent, Applied), (Intent, Restored), (Applied, Restored)}
  {
  }

  /** A file replaced, added (no old content) or removed (no new content). */
  datatype Step = Step(path: string, before: Option<Identity>, after: Option<Identity>, state: StepState)

  datatype Journal = Journal(phase: Phase, steps: seq<Step>, kept: map<string, Identity>, generation: nat)

  const BACKUP_PREFIX := "backup/"

  function Backup(path: string): string {
    BACKUP_PREFIX + path
  }

  predicate UnderBackup(path: string) {
    BACKUP_PREFIX <= path
  }

  /** Each step changes something, and every owned path appears once. */
  ghost predicate WellFormed(j: Journal) {
    && (forall i :: 0 <= i < |j.steps| ==> j.steps[i].before.Some? || j.steps[i].after.Some?)
    && (forall i, k :: 0 <= i < k < |j.steps| ==> j.steps[i].path != j.steps[k].path)
    && (forall i :: 0 <= i < |j.steps| ==> j.steps[i].path !in j.kept)
    && (forall path :: path in j.kept ==> !UnderBackup(path))
  }

  // ---- The disk

  predicate HasBackup(disk: Disk, s: Step) {
    s.before.Some? ==> At(disk, Backup(s.path)) == s.before
  }

  /** Old, new, or missing because a replacement stopped halfway. */
  predicate Touched(disk: Disk, s: Step) {
    At(disk, s.path) in {s.before, s.after, None}
  }

  /** What the disk holds for a step, as far as the journal tells. */
  predicate StepOk(phase: Phase, disk: Disk, s: Step) {
    match phase
    case Prepared | ExitAuthorized => s.state == Planned && At(disk, s.path) == s.before
    case RolledBack => At(disk, s.path) == s.before
    case Committed => At(disk, s.path) == s.after
    case AwaitingHealth => s.state == Applied && At(disk, s.path) == s.after && HasBackup(disk, s)
    case Applying =>
      && s.state != Restored
      && (s.state == Planned ==> At(disk, s.path) == s.before)
      && (s.state == Intent ==> Touched(disk, s) && HasBackup(disk, s))
      && (s.state == Applied ==> At(disk, s.path) == s.after && HasBackup(disk, s))
    case RollingBack | RecoveryRequired =>
      if s.state == Planned || s.state == Restored then At(disk, s.path) == s.before
      else Touched(disk, s) && HasBackup(disk, s)
  }

  ghost predicate StepsOk(j: Journal, disk: Disk) {
    forall i :: 0 <= i < |j.steps| ==> StepOk(j.phase, disk, j.steps[i])
  }

  ghost predicate Untouched(j: Journal, disk: Disk) {
    forall path :: path in j.kept ==> At(disk, path) == Some(j.kept[path])
  }

  ghost predicate AllOld(j: Journal, disk: Disk) {
    forall i :: 0 <= i < |j.steps| ==> At(disk, j.steps[i].path) == j.steps[i].before
  }

  ghost predicate AllNew(j: Journal, disk: Disk) {
    forall i :: 0 <= i < |j.steps| ==> At(disk, j.steps[i].path) == j.steps[i].after
  }

  /** The install is the old version, whole. */
  ghost predicate OldVersion(j: Journal, disk: Disk) {
    AllOld(j, disk) && Untouched(j, disk)
  }

  ghost predicate NewVersion(j: Journal, disk: Disk) {
    AllNew(j, disk) && Untouched(j, disk)
  }

  /** No step is in the backup area; what starts changing files has checked that. */
  ghost predicate Separate(j: Journal) {
    forall i :: 0 <= i < |j.steps| ==> !UnderBackup(j.steps[i].path)
  }

  predicate Started(p: Phase) {
    p in {Applying, AwaitingHealth, Committed, RollingBack}
  }

  // ---- One writer and its store

  predicate SameStep(a: Step, b: Step) {
    a.path == b.path && a.before == b.before && a.after == b.after
  }

  /** The same plan, whatever the progress. */
  ghost predicate SamePlan(a: Journal, b: Journal) {
    |a.steps| == |b.steps| && a.kept == b.kept
    && forall i :: 0 <= i < |a.steps| ==> SameStep(a.steps[i], b.steps[i])
  }

  lemma SamePlanTrans(a: Journal, b: Journal, c: Journal)
    requires SamePlan(a, b) && SamePlan(b, c)
    ensures SamePlan(a, c)
  {
  }

  /** The stored journal is the writer's, or one change ahead of it: that change was stored although
      storing it was reported to fail. */
  ghost predicate Follows(current: Journal, stored: Journal) {
    || stored == current
    || (&& stored.generation == current.generation + 1 && SamePlan(current, stored)
        && (stored.phase == current.phase || MayFollow(current.phase, stored.phase))
        && forall i :: 0 <= i < |current.steps| ==>
             stored.steps[i].state == current.steps[i].state
             || StepMayFollow(current.steps[i].state, stored.steps[i].state))
  }

  // ---- Keeping the disk in step with the journal

  /** A file of one step was changed; the other steps and their backups are where they were. */
  lemma OthersKept(j: Journal, before: Disk, after: Disk, k: nat)
    requires WellFormed(j) && Separate(j) && k < |j.steps| && StepsOk(j, before)
    requires forall path :: path != j.steps[k].path ==> At(after, path) == At(before, path)
    requires StepOk(j.phase, after, j.steps[k])
    ensures StepsOk(j, after)
  {
  }

  /** Neither a step's file nor a backup is one of those left alone. */
  lemma KeptElsewhere(j: Journal, before: Disk, after: Disk, changed: string)
    requires WellFormed(j) && forall path :: path != changed ==> At(after, path) == At(before, path)
    requires UnderBackup(changed) || exists i :: 0 <= i < |j.steps| && j.steps[i].path == changed
    ensures Untouched(j, before) <==> Untouched(j, after)
  {
  }

  lemma BackupElsewhere(path: string, other: string)
    ensures UnderBackup(Backup(path)) && (!UnderBackup(other) ==> Backup(path) != other)
  {
  }

  lemma BackupsDiffer(path: string, other: string)
    ensures Backup(path) == Backup(other) <==> path == other
  {
    assert Backup(path)[|BACKUP_PREFIX|..] == path && Backup(other)[|BACKUP_PREFIX|..] == other;
  }

  /** Steps change only by going on to the phases the code goes on to. */
  lemma PhaseKept(j: Journal, disk: Disk, next: Phase)
    requires StepsOk(j, disk) && MayFollow(j.phase, next)
    requires next == AwaitingHealth ==> AllNew(j, disk) && forall i :: 0 <= i < |j.steps| ==>
               j.steps[i].state == Applied && HasBackup(disk, j.steps[i])
    requires next == Committed ==> AllNew(j, disk)
    requires next == RolledBack ==> AllOld(j, disk)
    ensures StepsOk(j.(phase := next, generation := j.generation + 1), disk)
  {
  }

  lemma StepKept(j: Journal, disk: Disk, k: nat, next: StepState)
    requires StepsOk(j, disk) && k < |j.steps|
    requires StepOk(j.phase, disk, j.steps[k].(state := next))
    ensures StepsOk(j.(steps := j.steps[k := j.steps[k].(state := next)], generation := j.generation + 1), disk)
  {
  }

  // ---- What recovery decides

  /** Put a step's backup back over what is expected there, or remove an added file. */
  datatype Action = RestoreBackup(i: nat, expected: Option<Identity>) | RemoveAdded(i: nat)

  datatype Decision = KeepOld | KeepNew | RollBack(actions: seq<Action>) | Required

  function ExpectedAt(j: Journal, a: Action): Option<Identity>
    requires a.i < |j.steps|
  {
    if a.RestoreBackup? then a.expected else j.steps[a.i].after
  }

  predicate ActionOk(j: Journal, a: Action) {
    && a.i < |j.steps| && ExpectedAt(j, a) != j.steps[a.i].before
    && match a
       case RestoreBackup(i, expected) => j.steps[i].before.Some? && expected in {j.steps[i].after, None}
       case RemoveAdded(i) => j.steps[i].before.None? && j.steps[i].after.Some?
  }

  /** What is on the disk for it is what it expects, which is not the old content, and a backup is there. */
  predicate Founded(j: Journal, disk: Disk, a: Action) {
    ActionOk(j, a) && At(disk, j.steps[a.i].path) == ExpectedAt(j, a) && HasBackup(disk, j.steps[a.i])
  }

  ghost predicate Planful(j: Journal, actions: seq<Action>) {
    && (forall k :: 0 <= k < |actions| ==> ActionOk(j, actions[k]))
    && forall k, l :: 0 <= k < l < |actions| ==> actions[k].i < actions[l].i
  }

  ghost predicate Acts(actions: seq<Action>, i: int) {
    exists k :: 0 <= k < |actions| && actions[k].i == i
  }

  /** The actions are founded, and without them every step is at its old content. */
  ghost predicate Suffices(j: Journal, disk: Disk, actions: seq<Action>) {
    && (forall k :: 0 <= k < |actions| ==> Founded(j, disk, actions[k]))
    && forall i :: 0 <= i < |j.steps| && !Acts(actions, i) ==> At(disk, j.steps[i].path) == j.steps[i].before
  }

  /** Neither the old content, nor the new, nor missing with a backup to put back. */
  predicate Hopeless(disk: Disk, s: Step) {
    var at := At(disk, s.path);
    at != s.before && !((at == s.after || (at.None? && s.before.Some?)) && HasBackup(disk, s))
  }
}
