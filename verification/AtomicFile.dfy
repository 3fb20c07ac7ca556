/** Crash-safe atomic replace: any number of processes write files of one directory by
    writing a temporary sibling, syncing it, renaming it over the target and syncing the
    directory.  Every system call may fail, processes may die and the machine may crash
    between any two calls.

    A crash keeps, for each name independently, any value the name had since the last
    directory sync, and leaves unsynced file contents arbitrary. */
module AtomicFile {
  import opened Decimal
  import opened Wrappers

  type Bytes = seq<bv8>

  // ---- Names

  /** The two kinds of name the directory holds: files callers ask for, and the temporary
      sibling of writer number `sequence` of process `pid`. */
  datatype Name = Target(text: string) | Temp(stem: string, pid: nat, sequence: nat)

  function FileName(n: Name): string {
    match n
    case Target(text) => text
    case Temp(stem, pid, sequence) => "." + stem + ".hane-ai-" + Print(pid) + "-" + Print(sequence) + ".tmp"
  }

  /** Temporary names of different writers are different files, whatever the stems. */
  lemma TempNamesDistinct(m: Name, n: Name)
    requires m.Temp? && n.Temp? && FileName(m) == FileName(n)
    ensures m == n
  {
    var (name, ext) := (FileName(m), ".tmp");
    var (outer, outer') := ("." + m.stem + ".hane-ai-", "." + n.stem + ".hane-ai-");
    var (head, head') := (outer + Print(m.pid) + "-", outer' + Print(n.pid) + "-");
    assert name == (head + Print(m.sequence)) + ext == (head' + Print(n.sequence)) + ext;
    assert name[..|name| - 4] == head + Print(m.sequence) == head' + Print(n.sequence);
    DigitTailUnique(head, head', Print(m.sequence), Print(n.sequence));
    assert head[..|head| - 1] == outer + Print(m.pid) && head'[..|head'| - 1] == outer' + Print(n.pid);
    DigitTailUnique(outer, outer', Print(m.pid), Print(n.pid));
    PrintInjective(m.pid, n.pid);
    PrintInjective(m.sequence, n.sequence);
    assert outer[1..|outer| - 9] == m.stem && outer'[1..|outer'| - 9] == n.stem;
  }

  // ---- State

  datatype Outcome = ReturnedOk | NotPersisted | RenameSucceededSyncFailed

  datatype Phase =
    | Prepared           // temporary name chosen
    | Opened             // temporary file created, not completely written
    | Written            // all bytes handed to the system
    | Synced             // all bytes durable
    | Failed             // some call failed; the temporary is about to be removed
    | Landed             // renamed, directory not yet synced
    | Done(outcome: Outcome)
    | Dead               // the process died first

  predicate Active(p: Phase) {
    !p.Done? && p != Dead
  }

  predicate OwnsTemp(p: Phase) {
    p == Opened || p == Written || p == Synced
  }

  /** One call of `atomic_write_bytes`.  `rank` is its place among all renames so far. */
  datatype Writer = Writer(pid: nat, sequence: nat, stem: string, target: string, bytes: Bytes,
                           phase: Phase, content: Bytes, rank: Option<nat>)
  {
    function TempFile(): Name {
      Temp(stem, pid, sequence)
    }

    function TargetFile(): Name {
      Target(target)
    }
  }

  /** What a directory entry refers to: nothing, the file it had initially, or a writer's file. */
  datatype Entry = Absent | Initial | File(writer: nat)

  /** The values a name had since the recovery; those from `floor` on may survive a crash. */
  datatype Log = Log(values: seq<Entry>, floor: nat)

  datatype State = State(unix: bool, logs: map<Name, Log>, writers: seq<Writer>,
                         processes: map<nat, nat>, nextRank: nat)
  {
    function LogOf(name: Name): Log {
      if name in logs then logs[name] else Log([Absent], 0)
    }

    function Live(name: Name): Entry {
      var log := LogOf(name);
      if log.values == [] then Absent else log.values[|log.values| - 1]
    }

    function Put(name: Name, e: Entry): State {
      this.(logs := logs[name := Log(LogOf(name).values + [e], LogOf(name).floor)])
    }

    function SetPhase(w: nat, phase: Phase): State
      requires w < |writers|
    {
      this.(writers := writers[w := writers[w].(phase := phase)])
    }
  }

  datatype Step =
    | Spawn(pid: nat)
    | Exit(pid: nat)
    | Begin(pid: nat, stem: string, target: string, bytes: Bytes)
    | BeginFails(pid: nat, target: string, bytes: Bytes)
    | Open(w: nat, ok: bool)
    | WriteSome(w: nat, n: nat)
    | Flush(w: nat, ok: bool)
    | SyncData(w: nat, ok: bool)
    | Rename(w: nat, ok: bool)
    | SyncDirectory(w: nat, ok: bool)
    | Remove(w: nat, ok: bool)
    | Crash(survivor: Name -> nat, debris: nat -> Bytes)

  const SEQUENCE_LIMIT := 0x1_0000_0000_0000_0000

  predicate At(s: State, w: nat, phase: Phase) {
    w < |s.writers| && s.writers[w].phase == phase
  }

  predicate Enabled(s: State, step: Step) {
    match step
    case Spawn(pid) => pid !in s.processes
    case Exit(pid) => pid in s.processes
    case Begin(pid, _, target, _) => pid in s.processes && s.processes[pid] < SEQUENCE_LIMIT
    case BeginFails(pid, target, _) => pid in s.processes
    case Open(w, ok) => At(s, w, Prepared) && (ok ==> s.Live(s.writers[w].TempFile()) == Absent)
    case WriteSome(w, n) => At(s, w, Opened) && n <= |s.writers[w].bytes|
    case Flush(w, _) => At(s, w, Opened)
    case SyncData(w, _) => At(s, w, Written)
    case Rename(w, ok) => At(s, w, Synced) && (ok ==> s.Live(s.writers[w].TempFile()) != Absent)
    case SyncDirectory(w, ok) => At(s, w, Landed) && (!s.unix ==> ok)
    case Remove(w, _) => At(s, w, Failed)
    case Crash(survivor, _) => Possible(s, survivor)
  }

  /** Every name keeps one of the values it may still have after a crash. */
  predicate Possible(s: State, survivor: Name -> nat) {
    forall name | name in s.logs :: s.logs[name].floor <= survivor(name) < |s.logs[name].values|
  }

  function KillIf(x: Writer, dies: bool): Writer {
    if dies && Active(x.phase) then x.(phase := Dead) else x
  }

  /** The data a writer's file holds after a crash: its bytes if synced before, else anything. */
  function AfterCrash(x: Writer, debris: Bytes): Writer {
    KillIf(if x.phase == Synced || x.rank.Some? then x else x.(content := debris), true)
  }

  function Renamed(s: State, w: nat): State
    requires w < |s.writers|
  {
    var x := s.writers[w];
    s.(writers := s.writers[w := x.(phase := Landed, rank := Some(s.nextRank))], nextRank := s.nextRank + 1)
     .Put(x.TargetFile(), s.Live(x.TempFile())).Put(x.TempFile(), Absent)
  }

  function DirectorySynced(s: State): State {
    s.(logs := map name | name in s.logs ::
                 Log(s.LogOf(name).values, if s.LogOf(name).values == [] then 0 else |s.LogOf(name).values| - 1))
  }

  function Recovered(s: State, survivor: Name -> nat, debris: nat -> Bytes): State
    requires Possible(s, survivor)
  {
    s.(processes := map[],
       logs := map name | name in s.logs :: Log([s.logs[name].values[survivor(name)]], 0),
       writers := seq(|s.writers|, i requires 0 <= i < |s.writers| => AfterCrash(s.writers[i], debris(i))))
  }

  function Apply(s: State, step: Step): State
    requires Enabled(s, step)
  {
    match step
    case Spawn(pid) => s.(processes := s.processes[pid := 0])
    case Exit(pid) =>
      s.(processes := s.processes - {pid},
         writers := seq(|s.writers|, i requires 0 <= i < |s.writers| => KillIf(s.writers[i], s.writers[i].pid == pid)))
    case Begin(pid, stem, target, bytes) =>
      s.(processes := s.processes[pid := s.processes[pid] + 1],
         writers := s.writers + [Writer(pid, s.processes[pid], stem, target, bytes, Prepared, [], None)])
    case BeginFails(pid, target, bytes) =>
      s.(writers := s.writers + [Writer(pid, s.processes[pid], "", target, bytes, Done(NotPersisted), [], None)])
    case Open(w, ok) =>
      if ok then s.SetPhase(w, Opened).Put(s.writers[w].TempFile(), File(w)) else s.SetPhase(w, Failed)
    case WriteSome(w, n) =>
      s.(writers := s.writers[w := s.writers[w].(content := s.writers[w].bytes[..n])])
    case Flush(w, ok) =>
      if ok then s.(writers := s.writers[w := s.writers[w].(content := s.writers[w].bytes, phase := Written)])
      else s.SetPhase(w, Failed)
    case SyncData(w, ok) => s.SetPhase(w, if ok then Synced else Failed)
    case Rename(w, ok) => if ok then Renamed(s, w) else s.SetPhase(w, Failed)
    case SyncDirectory(w, ok) =>
      var s' := s.SetPhase(w, Done(if ok then ReturnedOk else RenameSucceededSyncFailed));
      if ok && s.unix then DirectorySynced(s') else s'
    case Remove(w, ok) =>
      var s' := s.SetPhase(w, Done(NotPersisted));
      if ok && s.Live(s.writers[w].TempFile()) != Absent then s'.Put(s.writers[w].TempFile(), Absent) else s'
    case Crash(survivor, debris) => Recovered(s, survivor, debris)
  }

  /** A directory with arbitrary files in it and nothing running. */
  ghost predicate Start(s: State) {
    && s.writers == [] && s.processes == map[] && s.nextRank == 0
    && forall name :: name in s.logs ==>
       s.logs[name].floor == 0 && |s.logs[name].values| == 1 && !s.logs[name].values[0].File?
  }

  ghost predicate Reaches(s: State, steps: seq<Step>, t: State)
    decreases |steps|
  {
    if steps == [] then s == t
    else
      var last := |steps| - 1;
      exists mid :: Reaches(s, steps[..last], mid) && Enabled(mid, steps[last]) && t == Apply(mid, steps[last])
  }

  // ---- What every step keeps

  function RankOf(s: State, e: Entry): int {
    if e.File? && e.writer < |s.writers| && s.writers[e.writer].rank.Some? then s.writers[e.writer].rank.value else -1
  }

  ghost predicate WriterOk(s: State, w: nat)
    requires w < |s.writers|
  {
    var x := s.writers[w];
    && (Active(x.phase) ==> x.pid in s.processes && x.sequence < s.processes[x.pid])
    && (OwnsTemp(x.phase) ==> s.Live(x.TempFile()) == File(w))
    && (x.phase == Written || x.phase == Synced || x.rank.Some? ==> x.content == x.bytes)
    && (x.rank.Some? ==> x.rank.value < s.nextRank)
    && (x.phase == Landed && x.rank.Some? ==> RankOf(s, s.Live(x.TargetFile())) >= x.rank.value)
    && (x.phase == Landed || x.phase == Done(ReturnedOk) || x.phase == Done(RenameSucceededSyncFailed) ==> x.rank.Some?)
    && (x.rank.Some? ==> !OwnsTemp(x.phase) && x.phase !in {Prepared, Failed, Done(NotPersisted)})
  }

  ghost predicate TargetEntryOk(s: State, name: Name, e: Entry) {
    e.File? ==> e.writer < |s.writers| && s.writers[e.writer].rank.Some? && s.writers[e.writer].TargetFile() == name
  }

  ghost predicate TempEntryOk(s: State, name: Name, e: Entry) {
    e.File? ==> e.writer < |s.writers| && s.writers[e.writer].TempFile() == name
  }

  ghost predicate LogOk(s: State, name: Name) {
    var log := s.LogOf(name);
    && log.floor < |log.values|
    && (forall k :: 0 <= k < |log.values| ==>
          if name.Temp? then TempEntryOk(s, name, log.values[k]) else TargetEntryOk(s, name, log.values[k]))
    && (name.Target? ==>
          forall j, k :: 0 <= j < k < |log.values| ==> RankOf(s, log.values[j]) < RankOf(s, log.values[k]))
  }

  ghost predicate DurableOk(s: State, w: nat)
    requires w < |s.writers|
  {
    var x := s.writers[w];
    var log := s.LogOf(x.TargetFile());
    s.unix && x.phase == Done(ReturnedOk) && log.floor < |log.values| ==>
      x.rank.Some? && RankOf(s, log.values[log.floor]) >= x.rank.value
  }

  ghost predicate Separate(s: State) {
    forall v, w :: 0 <= v < w < |s.writers| && Active(s.writers[v].phase) && Active(s.writers[w].phase) ==>
      (s.writers[v].pid, s.writers[v].sequence) != (s.writers[w].pid, s.writers[w].sequence)
  }

  ghost predicate Inv(s: State) {
    && (forall w {:trigger s.writers[w]} :: 0 <= w < |s.writers| ==> WriterOk(s, w) && DurableOk(s, w))
    && (forall name :: LogOk(s, name))
    && Separate(s)
  }

  // ---- Preservation, one kind of step at a time

  lemma StartInv(s: State)
    requires Start(s)
    ensures Inv(s)
  {
    forall name ensures LogOk(s, name) {
      assert name in s.logs ==> |s.logs[name].values| == 1;
    }
  }

  /** Logs stay well formed, and ranks the same, when no writer's rank or names change. */
  lemma LogsKept(s: State, t: State)
    requires Inv(s) && t.logs == s.logs && |t.writers| >= |s.writers|
    requires forall v :: 0 <= v < |s.writers| ==>
      && t.writers[v].rank == s.writers[v].rank
      && t.writers[v].TargetFile() == s.writers[v].TargetFile() && t.writers[v].TempFile() == s.writers[v].TempFile()
    requires forall v :: |s.writers| <= v < |t.writers| ==> t.writers[v].rank.None?
    ensures forall name :: LogOk(t, name)
    ensures forall e: Entry :: RankOf(t, e) == RankOf(s, e)
  {
    forall name ensures LogOk(t, name) {
      assert LogOk(s, name);
    }
  }

  /** A writer keeps its guarantees while its own names, rank and process are left alone. */
  lemma WriterKept(s: State, t: State, v: nat)
    requires Inv(s) && v < |s.writers| && v < |t.writers|
    requires t.unix == s.unix && t.nextRank >= s.nextRank
    requires t.writers[v] == s.writers[v] || t.writers[v] == KillIf(s.writers[v], true)
    requires Active(t.writers[v].phase) && s.writers[v].pid in s.processes ==>
      s.writers[v].pid in t.processes && t.processes[s.writers[v].pid] >= s.processes[s.writers[v].pid]
    requires t.LogOf(s.writers[v].TargetFile()) == s.LogOf(s.writers[v].TargetFile())
    requires OwnsTemp(t.writers[v].phase) ==> t.Live(s.writers[v].TempFile()) == s.Live(s.writers[v].TempFile())
    requires forall e: Entry :: RankOf(t, e) == RankOf(s, e)
    ensures WriterOk(t, v) && DurableOk(t, v)
  {
    assert WriterOk(s, v) && DurableOk(s, v);
  }

  lemma SeparateKept(s: State, t: State)
    requires Separate(s) && |t.writers| == |s.writers|
    requires forall v :: 0 <= v < |s.writers| ==>
      && t.writers[v].pid == s.writers[v].pid && t.writers[v].sequence == s.writers[v].sequence
      && (Active(t.writers[v].phase) ==> Active(s.writers[v].phase))
    ensures Separate(t)
  {
    forall v, w | 0 <= v < w < |t.writers| && Active(t.writers[v].phase) && Active(t.writers[w].phase)
      ensures (t.writers[v].pid, t.writers[v].sequence) != (t.writers[w].pid, t.writers[w].sequence)
    {
      assert Active(s.writers[v].phase) && Active(s.writers[w].phase);
    }
  }

  lemma PairApart(s: State, v: nat, w: nat)
    requires Separate(s) && v < w < |s.writers| && Active(s.writers[v].phase) && Active(s.writers[w].phase)
    ensures (s.writers[v].pid, s.writers[v].sequence) != (s.writers[w].pid, s.writers[w].sequence)
  {
  }

  /** No two running writers use the same temporary name. */
  lemma OthersTempDiffers(s: State, v: nat, w: nat)
    requires Separate(s) && v < |s.writers| && w < |s.writers| && v != w
    requires Active(s.writers[v].phase) && Active(s.writers[w].phase)
    ensures s.writers[v].TempFile() != s.writers[w].TempFile()
  {
    if v < w {
      PairApart(s, v, w);
    } else {
      PairApart(s, w, v);
    }
  }

  /** Steps that leave the directory alone: they only move one writer's own phase or content. */
  lemma QuietStepInv(s: State, w: nat, x: Writer)
    requires Inv(s) && w < |s.writers|
    requires var was := s.writers[w];
      && x == was.(phase := x.phase, content := x.content)
      && Active(was.phase) && was.rank.None?
      && (OwnsTemp(x.phase) ==> OwnsTemp(was.phase))
      && (x.phase == Written || x.phase == Synced ==> x.content == x.bytes)
      && x.phase in {Opened, Written, Synced, Failed, Done(NotPersisted)}
    ensures Inv(s.(writers := s.writers[w := x]))
  {
    var t := s.(writers := s.writers[w := x]);
    LogsKept(s, t);
    forall v | 0 <= v < |t.writers| ensures WriterOk(t, v) && DurableOk(t, v) {
      if v == w {
        assert WriterOk(s, v);
      } else {
        WriterKept(s, t, v);
      }
    }
    SeparateKept(s, t);
  }

  lemma ProcessStepInv(s: State, step: Step)
    requires Inv(s) && Enabled(s, step) && (step.Spawn? || step.Exit?)
    ensures Inv(Apply(s, step))
  {
    var t := Apply(s, step);
    LogsKept(s, t);
    forall v | 0 <= v < |t.writers| ensures WriterOk(t, v) && DurableOk(t, v) {
      assert WriterOk(s, v);
      WriterKept(s, t, v);
    }
    SeparateKept(s, t);
  }

  /** A new writer enters the log of writers, either ready to start or failed at once. */
  lemma ArrivalInv(s: State, step: Step)
    requires Inv(s) && Enabled(s, step) && (step.Begin? || step.BeginFails?)
    ensures Inv(Apply(s, step))
  {
    var t := Apply(s, step);
    var n := |s.writers|;
    LogsKept(s, t);
    forall v | 0 <= v < |t.writers| ensures WriterOk(t, v) && DurableOk(t, v) {
      if v < n {
        WriterKept(s, t, v);
      }
    }
    forall v, w | 0 <= v < w < |t.writers| && Active(t.writers[v].phase) && Active(t.writers[w].phase)
      ensures (t.writers[v].pid, t.writers[v].sequence) != (t.writers[w].pid, t.writers[w].sequence)
    {
      NewcomerApart(s, step, t, v, w);
    }
  }

  lemma NewcomerApart(s: State, step: Step, t: State, v: nat, w: nat)
    requires Inv(s) && Enabled(s, step) && (step.Begin? || step.BeginFails?) && t == Apply(s, step)
    requires v < w < |t.writers| && Active(t.writers[v].phase) && Active(t.writers[w].phase)
    ensures (t.writers[v].pid, t.writers[v].sequence) != (t.writers[w].pid, t.writers[w].sequence)
  {
    assert WriterOk(s, v) && t.writers[v] == s.writers[v];
    if w < |s.writers| {
      assert t.writers[w] == s.writers[w];
      PairApart(s, v, w);
    } else if s.writers[v].pid == step.pid {
      assert s.writers[v].sequence < s.processes[step.pid] == t.writers[w].sequence;
    }
  }

  /** Creating or removing a temporary touches one temporary name and one writer. */
  lemma TempChangeInv(s: State, w: nat, phase: Phase, e: Entry)
    requires Inv(s) && w < |s.writers| && Active(s.writers[w].phase) && s.writers[w].rank.None?
    requires (phase == Opened && e == File(w)) || (phase == Done(NotPersisted) && e == Absent)
    ensures Inv(s.SetPhase(w, phase).Put(s.writers[w].TempFile(), e))
  {
    var temp := s.writers[w].TempFile();
    var t := s.SetPhase(w, phase).Put(temp, e);
    assert forall other: Entry :: RankOf(t, other) == RankOf(s, other);
    forall name ensures LogOk(t, name) {
      assert LogOk(s, name);
      if name == temp {
        assert t.LogOf(name).values == s.LogOf(name).values + [e];
      } else {
        assert t.LogOf(name) == s.LogOf(name);
      }
    }
    forall v | 0 <= v < |t.writers| ensures WriterOk(t, v) && DurableOk(t, v) {
      if v == w {
        assert WriterOk(s, v);
      } else {
        if OwnsTemp(s.writers[v].phase) {
          OthersTempDiffers(s, v, w);
        }
        WriterKept(s, t, v);
      }
    }
    SeparateKept(s, t);
  }

  /** A rename ranks its own writer last and leaves every other rank alone. */
  lemma RanksKept(s: State, t: State, w: nat)
    requires Inv(s) && w < |s.writers| && s.writers[w].rank.None?
    requires t.writers == s.writers[w := s.writers[w].(phase := Landed, rank := Some(s.nextRank))]
    ensures forall e: Entry :: e != File(w) ==> RankOf(t, e) == RankOf(s, e) && RankOf(s, e) < s.nextRank
    ensures RankOf(t, File(w)) == s.nextRank
  {
    forall e: Entry | e != File(w) ensures RankOf(t, e) == RankOf(s, e) && RankOf(s, e) < s.nextRank {
      if e.File? && e.writer < |s.writers| {
        assert WriterOk(s, e.writer);
      }
    }
  }

  lemma RenameLogs(s: State, w: nat, t: State, name: Name)
    requires At(s, w, Synced) && WriterOk(s, w) && t == Renamed(s, w)
    ensures name == s.writers[w].TargetFile() ==>
      t.LogOf(name) == Log(s.LogOf(name).values + [File(w)], s.LogOf(name).floor)
    ensures name.Target? && name != s.writers[w].TargetFile() ==> t.LogOf(name) == s.LogOf(name)
    ensures name.Temp? && name != s.writers[w].TempFile() ==> t.LogOf(name) == s.LogOf(name)
    ensures name == s.writers[w].TempFile() ==>
      t.LogOf(name) == Log(s.LogOf(name).values + [Absent], s.LogOf(name).floor)
  {
  }

  lemma RenameLogOk(s: State, w: nat, t: State, name: Name)
    requires Inv(s) && At(s, w, Synced) && t == Renamed(s, w)
    ensures LogOk(t, name)
  {
    var x := s.writers[w];
    assert WriterOk(s, w) && LogOk(s, name);
    RenameLogs(s, w, t, name);
    RanksKept(s, t, w);
    if name == x.TargetFile() {
      var values := s.LogOf(name).values;
      assert t.LogOf(name).values == values + [File(w)];
      assert forall k :: 0 <= k < |values| ==> values[k] != File(w);
    } else if name == x.TempFile() {
      assert t.LogOf(name).values == s.LogOf(name).values + [Absent];
    }
  }

  lemma RenameInv(s: State, w: nat)
    requires Inv(s) && At(s, w, Synced)
    ensures Inv(Renamed(s, w))
  {
    var t := Renamed(s, w);
    forall name ensures LogOk(t, name) {
      RenameLogOk(s, w, t, name);
    }
    forall v | 0 <= v < |t.writers| ensures WriterOk(t, v) && DurableOk(t, v) {
      RenameWriter(s, w, t, v);
    }
    SeparateKept(s, t);
  }

  lemma RenameWriter(s: State, w: nat, t: State, v: nat)
    requires Inv(s) && At(s, w, Synced) && t == Renamed(s, w) && v < |t.writers|
    ensures WriterOk(t, v) && DurableOk(t, v)
  {
    assert WriterOk(s, v) && WriterOk(s, w);
    RanksKept(s, t, w);
    RenameLogs(s, w, t, s.writers[v].TargetFile());
    if v == w {
      assert t.Live(s.writers[w].TargetFile()) == File(w);
    } else {
      RenameRaises(s, w, t, s.writers[v].TargetFile());
      DurableKept(s, t, v, w);
      if OwnsTemp(s.writers[v].phase) {
        RenameKeepsTemp(s, w, t, v);
      }
    }
  }

  lemma RenameKeepsTemp(s: State, w: nat, t: State, v: nat)
    requires Inv(s) && At(s, w, Synced) && t == Renamed(s, w) && v < |s.writers| && v != w
    requires OwnsTemp(s.writers[v].phase)
    ensures t.Live(s.writers[v].TempFile()) == s.Live(s.writers[v].TempFile())
  {
    OthersTempDiffers(s, v, w);
    assert WriterOk(s, w);
    RenameLogs(s, w, t, s.writers[v].TempFile());
  }

  lemma RenameRaises(s: State, w: nat, t: State, target: Name)
    requires Inv(s) && At(s, w, Synced) && t == Renamed(s, w) && target.Target?
    ensures RankOf(t, t.Live(target)) >= RankOf(s, s.Live(target))
  {
    assert WriterOk(s, w) && LogOk(s, target);
    RanksKept(s, t, w);
    RenameLogs(s, w, t, target);
    assert RankOf(s, File(w)) == -1;
  }

  /** Appending a newer value to a target's log never lowers what a crash must keep. */
  lemma DurableKept(s: State, t: State, v: nat, w: nat)
    requires Inv(s) && v < |s.writers| && v < |t.writers| && t.writers[v] == s.writers[v] && t.unix == s.unix
    requires var name := s.writers[v].TargetFile();
      t.LogOf(name) == s.LogOf(name) || t.LogOf(name) == Log(s.LogOf(name).values + [File(w)], s.LogOf(name).floor)
    requires forall e: Entry :: e != File(w) ==> RankOf(t, e) == RankOf(s, e)
    requires w < |s.writers| && s.writers[w].rank.None?
    ensures DurableOk(t, v)
  {
    assert DurableOk(s, v) && LogOk(s, s.writers[v].TargetFile());
  }

  /** The rename's writer reports back, with the directory synced or not. */
  lemma LandedReports(s: State, w: nat, outcome: Outcome)
    requires Inv(s) && At(s, w, Landed)
    requires outcome == RenameSucceededSyncFailed || (outcome == ReturnedOk && !s.unix)
    ensures Inv(s.SetPhase(w, Done(outcome)))
  {
    var t := s.SetPhase(w, Done(outcome));
    LogsKept(s, t);
    forall v | 0 <= v < |t.writers| ensures WriterOk(t, v) && DurableOk(t, v) {
      if v == w {
        assert WriterOk(s, v);
      } else {
        WriterKept(s, t, v);
      }
    }
    SeparateKept(s, t);
  }

  /** Syncing the directory makes every name's present value the only one a crash can keep. */
  lemma DirectorySyncedInv(s: State)
    requires Inv(s)
    ensures Inv(DirectorySynced(s))
    ensures forall w :: 0 <= w < |s.writers| ==>
      var target := s.writers[w].TargetFile();
      var log := DirectorySynced(s).LogOf(target);
      |log.values| > 0 && log.floor == |log.values| - 1 && log.values[log.floor] == s.Live(target)
  {
    var t := DirectorySynced(s);
    forall name ensures LogOk(t, name) && t.LogOf(name).values == s.LogOf(name).values {
      SyncedLog(s, name);
    }
    forall v | 0 <= v < |t.writers| ensures WriterOk(t, v) && DurableOk(t, v) {
      SyncedWriter(s, v);
    }
    forall w | 0 <= w < |s.writers|
      ensures var target := s.writers[w].TargetFile();
        var log := t.LogOf(target);
        |log.values| > 0 && log.floor == |log.values| - 1 && log.values[log.floor] == s.Live(target)
    {
      SyncedLog(s, s.writers[w].TargetFile());
    }
    SeparateKept(s, t);
  }

  lemma LiveRank(s: State, name: Name)
    requires LogOk(s, name) && name.Target?
    ensures var log := s.LogOf(name);
      log.floor < |log.values| && RankOf(s, log.values[log.floor]) <= RankOf(s, s.Live(name))
    ensures TargetEntryOk(s, name, s.Live(name))
  {
    var log := s.LogOf(name);
    var last := |log.values| - 1;
    assert log.floor < last ==> RankOf(s, log.values[log.floor]) < RankOf(s, log.values[last]);
    assert TargetEntryOk(s, name, log.values[last]);
  }

  lemma SyncedLog(s: State, name: Name)
    requires Inv(s)
    ensures var (log, log') := (s.LogOf(name), DirectorySynced(s).LogOf(name));
      && LogOk(DirectorySynced(s), name)
      && |log.values| > 0 && log' == Log(log.values, |log.values| - 1)
  {
    assert LogOk(s, name);
    assert forall e: Entry :: RankOf(DirectorySynced(s), e) == RankOf(s, e);
  }

  lemma SyncedRanks(s: State)
    ensures forall e: Entry :: RankOf(DirectorySynced(s), e) == RankOf(s, e)
  {
  }

  lemma SyncedWriter(s: State, v: nat)
    requires Inv(s) && v < |s.writers|
    ensures WriterOk(DirectorySynced(s), v) && DurableOk(DirectorySynced(s), v)
  {
    SyncedWriterOk(s, v);
    SyncedDurable(s, v);
  }

  lemma SyncedWriterOk(s: State, v: nat)
    requires Inv(s) && v < |s.writers|
    ensures WriterOk(DirectorySynced(s), v)
  {
    assert WriterOk(s, v);
    SyncedLog(s, s.writers[v].TargetFile());
    SyncedLog(s, s.writers[v].TempFile());
  }

  lemma SyncedDurable(s: State, v: nat)
    requires Inv(s) && v < |s.writers|
    ensures DurableOk(DirectorySynced(s), v)
  {
    var target := s.writers[v].TargetFile();
    assert DurableOk(s, v) && LogOk(s, target);
    LiveRank(s, target);
    SyncedLog(s, target);
    SyncedRanks(s);
  }

  lemma SyncDirectoryInv(s: State, w: nat, ok: bool)
    requires Inv(s) && Enabled(s, SyncDirectory(w, ok))
    ensures Inv(Apply(s, SyncDirectory(w, ok)))
  {
    assert WriterOk(s, w);
    if ok && s.unix {
      var synced := DirectorySynced(s);
      DirectorySyncedInv(s);
      DurableReports(synced, w);
      assert DirectorySynced(s.SetPhase(w, Done(ReturnedOk))) == synced.SetPhase(w, Done(ReturnedOk));
    } else {
      LandedReports(s, w, if ok then ReturnedOk else RenameSucceededSyncFailed);
    }
  }

  /** Once its target's log floor has reached its rename, a writer may promise durability. */
  lemma DurableReports(s: State, w: nat)
    requires Inv(s) && At(s, w, Landed)
    requires var log := s.LogOf(s.writers[w].TargetFile());
      |log.values| > 0 && log.floor == |log.values| - 1
    ensures Inv(s.SetPhase(w, Done(ReturnedOk)))
  {
    var t := s.SetPhase(w, Done(ReturnedOk));
    LogsKept(s, t);
    forall v | 0 <= v < |t.writers| ensures WriterOk(t, v) && DurableOk(t, v) {
      if v == w {
        assert WriterOk(s, v);
      } else {
        WriterKept(s, t, v);
      }
    }
    SeparateKept(s, t);
  }

  lemma RecoveredWriters(s: State, survivor: Name -> nat, debris: nat -> Bytes)
    requires Possible(s, survivor)
    ensures |Recovered(s, survivor, debris).writers| == |s.writers|
    ensures forall v {:trigger s.writers[v]} {:trigger Recovered(s, survivor, debris).writers[v]} ::
      0 <= v < |s.writers| ==>
      Recovered(s, survivor, debris).writers[v] == AfterCrash(s.writers[v], debris(v))
    ensures forall e: Entry :: RankOf(Recovered(s, survivor, debris), e) == RankOf(s, e)
  {
    var t := Recovered(s, survivor, debris);
    assert forall v :: 0 <= v < |s.writers| ==> t.writers[v] == AfterCrash(s.writers[v], debris(v));
  }

  lemma RecoveredLog(s: State, survivor: Name -> nat, debris: nat -> Bytes, name: Name)
    requires LogOk(s, name) && Possible(s, survivor)
    ensures var log := s.LogOf(name);
      var kept := if name in s.logs then survivor(name) else 0;
      log.floor <= kept < |log.values| && Recovered(s, survivor, debris).LogOf(name) == Log([log.values[kept]], 0)
  {
  }

  lemma RecoveredLogOk(s: State, survivor: Name -> nat, debris: nat -> Bytes, name: Name)
    requires LogOk(s, name) && Possible(s, survivor)
    ensures LogOk(Recovered(s, survivor, debris), name)
  {
    RecoveredLog(s, survivor, debris, name);
    RecoveredWriters(s, survivor, debris);
  }

  lemma RecoveredWriterOk(s: State, survivor: Name -> nat, debris: nat -> Bytes, v: nat)
    requires v < |s.writers| && WriterOk(s, v) && DurableOk(s, v) && LogOk(s, s.writers[v].TargetFile())
    requires Possible(s, survivor)
    ensures WriterOk(Recovered(s, survivor, debris), v) && DurableOk(Recovered(s, survivor, debris), v)
  {
    RecoveredDurable(s, survivor, debris, v);
    RecoveredWriters(s, survivor, debris);
  }

  lemma RecoveredDurable(s: State, survivor: Name -> nat, debris: nat -> Bytes, v: nat)
    requires v < |s.writers| && DurableOk(s, v) && LogOk(s, s.writers[v].TargetFile()) && Possible(s, survivor)
    ensures DurableOk(Recovered(s, survivor, debris), v)
  {
    RecoveredLog(s, survivor, debris, s.writers[v].TargetFile());
    RecoveredWriters(s, survivor, debris);
  }

  /** After a crash every name holds one value it could have had, every process is gone,
      and no file that was ever renamed lost a byte. */
  lemma CrashInv(s: State, survivor: Name -> nat, debris: nat -> Bytes)
    requires Inv(s) && Possible(s, survivor)
    ensures Inv(Recovered(s, survivor, debris))
  {
    var t := Recovered(s, survivor, debris);
    RecoveredWriters(s, survivor, debris);
    forall name ensures LogOk(t, name) {
      RecoveredLogOk(s, survivor, debris, name);
    }
    forall v | 0 <= v < |t.writers| ensures WriterOk(t, v) && DurableOk(t, v) {
      assert WriterOk(s, v) && LogOk(s, s.writers[v].TargetFile());
      RecoveredWriterOk(s, survivor, debris, v);
    }
    SeparateKept(s, t);
  }

  lemma StepInv(s: State, step: Step)
    requires Inv(s) && Enabled(s, step)
    ensures Inv(Apply(s, step))
  {
    if !step.Spawn? && !step.Exit? && !step.Begin? && !step.BeginFails? && !step.Crash? {
      assert WriterOk(s, step.w);
    }
    match step {
      case Spawn(_) => ProcessStepInv(s, step);
      case Exit(_) => ProcessStepInv(s, step);
      case Begin(_, _, _, _) => ArrivalInv(s, step);
      case BeginFails(_, _, _) => ArrivalInv(s, step);
      case Open(w, ok) =>
        if ok { TempChangeInv(s, w, Opened, File(w)); } else { QuietStepInv(s, w, s.writers[w].(phase := Failed)); }
      case WriteSome(w, n) => QuietStepInv(s, w, s.writers[w].(content := s.writers[w].bytes[..n]));
      case Flush(w, ok) =>
        QuietStepInv(s, w, if ok then s.writers[w].(content := s.writers[w].bytes, phase := Written)
                           else s.writers[w].(phase := Failed));
      case SyncData(w, ok) => QuietStepInv(s, w, s.writers[w].(phase := if ok then Synced else Failed));
      case Rename(w, ok) =>
        if ok { RenameInv(s, w); } else { QuietStepInv(s, w, s.writers[w].(phase := Failed)); }
      case SyncDirectory(w, ok) => SyncDirectoryInv(s, w, ok);
      case Remove(w, ok) =>
        if ok && s.Live(s.writers[w].TempFile()) != Absent {
          TempChangeInv(s, w, Done(NotPersisted), Absent);
        } else {
          QuietStepInv(s, w, s.writers[w].(phase := Done(NotPersisted)));
        }
      case Crash(survivor, debris) => CrashInv(s, survivor, debris);
    }
  }

  // ---- Every run

  /** Apart from writers' files, a target only ever holds what it held at the start. */
  ghost predicate InitialKept(s0: State, s: State) {
    && s.unix == s0.unix
    && forall name: Name, k :: name.Target? && 0 <= k < |s.LogOf(name).values| ==>
         s.LogOf(name).values[k].File? || s.LogOf(name).values[k] == s0.Live(name)
  }

  lemma InitialKeptByStep(s0: State, s: State, step: Step)
    requires Inv(s) && Enabled(s, step) && InitialKept(s0, s)
    ensures InitialKept(s0, Apply(s, step))
  {
    var t := Apply(s, step);
    forall name: Name, k | name.Target? && 0 <= k < |t.LogOf(name).values|
      ensures t.LogOf(name).values[k].File? || t.LogOf(name).values[k] == s0.Live(name)
    {
      assert LogOk(s, name);
      match step {
        case Rename(w, ok) =>
          assert WriterOk(s, w);
          if ok {
            RenameLogs(s, w, t, name);
          }
        case SyncDirectory(w, ok) =>
          assert t.LogOf(name).values == s.LogOf(name).values;
        case Crash(survivor, debris) =>
          RecoveredLog(s, survivor, debris, name);
        case _ =>
          assert t.LogOf(name) == s.LogOf(name);
      }
    }
  }

  lemma {:induction false} RunInv(s0: State, steps: seq<Step>, s: State)
    requires Start(s0) && Reaches(s0, steps, s)
    ensures Inv(s) && InitialKept(s0, s)
    decreases |steps|
  {
    if steps == [] {
      StartInv(s0);
    } else {
      var last := |steps| - 1;
      var mid :| Reaches(s0, steps[..last], mid) && Enabled(mid, steps[last]) && s == Apply(mid, steps[last]);
      RunInv(s0, steps[..last], mid);
      StepInv(mid, steps[last]);
      InitialKeptByStep(s0, mid, steps[last]);
    }
  }

  /** In every run, through any failures, kills and crashes, a target holds what it held at
      the start or the complete bytes of a writer of that target that reached its rename. */
  lemma {:induction false} TargetNeverTorn(s0: State, steps: seq<Step>, s: State, target: string)
    requires Start(s0) && Reaches(s0, steps, s)
    ensures var e := s.Live(Target(target));
      || e == s0.Live(Target(target))
      || (e.File? && e.writer < |s.writers|
          && s.writers[e.writer].target == target
          && s.writers[e.writer].rank.Some?
          && s.writers[e.writer].content == s.writers[e.writer].bytes)
  {
    RunInv(s0, steps, s);
    var name := Target(target);
    assert LogOk(s, name);
    var e := s.LogOf(name).values[|s.LogOf(name).values| - 1];
    if e.File? {
      assert WriterOk(s, e.writer);
    }
  }

  /** A writer told `NotPersisted` never changed any target, now or after any crash still to come. */
  lemma {:induction false} NotPersistedNeverVisible(s0: State, steps: seq<Step>, s: State, w: nat, name: Name)
    requires Start(s0) && Reaches(s0, steps, s)
    requires At(s, w, Done(NotPersisted)) && name.Target?
    ensures File(w) !in s.LogOf(name).values
  {
    RunInv(s0, steps, s);
    assert WriterOk(s, w) && LogOk(s, name);
  }

  /** A writer told that only the directory sync failed did land. */
  lemma {:induction false} SyncFailedStillLanded(s0: State, steps: seq<Step>, s: State, w: nat)
    requires Start(s0) && Reaches(s0, steps, s)
    requires At(s, w, Done(RenameSucceededSyncFailed))
    ensures s.writers[w].rank.Some? && s.writers[w].content == s.writers[w].bytes
  {
    RunInv(s0, steps, s);
    assert WriterOk(s, w);
  }

  /** What `Ok` promises: the target holds this writer's bytes or those of a later rename. */
  ghost predicate Durable(s: State, w: nat)
    requires w < |s.writers|
  {
    var e := s.Live(s.writers[w].TargetFile());
    && e.File? && e.writer < |s.writers|
    && s.writers[w].rank.Some? && s.writers[e.writer].rank.Some?
    && s.writers[e.writer].target == s.writers[w].target
    && s.writers[e.writer].rank.value >= s.writers[w].rank.value
    && s.writers[e.writer].content == s.writers[e.writer].bytes
  }

  /** On Unix the promise holds in every later state of every run, crashes included. */
  lemma OkIsDurable(s0: State, steps: seq<Step>, s: State, w: nat)
    requires Start(s0) && s0.unix && Reaches(s0, steps, s)
    requires At(s, w, Done(ReturnedOk))
    ensures Durable(s, w)
  {
    RunInv(s0, steps, s);
    var target := s.writers[w].TargetFile();
    assert WriterOk(s, w) && DurableOk(s, w) && LogOk(s, target);
    LiveRank(s, target);
    assert WriterOk(s, s.Live(target).writer);
  }

  /** No step of one writer removes or moves a file another running writer still needs:
      what a writer removes is its own or a dead process's, what it renames is its own, complete. */
  lemma {:induction false} TempFilesAreNotStolen(s0: State, steps: seq<Step>, s: State, w: nat)
    requires Start(s0) && Reaches(s0, steps, s)
    requires w < |s.writers|
    ensures s.writers[w].phase == Failed && s.Live(s.writers[w].TempFile()).File? ==>
              var owner := s.Live(s.writers[w].TempFile()).writer;
              owner < |s.writers| && (owner == w || !Active(s.writers[owner].phase))
    ensures s.writers[w].phase == Synced ==>
              s.Live(s.writers[w].TempFile()) == File(w) && s.writers[w].content == s.writers[w].bytes
  {
    RunInv(s0, steps, s);
    var temp := s.writers[w].TempFile();
    assert WriterOk(s, w) && LogOk(s, temp);
    if s.writers[w].phase == Failed && s.Live(temp).File? {
      var owner := s.Live(temp).writer;
      assert TempEntryOk(s, temp, s.LogOf(temp).values[|s.LogOf(temp).values| - 1]);
      if owner != w && Active(s.writers[owner].phase) {
        OthersTempDiffers(s, owner, w);
      }
    }
  }

  lemma ReachesOneMore(s0: State, steps: seq<Step>, s: State, step: Step)
    requires Reaches(s0, steps, s) && Enabled(s, step)
    ensures Reaches(s0, steps + [step], Apply(s, step))
  {
    assert (steps + [step])[..|steps|] == steps;
  }

  /** The whole of one successful call by process 1, the only one, in an empty directory. */
  function LoneWrite(target: string, bytes: Bytes): (steps: seq<Step>) {
    [Spawn(1), Begin(1, target, target, bytes), Open(0, true), Flush(0, true), SyncData(0, true), Rename(0, true),
     SyncDirectory(0, true)]
  }

  function EmptyDirectory(unix: bool): State {
    State(unix, map[], [], map[], 0)
  }

  lemma {:induction false} NextOf(s0: State, plan: seq<Step>, n: nat, s: State) returns (t: State)
    requires n < |plan| && Reaches(s0, plan[..n], s) && Enabled(s, plan[n])
    ensures Reaches(s0, plan[..n + 1], t) && t == Apply(s, plan[n])
  {
    ReachesOneMore(s0, plan[..n], s, plan[n]);
    assert plan[..n] + [plan[n]] == plan[..n + 1];
    t := Apply(s, plan[n]);
  }

  lemma LoneWriteBegins(target: string, bytes: Bytes) returns (s: State)
    ensures Reaches(EmptyDirectory(false), LoneWrite(target, bytes)[..2], s)
    ensures s == State(false, map[], [Writer(1, 0, target, target, bytes, Prepared, [], None)], map[1 := 1], 0)
  {
    var plan := LoneWrite(target, bytes);
    s := EmptyDirectory(false);
    s := NextOf(EmptyDirectory(false), plan, 0, s);
    s := NextOf(EmptyDirectory(false), plan, 1, s);
  }

  lemma LoneWriteOpens(target: string, bytes: Bytes) returns (s: State)
    ensures Reaches(EmptyDirectory(false), LoneWrite(target, bytes)[..3], s)
    ensures s == State(false, map[Temp(target, 1, 0) := Log([Absent, File(0)], 0)],
                       [Writer(1, 0, target, target, bytes, Opened, [], None)], map[1 := 1], 0)
  {
    s := LoneWriteBegins(target, bytes);
    s := NextOf(EmptyDirectory(false), LoneWrite(target, bytes), 2, s);
    assert [Absent] + [File(0)] == [Absent, File(0)];
    assert s.writers == [Writer(1, 0, target, target, bytes, Opened, [], None)];
  }

  /** The middle of such a plan, whatever the first writer's file is called. */
  lemma LoneSyncs(plan: seq<Step>, logs: map<Name, Log>, x: Writer, s: State) returns (t: State)
    requires |plan| > 4 && plan[3] == Flush(0, true) && plan[4] == SyncData(0, true)
    requires s == State(false, logs, [x], map[1 := 1], 0) && x.phase == Opened
    requires Reaches(EmptyDirectory(false), plan[..3], s)
    ensures Reaches(EmptyDirectory(false), plan[..5], t)
    ensures t == State(false, logs, [x.(phase := Synced, content := x.bytes)], map[1 := 1], 0)
  {
    t := NextOf(EmptyDirectory(false), plan, 3, s);
    assert t == State(false, logs, [x.(phase := Written, content := x.bytes)], map[1 := 1], 0);
    t := NextOf(EmptyDirectory(false), plan, 4, t);
  }

  lemma LoneWriteSyncs(target: string, bytes: Bytes) returns (s: State)
    ensures Reaches(EmptyDirectory(false), LoneWrite(target, bytes)[..5], s)
    ensures s == State(false, map[Temp(target, 1, 0) := Log([Absent, File(0)], 0)],
                       [Writer(1, 0, target, target, bytes, Synced, bytes, None)], map[1 := 1], 0)
  {
    s := LoneWriteOpens(target, bytes);
    s := LoneSyncs(LoneWrite(target, bytes), s.logs, s.writers[0], s);
  }

  /** The first rename of all. */
  lemma FirstRename(s: State, x: Writer)
    requires s.writers == [x] && x.phase == Synced && s.nextRank == 0
    requires s.LogOf(x.TargetFile()) == Log([Absent], 0) && s.LogOf(x.TempFile()) == Log([Absent, File(0)], 0)
    ensures Enabled(s, Rename(0, true))
    ensures var t := Apply(s, Rename(0, true));
      && t.unix == s.unix && t.LogOf(x.TargetFile()) == Log([Absent, File(0)], 0)
      && t.writers == [x.(phase := Landed, rank := Some(0))]
  {
    assert [Absent] + [File(0)] == [Absent, File(0)];
  }

  /** The end of such a plan: only a rename puts anything in the target's log. */
  lemma LoneLands(plan: seq<Step>, x: Writer, s: State) returns (t: State)
    requires |plan| == 7 && plan[5] == Rename(0, true) && plan[6] == SyncDirectory(0, true)
    requires !s.unix && s.writers == [x] && x.phase == Synced && s.nextRank == 0
    requires s.LogOf(x.TargetFile()) == Log([Absent], 0) && s.LogOf(x.TempFile()) == Log([Absent, File(0)], 0)
    requires Reaches(EmptyDirectory(false), plan[..5], s)
    ensures Reaches(EmptyDirectory(false), plan, t)
    ensures t.LogOf(x.TargetFile()) == Log([Absent, File(0)], 0)
    ensures t.writers == [x.(phase := Done(ReturnedOk), rank := Some(0))]
  {
    FirstRename(s, x);
    t := NextOf(EmptyDirectory(false), plan, 5, s);
    t := NextOf(EmptyDirectory(false), plan, 6, t);
    assert plan[..7] == plan;
  }

  lemma LoneWriteReturnsOk(target: string, bytes: Bytes) returns (s: State)
    ensures Reaches(EmptyDirectory(false), LoneWrite(target, bytes), s) && At(s, 0, Done(ReturnedOk))
    ensures s.LogOf(Target(target)) == Log([Absent, File(0)], 0)
    ensures s.writers == [Writer(1, 0, target, target, bytes, Done(ReturnedOk), bytes, Some(0))]
  {
    s := LoneWriteSyncs(target, bytes);
    s := LoneLands(LoneWrite(target, bytes), s.writers[0], s);
  }

  /** Where the directory is never synced, a crash after `Ok` can lose the file altogether. */
  lemma {:induction false} OkIsNotDurableWithoutDirectorySync(target: string, bytes: Bytes)
    returns (steps: seq<Step>, s: State)
    ensures Start(EmptyDirectory(false)) && Reaches(EmptyDirectory(false), steps, s)
    ensures At(s, 0, Done(ReturnedOk)) && s.Live(Target(target)) == Absent && !Durable(s, 0)
  {
    var s0, name := EmptyDirectory(false), Target(target);
    steps := LoneWrite(target, bytes);
    s := LoneWriteReturnsOk(target, bytes);
    var survivor := (n: Name) => if n == name || |s.LogOf(n).values| == 0 then 0 else |s.LogOf(n).values| - 1;
    RunInv(s0, steps, s);
    assert Possible(s, survivor) by {
      forall n | n in s.logs ensures s.logs[n].floor <= survivor(n) < |s.logs[n].values| {
        assert LogOk(s, n);
      }
    }
    var debris := (w: nat) => [];
    ReachesOneMore(s0, steps, s, Crash(survivor, debris));
    RecoveredLog(s, survivor, debris, name);
    RecoveredWriters(s, survivor, debris);
    steps, s := steps + [Crash(survivor, debris)], Apply(s, Crash(survivor, debris));
  }

  // ---- The call itself

  /** Steps taken by anyone but writer `w`: other calls, processes starting or dying, the machine crashing. */
  predicate Foreign(step: Step, w: nat) {
    step.Spawn? || step.Exit? || step.Begin? || step.BeginFails? || step.Crash? || step.w != w
  }

  /** What other steps can do to writer `w`: nothing, its temporary name included, or kill it. */
  ghost predicate Untouched(s: State, t: State, w: nat)
    requires w < |s.writers|
  {
    && t.unix == s.unix && |s.writers| <= |t.writers|
    && ((t.writers[w] == s.writers[w] && t.Live(s.writers[w].TempFile()) == s.Live(s.writers[w].TempFile()))
        || t.writers[w] == s.writers[w].(phase := Dead, content := t.writers[w].content))
  }

  /** No two running writers have the same temporary name. */
  lemma TempsApart(s: State, v: nat, w: nat)
    requires Separate(s) && v < |s.writers| && w < |s.writers| && v != w
    requires Active(s.writers[v].phase) && Active(s.writers[w].phase)
    ensures s.writers[v].TempFile() != s.writers[w].TempFile()
  {
    var i, j := if v < w then v else w, if v < w then w else v;
    assert (s.writers[i].pid, s.writers[i].sequence) != (s.writers[j].pid, s.writers[j].sequence);
  }

  lemma ForeignStepKeepsTemp(s: State, step: Step, w: nat)
    requires Separate(s) && Enabled(s, step) && Foreign(step, w) && w < |s.writers| && Active(s.writers[w].phase)
    requires !step.Crash?
    ensures Apply(s, step).Live(s.writers[w].TempFile()) == s.Live(s.writers[w].TempFile())
  {
    if step.Open? || step.Rename? || step.Remove? {
      TempsApart(s, step.w, w);
    }
  }

  lemma ForeignStepLeavesWriter(s: State, step: Step, w: nat)
    requires Separate(s) && Enabled(s, step) && Foreign(step, w) && w < |s.writers|
    requires Active(s.writers[w].phase) || At(s, w, Dead)
    ensures Untouched(s, Apply(s, step), w)
    ensures Active(Apply(s, step).writers[w].phase) || At(Apply(s, step), w, Dead)
  {
    if step.Crash? {
      RecoveredWriters(s, step.survivor, step.debris);
    } else if Active(s.writers[w].phase) {
      ForeignStepKeepsTemp(s, step, w);
    }
  }

  /** One call: who makes it, when it asks first, and whether its temporary name is free. */
  datatype Request = Request(pid: nat, sequence: nat, stem: string, target: string, bytes: Bytes,
                             from: nat, free: bool)
  {
    function TempFile(): Name {
      Temp(stem, pid, sequence)
    }

    predicate Is(x: Writer) {
      x.pid == pid && x.sequence == sequence && x.stem == stem && x.target == target && x.bytes == bytes
    }
  }

  /** The calls one write makes on its own file, up to the last. */
  predicate OnFile(step: Step) {
    step.Open? || step.WriteSome? || step.Flush? || step.SyncData? || step.Rename? || step.SyncDirectory?
  }

  /** A process may die whenever it lives, and all its unfinished writes with it. */
  lemma ProcessesDie(s: State, pid: nat, w: nat)
    requires pid in s.processes && w < |s.writers| && s.writers[w].pid == pid && Active(s.writers[w].phase)
    ensures Enabled(s, Exit(pid))
    ensures pid !in Apply(s, Exit(pid)).processes && At(Apply(s, Exit(pid)), w, Dead)
    ensures Apply(s, Exit(pid)).logs == s.logs
  {
  }

  predicate Own(step: Step, w: nat) {
    OnFile(step) && step.w == w
  }

  function PhaseAfter(step: Step): Phase
    requires OnFile(step)
  {
    match step
    case Open(_, ok) => if ok then Opened else Failed
    case WriteSome(_, _) => Opened
    case Flush(_, ok) => if ok then Written else Failed
    case SyncData(_, ok) => if ok then Synced else Failed
    case Rename(_, ok) => if ok then Landed else Failed
    case SyncDirectory(_, ok) => Done(if ok then ReturnedOk else RenameSucceededSyncFailed)
  }

  /** A writer's own step changes its phase, and not what was asked of it. */
  lemma OwnStep(s: State, step: Step, w: nat, r: Request)
    requires Enabled(s, step) && Own(step, w) && r.Is(s.writers[w])
    ensures At(Apply(s, step), w, PhaseAfter(step)) && r.Is(Apply(s, step).writers[w])
  {
  }

  /** A directory shared by all the processes of one machine, with everything that has happened to it. */
  class Directory {
    const works: nat -> bool   // whether the nth call made to the system here works
    const alone: bool          // nobody else does anything
    var asked: nat
    var state: State
    ghost const initial: State
    ghost var history: seq<Step>

    ghost predicate Valid()
      reads this
    {
      Start(initial) && Reaches(initial, history, state)
    }

    constructor (unix: bool, works: nat -> bool, alone: bool)
      ensures Valid() && state == EmptyDirectory(unix) && history == []
      ensures this.works == works && this.alone == alone
    {
      this.works, this.alone, asked := works, alone, 0;
      state := EmptyDirectory(unix);
      initial := EmptyDirectory(unix);
      history := [];
    }

    method Ask() returns (ok: bool)
      modifies `asked
      ensures asked == old(asked) + 1 && ok == works(old(asked))
    {
      ok := works(asked);
      asked := asked + 1;
    }

    ghost predicate AllWork(from: nat, to: nat) {
      forall n: nat :: from <= n < to ==> works(n)
    }

    method Take(step: Step)
      requires Valid() && Enabled(state, step)
      modifies `state, `history
      ensures Valid() && state == Apply(old(state), step) && history == old(history) + [step]
    {
      ReachesOneMore(initial, history, state, step);
      state := Apply(state, step);
      history := history + [step];
    }

    /** Any number of steps of anyone else, in between two calls of writer `w`. */
    method OthersRun(w: nat)
      requires Valid() && w < |state.writers| && Active(state.writers[w].phase)
      modifies `state, `history
      ensures Valid() && old(history) <= history && Untouched(old(state), state, w)
      ensures Active(state.writers[w].phase) || At(state, w, Dead)
      ensures alone ==> state == old(state)
    {
      var rounds: int := *;
      while rounds > 0 && !alone
        invariant Valid() && old(history) <= history && w < |state.writers| && Untouched(old(state), state, w)
        invariant Active(state.writers[w].phase) || At(state, w, Dead)
        invariant alone ==> state == old(state)
      {
        var step: Step := *;
        if Foreign(step, w) && Enabled(state, step) {
          RunInv(initial, history, state);
          ForeignStepLeavesWriter(state, step, w);
          Take(step);
        }
        rounds := rounds - 1;
      }
    }

    /** What the calls made so far did, as far as the phase tells. */
    ghost predicate Going(phase: Phase, r: Request)
      reads `asked
    {
      && r.from < asked
      && match phase
         case Prepared => asked == r.from + 1 && works(r.from)
         case Opened | Written | Synced | Landed => r.free && AllWork(r.from, asked)
         case Failed => LastFailed(r, asked)
         case Dead => !alone
         case Done(_) => true
    }

    /** The last of the calls failed, and no other; opening the temporary also fails if its name is taken. */
    ghost predicate LastFailed(r: Request, to: nat) {
      r.from + 2 <= to && AllWork(r.from, to - 1) && (!works(to - 1) || (!r.free && to == r.from + 2))
    }

    /** Writer `w` is the call, still running or killed. */
    ghost predicate Call(w: nat, r: Request)
      reads this
    {
      && Valid() && w < |state.writers| && r.Is(state.writers[w]) && Going(state.writers[w].phase, r)
      && (Active(state.writers[w].phase) || At(state, w, Dead))
      && (At(state, w, Prepared) ==> (r.free <==> state.Live(r.TempFile()) == Absent))
    }

    /** A step of writer `w` followed by any steps of the others. */
    method TakeOwn(step: Step, w: nat, ghost r: Request, next: Phase)
      requires Valid() && Enabled(state, step) && Active(next) && Going(next, r)
      requires At(Apply(state, step), w, next) && r.Is(Apply(state, step).writers[w])
      requires next == Prepared ==> (r.free <==> Apply(state, step).Live(r.TempFile()) == Absent)
      modifies `state, `history
      ensures Call(w, r) && old(history) + [step] <= history && state.unix == old(state).unix
      ensures At(state, w, next) || At(state, w, Dead)
    {
      Take(step);
      OthersRun(w);
    }

    /** One of writer `w`'s own steps but the last. */
    method TakeNext(step: Step, w: nat, ghost r: Request)
      requires Valid() && Enabled(state, step) && Own(step, w) && !step.SyncDirectory?
      requires r.Is(state.writers[w]) && Going(PhaseAfter(step), r)
      modifies `state, `history
      ensures Call(w, r) && old(history) + [step] <= history && state.unix == old(state).unix
      ensures At(state, w, PhaseAfter(step)) || At(state, w, Dead)
    {
      OwnStep(state, step, w, r);
      TakeOwn(step, w, r, PhaseAfter(step));
    }

    method CreateTemporary(w: nat, ghost r: Request)
      requires Call(w, r) && At(state, w, Prepared)
      modifies this
      ensures Call(w, r) && old(history) <= history && state.unix == old(state).unix
      ensures state.writers[w].phase in {Opened, Failed, Dead}
    {
      var ok := Ask();
      ok := ok && state.Live(state.writers[w].TempFile()) == Absent;
      TakeNext(Open(w, ok), w, r);
    }

    method WriteOne(w: nat, n: nat, ghost r: Request)
      requires Call(w, r) && At(state, w, Opened) && n <= |r.bytes|
      modifies this
      ensures Call(w, r) && old(history) <= history && state.unix == old(state).unix
      ensures state.writers[w].phase in {Opened, Failed, Dead}
    {
      TakeNext(WriteSome(w, n), w, r);
      if state.writers[w].phase == Opened {
        var ok := Ask();
        if !ok {
          TakeNext(Flush(w, false), w, r);
        }
      }
    }

    method WriteAll(w: nat, bytes: Bytes, ghost r: Request)
      requires Call(w, r) && At(state, w, Opened) && r.bytes == bytes
      modifies this
      ensures Call(w, r) && old(history) <= history && state.unix == old(state).unix
      ensures state.writers[w].phase in {Opened, Failed, Dead}
    {
      var written: nat := 0;
      while state.writers[w].phase == Opened && written < |bytes|
        invariant written <= |bytes|
        invariant Call(w, r) && old(history) <= history && state.unix == old(state).unix
        invariant state.writers[w].phase in {Opened, Failed, Dead}
        decreases |bytes| - written
      {
        var more: int := *;
        written := if 0 <= more && written + more + 1 < |bytes| then written + more + 1 else |bytes|;
        WriteOne(w, written, r);
      }
    }

    method FlushAll(w: nat, ghost r: Request)
      requires Call(w, r) && At(state, w, Opened)
      modifies this
      ensures Call(w, r) && old(history) <= history && state.unix == old(state).unix
      ensures state.writers[w].phase in {Written, Failed, Dead}
    {
      var ok := Ask();
      TakeNext(Flush(w, ok), w, r);
    }

    method SyncAll(w: nat, ghost r: Request)
      requires Call(w, r) && At(state, w, Written)
      modifies this
      ensures Call(w, r) && old(history) <= history && state.unix == old(state).unix
      ensures state.writers[w].phase in {Synced, Failed, Dead}
    {
      var ok := Ask();
      TakeNext(SyncData(w, ok), w, r);
    }

    lemma TempIsThere(w: nat)
      requires Valid() && At(state, w, Synced)
      ensures state.Live(state.writers[w].TempFile()) != Absent
    {
      RunInv(initial, history, state);
      assert WriterOk(state, w);
    }

    method RenameOver(w: nat, ghost r: Request)
      requires Call(w, r) && At(state, w, Synced)
      modifies this
      ensures Call(w, r) && old(history) <= history && state.unix == old(state).unix
      ensures state.writers[w].phase in {Landed, Failed, Dead}
    {
      var ok := Ask();
      TempIsThere(w);
      TakeNext(Rename(w, ok), w, r);
    }

    /** What the caller learns from the result, or that its process did not live to see one. */
    ghost predicate Reported(w: nat, target: string, bytes: Bytes, result: Option<Outcome>)
      reads this
    {
      && w < |state.writers| && state.writers[w].target == target && state.writers[w].bytes == bytes
      && (result.None? ==> At(state, w, Dead))
      && (result.Some? ==> At(state, w, Done(result.value)))
      && (result == Some(ReturnedOk) && state.unix ==> Durable(state, w))
      && (result.Some? && result != Some(NotPersisted) ==>
            state.writers[w].rank.Some? && state.writers[w].content == bytes)
      && (result == Some(NotPersisted) ==> forall name: Name :: name.Target? ==> File(w) !in state.LogOf(name).values)
    }

    /** Which of the calls to the system make for which result.  Unless creating the directory failed,
        the last call before `NotPersisted` is the one that removes the temporary. */
    ghost predicate Explained(r: Request, result: Option<Outcome>)
      reads `asked, `state
    {
      match result
      case None => !alone
      case Some(ReturnedOk) => r.free && AllWork(r.from, asked)
      case Some(RenameSucceededSyncFailed) =>
        state.unix && r.free && r.from < asked && AllWork(r.from, asked - 1) && !works(asked - 1)
      case Some(NotPersisted) =>
        || (asked == r.from + 1 && !works(r.from))
        || (r.from + 3 <= asked && LastFailed(r, asked - 1)
            && (works(asked - 1) ==> state.Live(r.TempFile()) == Absent))
    }

    lemma Reports(w: nat, target: string, bytes: Bytes, result: Option<Outcome>)
      requires Valid()
      requires w < |state.writers| && state.writers[w].target == target && state.writers[w].bytes == bytes
      requires result.None? ==> At(state, w, Dead)
      requires result.Some? ==> At(state, w, Done(result.value))
      ensures Reported(w, target, bytes, result)
    {
      RunInv(initial, history, state);
      assert WriterOk(state, w);
      match result {
        case Some(ReturnedOk) => if state.unix { OkIsDurable(initial, history, state, w); }
        case Some(RenameSucceededSyncFailed) => SyncFailedStillLanded(initial, history, state, w);
        case Some(NotPersisted) =>
          forall name: Name | name.Target? ensures File(w) !in state.LogOf(name).values {
            NotPersistedNeverVisible(initial, history, state, w, name);
          }
        case None =>
      }
    }

    method Refuse(pid: nat, target: string, bytes: Bytes)
      requires Valid() && pid in state.processes
      modifies `state, `history
      ensures Valid() && history == old(history) + [BeginFails(pid, target, bytes)]
      ensures |old(state).writers| < |state.writers|
              && Reported(|old(state).writers|, target, bytes, Some(NotPersisted))
    {
      Take(BeginFails(pid, target, bytes));
      Reports(|old(state).writers|, target, bytes, Some(NotPersisted));
    }

    method SyncParent(w: nat, ghost r: Request) returns (result: Option<Outcome>)
      requires Call(w, r) && At(state, w, Landed)
      modifies this
      ensures Valid() && old(history) < history && Reported(w, r.target, r.bytes, result) && Explained(r, result)
    {
      var ok := true;
      if state.unix {
        ok := Ask();
      }
      OwnStep(state, SyncDirectory(w, ok), w, r);
      Take(SyncDirectory(w, ok));
      result := Some(if ok then ReturnedOk else RenameSucceededSyncFailed);
      Reports(w, r.target, r.bytes, result);
    }

    lemma RemovedIsGone(s: State, w: nat, ok: bool)
      requires At(s, w, Failed)
      ensures var t := Apply(s, Remove(w, ok));
        && At(t, w, Done(NotPersisted)) && t.writers[w] == s.writers[w].(phase := Done(NotPersisted))
        && (ok ==> t.Live(s.writers[w].TempFile()) == Absent)
    {
    }

    method RemoveTemporary(w: nat, ghost r: Request)
      requires Call(w, r) && At(state, w, Failed)
      modifies this
      ensures Valid() && old(history) < history
      ensures Reported(w, r.target, r.bytes, Some(NotPersisted)) && Explained(r, Some(NotPersisted))
    {
      var ok := Ask();
      RemovedIsGone(state, w, ok);
      Take(Remove(w, ok));
      Reports(w, r.target, r.bytes, Some(NotPersisted));
    }

    /** Creates, fills and syncs the temporary file. */
    method WriteTemporary(w: nat, bytes: Bytes, ghost r: Request)
      requires Call(w, r) && state.writers[w].phase in {Prepared, Dead} && r.bytes == bytes
      modifies this
      ensures Call(w, r) && old(history) <= history && state.unix == old(state).unix
      ensures state.writers[w].phase in {Synced, Failed, Dead}
    {
      if state.writers[w].phase == Prepared {
        CreateTemporary(w, r);
      }
      if state.writers[w].phase == Opened {
        WriteAll(w, bytes, r);
      }
      if state.writers[w].phase == Opened {
        FlushAll(w, r);
      }
      if state.writers[w].phase == Written {
        SyncAll(w, r);
      }
    }

    /** After the rename or whatever prevented it. */
    method Finish(w: nat, ghost r: Request) returns (result: Option<Outcome>)
      requires Call(w, r) && state.writers[w].phase in {Landed, Failed, Dead}
      modifies this
      ensures Valid() && old(history) <= history && Reported(w, r.target, r.bytes, result) && Explained(r, result)
    {
      if state.writers[w].phase == Landed {
        result := SyncParent(w, r);
      } else if state.writers[w].phase == Failed {
        RemoveTemporary(w, r);
        result := Some(NotPersisted);
      } else {
        Reports(w, r.target, r.bytes, None);
        result := None;
      }
    }

    /** From the choice of the temporary name on. */
    method Proceed(w: nat, bytes: Bytes, ghost r: Request) returns (result: Option<Outcome>)
      requires Call(w, r) && state.writers[w].phase in {Prepared, Dead} && r.bytes == bytes
      modifies this
      ensures Valid() && old(history) <= history && Reported(w, r.target, r.bytes, result) && Explained(r, result)
    {
      WriteTemporary(w, bytes, r);
      if state.writers[w].phase == Synced {
        RenameOver(w, r);
      }
      result := Finish(w, r);
    }

    ghost function Requested(pid: nat, stem: string, target: string, bytes: Bytes): Request
      requires pid in state.processes
      reads `state, `asked
    {
      var sequence := state.processes[pid];
      Request(pid, sequence, stem, target, bytes, asked, state.Live(Temp(stem, pid, sequence)) == Absent)
    }

    /** The result is what the calls to the system make it: with the temporary name free and every call
        working it is `Ok` unless the process is killed. */
    method AtomicWriteBytes(pid: nat, stem: string, target: string, bytes: Bytes)
      returns (w: nat, result: Option<Outcome>)
      requires Valid() && pid in state.processes && state.processes[pid] < SEQUENCE_LIMIT
      modifies this
      ensures Valid() && old(history) < history && w == |old(state).writers|
      ensures Reported(w, target, bytes, result)
      ensures Explained(old(Requested(pid, stem, target, bytes)), result)
    {
      w := |state.writers|;
      ghost var r := Requested(pid, stem, target, bytes);
      var created := Ask();
      if !created {
        Refuse(pid, target, bytes);
        return w, Some(NotPersisted);
      }
      TakeOwn(Begin(pid, stem, target, bytes), w, r, Prepared);
      result := Proceed(w, bytes, r);
    }
  }
}
