/** The display lock shared by validators and launchers of one user.

    The lock belongs to an open-file description, not to a process: it is held while any process
    has a descriptor of that description.  The launched program inherits the descriptor, so the
    display stays reserved until it and its acquirer have both gone.  Processes may stop, crash
    or be killed at any step.  Process numbers here are never reused. */
module ExecutionLock {
  import opened Wrappers

  datatype Stage =
    | Idle
    | Opened(description: nat)                     // open, lock not yet asked for
    | Holding(description: nat, launched: bool)    // lock held; whether its one child was started

  datatype Process =
    | Acquirer(stage: Stage)
    | Child(description: nat)        // the program, started with the lock's descriptor
    | Descendant(description: nat)   // started by the program, with that descriptor still open
  {
    function Description(): Option<nat> {
      if Acquirer? then (if stage.Idle? then None else Some(stage.description)) else Some(description)
    }

    predicate Holds(d: nat) {
      !(Acquirer? && !stage.Holding?) && Description() == Some(d)
    }
  }

  /** `holders[d]` are the processes with description `d` open. */
  datatype State = State(holders: seq<set<nat>>, locked: Option<nat>, processes: map<nat, Process>, next: nat)
  {
    /** Process `p` closes description `d`; the last one out releases the lock. */
    function Drop(d: nat, p: nat): State
      requires d < |holders|
    {
      var left := holders[d] - {p};
      this.(holders := holders[d := left], locked := if locked == Some(d) && left == {} then None else locked)
    }

    function Start(process: Process, d: nat): State
      requires d < |holders|
    {
      this.(processes := processes[next := process], holders := holders[d := holders[d] + {next}], next := next + 1)
    }

    function SetStage(p: nat, stage: Stage): State {
      this.(processes := processes[p := Acquirer(stage)])
    }
  }

  datatype Step =
    | Arrive
    | Open(p: nat)
    | TryLock(p: nat)         // flock(LOCK_EX | LOCK_NB); closes on failure
    | OpenExclusive(p: nat)   // CreateFile with no sharing
    | Spawn(p: nat)
    | PassOn(c: nat)
    | Close(p: nat)
    | Die(p: nat)

  predicate AcquirerAt(s: State, p: nat) {
    p in s.processes && s.processes[p].Acquirer?
  }

  predicate DescriptionsExist(s: State) {
    forall p | p in s.processes :: s.processes[p].Description().Some? ==>
      s.processes[p].Description().value < |s.holders|
  }

  predicate Enabled(s: State, step: Step) {
    match step
    case Arrive => true
    case Open(p) => AcquirerAt(s, p) && s.processes[p].stage.Idle?
    case TryLock(p) => AcquirerAt(s, p) && s.processes[p].stage.Opened?
    case OpenExclusive(p) => AcquirerAt(s, p) && s.processes[p].stage.Idle?
    case Spawn(p) => AcquirerAt(s, p) && s.processes[p].stage.Holding? && !s.processes[p].stage.launched
    case PassOn(c) => c in s.processes && !s.processes[c].Acquirer?
    case Close(p) => AcquirerAt(s, p) && !s.processes[p].stage.Idle?
    case Die(p) => p in s.processes
  }

  function Acquire(s: State, p: nat): State {
    if s.locked.Some? then s
    else s.(holders := s.holders + [{p}], locked := Some(|s.holders|)).SetStage(p, Holding(|s.holders|, false))
  }

  function Lock(s: State, p: nat, d: nat): State
    requires d < |s.holders|
  {
    if s.locked.Some? then s.Drop(d, p).SetStage(p, Idle)
    else s.(locked := Some(d)).SetStage(p, Holding(d, false))
  }

  function Remove(s: State, p: nat): State
    requires p in s.processes && DescriptionsExist(s)
  {
    var description := s.processes[p].Description();
    var gone := if description.Some? then s.Drop(description.value, p) else s;
    gone.(processes := gone.processes - {p})
  }

  function Apply(s: State, step: Step): State
    requires DescriptionsExist(s) && Enabled(s, step)
  {
    match step
    case Arrive => s.(processes := s.processes[s.next := Acquirer(Idle)], next := s.next + 1)
    case Open(p) => s.(holders := s.holders + [{p}]).SetStage(p, Opened(|s.holders|))
    case TryLock(p) => Lock(s, p, s.processes[p].stage.description)
    case OpenExclusive(p) => Acquire(s, p)
    case Spawn(p) =>
      var d := s.processes[p].stage.description;
      s.Start(Child(d), d).SetStage(p, Holding(d, true))
    case PassOn(c) => s.Start(Descendant(s.processes[c].description), s.processes[c].description)
    case Close(p) => s.Drop(s.processes[p].stage.description, p).SetStage(p, Idle)
    case Die(p) => Remove(s, p)
  }

  // ---- What every step keeps

  ghost predicate ProcessOk(s: State, p: nat)
    requires p in s.processes
  {
    var process := s.processes[p];
    var description := process.Description();
    && p < s.next
    && (description.Some? ==>
          && description.value < |s.holders| && p in s.holders[description.value]
          && (process.Holds(description.value) ==> s.locked == Some(description.value))
          && (!process.Holds(description.value) ==> s.locked != Some(description.value)))
  }

  ghost predicate HoldersOk(s: State, d: nat)
    requires d < |s.holders|
  {
    && (forall p :: p in s.holders[d] ==> p in s.processes && s.processes[p].Description() == Some(d))
    && (s.locked == Some(d) ==> s.holders[d] != {})
  }

  ghost predicate PairOk(s: State, p: nat, q: nat)
    requires p in s.processes && q in s.processes
  {
    var (x, y) := (s.processes[p], s.processes[q]);
    && (x.Acquirer? && y.Acquirer? && x.Description().Some? && x.Description() == y.Description() ==> p == q)
    && (x.Child? && y.Child? && x.description == y.description ==> p == q)
    && (x.Acquirer? && x.stage.Holding? && y.Child? && x.stage.description == y.description ==> x.stage.launched)
  }

  ghost predicate Inv(s: State) {
    && (forall p :: p in s.processes ==> ProcessOk(s, p))
    && (forall d: nat :: d < |s.holders| ==> HoldersOk(s, d))
    && (forall p, q {:trigger PairOk(s, p, q)} :: p in s.processes && q in s.processes ==> PairOk(s, p, q))
    && (s.locked.Some? ==> s.locked.value < |s.holders|)
  }

  lemma InvDescriptions(s: State)
    requires Inv(s)
    ensures DescriptionsExist(s)
  {
    forall p | p in s.processes
      ensures s.processes[p].Description().Some? ==> s.processes[p].Description().value < |s.holders|
    {
      assert ProcessOk(s, p);
    }
  }

  lemma StepInv(s: State, step: Step)
    requires Inv(s) && DescriptionsExist(s) && Enabled(s, step)
    ensures Inv(Apply(s, step)) && DescriptionsExist(Apply(s, step))
  {
    var t := Apply(s, step);
    forall p | p in t.processes ensures ProcessOk(t, p) {
      StepProcess(s, step, p);
    }
    forall d: nat | d < |t.holders| ensures HoldersOk(t, d) {
      StepHolders(s, step, d);
    }
    forall p, q | p in t.processes && q in t.processes ensures PairOk(t, p, q) {
      StepPair(s, step, p, q);
    }
    InvDescriptions(t);
  }

  lemma StepProcess(s: State, step: Step, p: nat)
    requires Inv(s) && DescriptionsExist(s) && Enabled(s, step) && p in Apply(s, step).processes
    ensures ProcessOk(Apply(s, step), p)
  {
    assert p in s.processes ==> ProcessOk(s, p);
    if !step.Arrive? {
      var actor := if step.PassOn? then step.c else step.p;
      assert ProcessOk(s, actor);
      if p in s.processes {
        assert PairOk(s, actor, p) && PairOk(s, p, actor);
      }
      if s.processes[actor].Description().Some? {
        assert HoldersOk(s, s.processes[actor].Description().value);
      }
    }
  }

  lemma StepHolders(s: State, step: Step, d: nat)
    requires Inv(s) && DescriptionsExist(s) && Enabled(s, step) && d < |Apply(s, step).holders|
    ensures HoldersOk(Apply(s, step), d)
  {
    assert d < |s.holders| ==> HoldersOk(s, d);
    if !step.Arrive? {
      var actor := if step.PassOn? then step.c else step.p;
      assert ProcessOk(s, actor);
    }
    forall p | d < |s.holders| && p in s.holders[d] ensures p < s.next {
      assert ProcessOk(s, p);
    }
  }

  lemma StepPair(s: State, step: Step, p: nat, q: nat)
    requires Inv(s) && DescriptionsExist(s) && Enabled(s, step)
    requires p in Apply(s, step).processes && q in Apply(s, step).processes
    ensures PairOk(Apply(s, step), p, q)
  {
    if p in s.processes {
      assert ProcessOk(s, p);
    }
    if q in s.processes {
      assert ProcessOk(s, q);
    }
    if p in s.processes && q in s.processes {
      assert PairOk(s, p, q);
    }
    if !step.Arrive? {
      var actor := if step.PassOn? then step.c else step.p;
      assert ProcessOk(s, actor);
      if p in s.processes {
        assert PairOk(s, actor, p) && PairOk(s, p, actor);
      }
      if q in s.processes {
        assert PairOk(s, actor, q) && PairOk(s, q, actor);
      }
    }
  }

  // ---- Every run

  const EMPTY := State([], None, map[], 0)

  ghost predicate Reaches(s: State, steps: seq<Step>, t: State)
    decreases |steps|
  {
    if steps == [] then s == t
    else
      var last := |steps| - 1;
      exists mid :: Reaches(s, steps[..last], mid) && DescriptionsExist(mid) && Enabled(mid, steps[last])
                    && t == Apply(mid, steps[last])
  }

  lemma {:induction false} RunInv(s: State, steps: seq<Step>, t: State)
    requires Inv(s) && Reaches(s, steps, t)
    ensures Inv(t) && DescriptionsExist(t)
    decreases |steps|
  {
    InvDescriptions(s);
    if steps != [] {
      var last := |steps| - 1;
      var mid :| Reaches(s, steps[..last], mid) && DescriptionsExist(mid) && Enabled(mid, steps[last])
                 && t == Apply(mid, steps[last]);
      RunInv(s, steps[..last], mid);
      StepInv(mid, steps[last]);
    }
  }

  /** However validators and launchers start, crash and exit, at most one program they launched runs. */
  lemma {:induction false} AtMostOneChild(steps: seq<Step>, s: State, c: nat, d: nat)
    requires Reaches(EMPTY, steps, s)
    requires c in s.processes && s.processes[c].Child? && d in s.processes && s.processes[d].Child?
    ensures c == d
  {
    RunInv(EMPTY, steps, s);
    assert ProcessOk(s, c) && ProcessOk(s, d) && PairOk(s, c, d);
  }

  /** The lock is held exactly while its acquirer, the child, or something the child started is there. */
  lemma LockedIffHeld(steps: seq<Step>, s: State, d: nat)
    requires Reaches(EMPTY, steps, s)
    ensures s.locked == Some(d) <==> exists p :: p in s.processes && s.processes[p].Holds(d)
  {
    RunInv(EMPTY, steps, s);
    if s.locked == Some(d) {
      assert HoldersOk(s, d);
      var p :| p in s.holders[d];
      assert ProcessOk(s, p) && s.processes[p].Holds(d);
    }
    if p :| p in s.processes && s.processes[p].Holds(d) {
      assert ProcessOk(s, p);
    }
  }

  /** A new acquirer gets the lock exactly when every holder has gone. */
  lemma AcquireSucceedsIffFree(steps: seq<Step>, s: State, p: nat)
    requires Reaches(EMPTY, steps, s) && Enabled(s, OpenExclusive(p))
    ensures Acquire(s, p).processes[p].stage.Holding? <==> forall q, d :: q in s.processes ==> !s.processes[q].Holds(d)
  {
    if s.locked.Some? {
      LockedIffHeld(steps, s, s.locked.value);
    }
    forall q, d | q in s.processes && s.processes[q].Holds(d) ensures s.locked.Some? {
      LockedIffHeld(steps, s, d);
    }
  }

  /** Steps of anyone but process `p`, or its death. */
  predicate Foreign(step: Step, p: nat) {
    match step
    case Arrive => true
    case PassOn(c) => c != p
    case Die(_) => true
    case _ => step.p != p
  }

  lemma ForeignStepKeeps(s: State, step: Step, p: nat)
    requires DescriptionsExist(s) && Enabled(s, step) && Foreign(step, p) && p < s.next
    ensures s.next <= Apply(s, step).next
    ensures p in Apply(s, step).processes <==> p in s.processes && step != Die(p)
    ensures p in Apply(s, step).processes ==> Apply(s, step).processes[p] == s.processes[p]
  {
  }

  lemma ChildStepKeeps(s: State, step: Step, c: nat)
    requires DescriptionsExist(s) && Enabled(s, step) && c < s.next
    requires c in s.processes && s.processes[c].Child?
    ensures s.next <= Apply(s, step).next
    ensures c in Apply(s, step).processes ==> Apply(s, step).processes[c] == s.processes[c]
  {
  }

  lemma GoneStepKeeps(s: State, step: Step, c: nat)
    requires DescriptionsExist(s) && Enabled(s, step) && c < s.next && c !in s.processes
    ensures s.next <= Apply(s, step).next && c !in Apply(s, step).processes
  {
  }

  /** A child keeps its description for life, and its number is never given to another process. */
  lemma {:induction false} ChildUnchanged(s: State, steps: seq<Step>, t: State, c: nat)
    requires Reaches(s, steps, t) && c < s.next && c in s.processes && s.processes[c].Child?
    ensures s.next <= t.next
    ensures c in t.processes ==> t.processes[c] == s.processes[c]
    decreases |steps|
  {
    if steps != [] {
      var last := |steps| - 1;
      var mid :| Reaches(s, steps[..last], mid) && DescriptionsExist(mid) && Enabled(mid, steps[last])
                 && t == Apply(mid, steps[last]);
      ChildUnchanged(s, steps[..last], mid, c);
      if c in mid.processes {
        ChildStepKeeps(mid, steps[last], c);
      } else {
        GoneStepKeeps(mid, steps[last], c);
      }
    }
  }

  /** The lock a child inherited stays the lock for as long as the child lives, whatever happens
      to the process that acquired it. */
  lemma LockOutlivesAcquirer(before: seq<Step>, s: State, after: seq<Step>, t: State, c: nat)
    requires Reaches(EMPTY, before, s) && Reaches(s, after, t)
    requires c in s.processes && s.processes[c].Child? && c in t.processes
    ensures s.locked == Some(s.processes[c].description) && t.locked == s.locked
  {
    RunInv(EMPTY, before, s);
    RunInv(s, after, t);
    assert ProcessOk(s, c);
    ChildUnchanged(s, after, t, c);
    assert ProcessOk(t, c);
  }

  lemma ReachesOneMore(s: State, steps: seq<Step>, t: State, step: Step)
    requires Reaches(s, steps, t) && DescriptionsExist(t) && Enabled(t, step)
    ensures Reaches(s, steps + [step], Apply(t, step))
  {
    assert (steps + [step])[..|steps|] == steps;
  }

  lemma TwoArrive() returns (steps: seq<Step>, s: State)
    ensures Reaches(EMPTY, steps, s) && DescriptionsExist(s)
    ensures s == State([{0}], None, map[0 := Acquirer(Opened(0)), 1 := Acquirer(Idle)], 2)
  {
    var s1 := Apply(EMPTY, Arrive);
    assert Reaches(EMPTY, [], EMPTY);
    ReachesOneMore(EMPTY, [], EMPTY, Arrive);
    assert s1.processes == map[0 := Acquirer(Idle)];
    var s2 := Apply(s1, Arrive);
    ReachesOneMore(EMPTY, [] + [Arrive], s1, Arrive);
    assert s2.processes == map[0 := Acquirer(Idle), 1 := Acquirer(Idle)];
    s := Apply(s2, Open(0));
    ReachesOneMore(EMPTY, [] + [Arrive] + [Arrive], s2, Open(0));
    steps := [] + [Arrive] + [Arrive] + [Open(0)];
    assert s.processes == map[0 := Acquirer(Opened(0)), 1 := Acquirer(Idle)];
  }

  lemma LocksAndSpawns(s: State) returns (locked: State, spawned: State)
    requires s == State([{0}], None, map[0 := Acquirer(Opened(0)), 1 := Acquirer(Idle)], 2)
    ensures DescriptionsExist(s) && Enabled(s, TryLock(0)) && locked == Apply(s, TryLock(0))
    ensures DescriptionsExist(locked) && Enabled(locked, Spawn(0)) && spawned == Apply(locked, Spawn(0))
    ensures spawned == State([{0, 2}], Some(0),
                             map[0 := Acquirer(Holding(0, true)), 1 := Acquirer(Idle), 2 := Child(0)], 3)
  {
    locked := Apply(s, TryLock(0));
    assert locked.processes == map[0 := Acquirer(Holding(0, false)), 1 := Acquirer(Idle)];
    spawned := Apply(locked, Spawn(0));
    assert spawned.processes == map[0 := Acquirer(Holding(0, true)), 1 := Acquirer(Idle), 2 := Child(0)];
    assert {0} + {2} == {0, 2} && spawned.holders == [{0, 2}] && spawned.next == 3;
  }

  lemma AcquirerDies(s: State) returns (t: State)
    requires s == State([{0, 2}], Some(0), map[0 := Acquirer(Holding(0, true)), 1 := Acquirer(Idle), 2 := Child(0)], 3)
    ensures DescriptionsExist(s) && Enabled(s, Die(0)) && t == Apply(s, Die(0)) && DescriptionsExist(t)
    ensures t == State([{2}], Some(0), map[1 := Acquirer(Idle), 2 := Child(0)], 3)
  {
    t := Apply(s, Die(0));
    assert {0, 2} - {0} == {2};
    assert t.processes == map[1 := Acquirer(Idle), 2 := Child(0)];
  }

  /** Two validators arrive; the first takes the lock, starts its child and dies. */
  lemma OrphanHolds() returns (steps: seq<Step>, s: State)
    ensures Reaches(EMPTY, steps, s) && DescriptionsExist(s)
    ensures s == State([{2}], Some(0), map[1 := Acquirer(Idle), 2 := Child(0)], 3)
  {
    var first, before := TwoArrive();
    var locked, spawned := LocksAndSpawns(before);
    s := AcquirerDies(spawned);
    ReachesOneMore(EMPTY, first, before, TryLock(0));
    ReachesOneMore(EMPTY, first + [TryLock(0)], locked, Spawn(0));
    ReachesOneMore(EMPTY, first + [TryLock(0)] + [Spawn(0)], spawned, Die(0));
    steps := first + [TryLock(0)] + [Spawn(0)] + [Die(0)];
  }

  /** The second cannot have the lock while that child lives, and gets it once the child has gone. */
  lemma SecondWaitsForOrphan(s: State)
    requires s == State([{2}], Some(0), map[1 := Acquirer(Idle), 2 := Child(0)], 3)
    ensures DescriptionsExist(s) && Enabled(s, Open(1))
    ensures var later := Apply(s, Open(1));
      && DescriptionsExist(later) && Enabled(later, TryLock(1))
      && !(exists d :: 0 <= d < 2 && Apply(later, TryLock(1)).processes[1].Holds(d))
      && Apply(later, TryLock(1)).locked == Some(0)
    ensures Enabled(s, Die(2))
    ensures var free := Apply(s, Die(2));
      && free.locked == None && DescriptionsExist(free) && Enabled(free, Open(1))
      && var later := Apply(free, Open(1));
         DescriptionsExist(later) && Enabled(later, TryLock(1))
         && Apply(later, TryLock(1)).processes[1].Holds(1) && Apply(later, TryLock(1)).locked == Some(1)
  {
    assert {2} - {2} == {};
  }

  // ---- The Windows launcher

  const EXIT_BLOCKED := 2
  const EXIT_USAGE := 3

  /** How the launcher's call ends: with an exit code, by an interrupt from the console that is not
      caught, or because the launcher was killed. */
  datatype Ending = Returned(code: int) | Interrupted | Killed

  ghost predicate HeldBySome(s: State) {
    exists q, d :: q in s.processes && s.processes[q].Holds(d)
  }

  /** A child that is still there holds the lock. */
  predicate ChildHolds(s: State, child: Option<nat>) {
    child.Some? && child.value in s.processes ==>
      s.processes[child.value].Child? && s.locked == Some(s.processes[child.value].description)
  }

  /** A child is there unchanged, or gone. */
  ghost predicate SameOrGone(s: State, t: State, c: nat) {
    c in s.processes && s.processes[c].Child? && c in t.processes ==> t.processes[c] == s.processes[c]
  }

  class Display {
    const works: nat -> bool      // whether the nth thing asked of the system goes well
    var asked: nat
    var state: State
    ghost var history: seq<Step>

    ghost predicate Valid()
      reads this
    {
      Reaches(EMPTY, history, state) && Inv(state) && DescriptionsExist(state)
    }

    constructor (works: nat -> bool)
      ensures Valid() && state == EMPTY && this.works == works
    {
      this.works, asked, state, history := works, 0, EMPTY, [];
    }

    ghost predicate AllWell(from: nat, to: nat) {
      forall i: nat :: from <= i < to ==> works(i)
    }

    /** Whether a call works, or no interrupt has arrived. */
    method Ask() returns (ok: bool)
      modifies `asked
      ensures asked == old(asked) + 1 && ok == works(old(asked))
    {
      ok := works(asked);
      asked := asked + 1;
    }

    method Take(step: Step)
      requires Valid() && Enabled(state, step)
      modifies `state, `history
      ensures Valid() && state == Apply(old(state), step)
    {
      StepInv(state, step);
      ReachesOneMore(EMPTY, history, state, step);
      state, history := Apply(state, step), history + [step];
    }

    /** Any steps of other processes, or the death of `p`. */
    method OthersRun(p: nat)
      requires Valid() && p < state.next
      modifies `state, `history
      ensures Valid() && old(state).next <= state.next
      ensures p in state.processes ==> p in old(state).processes && state.processes[p] == old(state).processes[p]
      ensures forall c: nat :: c < old(state).next ==> SameOrGone(old(state), state, c)
    {
      var rounds: int := *;
      ghost var taken: seq<Step> := [];
      while rounds > 0
        invariant Valid() && old(state).next <= state.next
        invariant p in state.processes ==> p in old(state).processes && state.processes[p] == old(state).processes[p]
        invariant Reaches(old(state), taken, state)
      {
        var step: Step := *;
        if Foreign(step, p) && Enabled(state, step) {
          ForeignStepKeeps(state, step, p);
          ReachesOneMore(old(state), taken, state, step);
          Take(step);
          taken := taken + [step];
        }
        rounds := rounds - 1;
      }
      forall c: nat | c < old(state).next && c in old(state).processes && old(state).processes[c].Child?
        ensures SameOrGone(old(state), state, c)
      {
        ChildUnchanged(old(state), taken, state, c);
      }
    }

    /** Blocks until the child has gone, unless the launcher dies first; interrupts at the console do
        not end the wait. */
    method Wait(p: nat, c: nat)
      requires Valid() && p < state.next && c < state.next && p != c
      requires c in state.processes && state.processes[c].Child?
      modifies `state, `history
      ensures Valid() && (p in state.processes ==> c !in state.processes)
      ensures p in state.processes ==> p in old(state).processes && state.processes[p] == old(state).processes[p]
      ensures SameOrGone(old(state), state, c)
    {
      OthersRun(p);
      if p in state.processes && c in state.processes {
        ForeignStepKeeps(state, Die(c), p);
        Take(Die(c));
      }
    }

    method AcquireExclusive(p: nat) returns (acquired: bool)
      requires Valid() && AcquirerAt(state, p) && state.processes[p].stage.Idle?
      modifies this
      ensures Valid() && AcquirerAt(state, p) && state.next == old(state).next
      ensures acquired ==> forall q, d :: q in old(state).processes ==> !old(state).processes[q].Holds(d)
      ensures if acquired then state.processes[p].stage.Holding? && !state.processes[p].stage.launched
              else state == old(state)
      ensures old(asked) < asked
      ensures AllWell(old(asked), asked) && !HeldBySome(old(state)) ==> acquired
    {
      AcquireSucceedsIffFree(history, state, p);
      var permitted := Ask();   // the file may be unreachable for other reasons
      acquired := false;
      if permitted {
        Take(OpenExclusive(p));
        acquired := state.processes[p].stage.Holding?;
      }
    }

    lemma ChildHoldsNow(child: Option<nat>)
      requires Valid() && (child.Some? && child.value in state.processes ==> state.processes[child.value].Child?)
      ensures ChildHolds(state, child)
    {
      if child.Some? && child.value in state.processes {
        assert ProcessOk(state, child.value);
      }
    }

    /** From the start of the child to its end, with the lock's handle open. */
    method StartAndWait(p: nat) returns (ending: Ending, child: Option<nat>)
      requires Valid() && AcquirerAt(state, p) && p < state.next
      requires state.processes[p].stage.Holding? && !state.processes[p].stage.launched
      modifies this
      ensures Valid() && ChildHolds(state, child)
      ensures ending.Killed? <==> p !in state.processes
      ensures !ending.Killed? ==> AcquirerAt(state, p) && state.processes[p].stage.Holding?
      ensures ending.Returned? && child.Some? ==> child.value !in state.processes
      ensures ending.Returned? && child.None? ==> ending.code == EXIT_BLOCKED
      ensures old(asked) < asked
      ensures AllWell(old(asked), asked) ==> child.Some? && !ending.Interrupted?
    {
      child := None;
      var undisturbed := Ask();
      if !undisturbed {
        return Interrupted, None;
      }
      var started := Ask();
      if !started {
        return Returned(EXIT_BLOCKED), None;
      }
      child := Some(state.next);
      SpawnStarts(p);
      Take(Spawn(p));
      ending := UntilItExits(p, child.value);
    }

    lemma SpawnStarts(p: nat)
      requires Valid() && Enabled(state, Spawn(p)) && p < state.next
      ensures var t := Apply(state, Spawn(p));
        && state.next in t.processes && t.processes[state.next].Child? && state.next < t.next
        && AcquirerAt(t, p) && t.processes[p].stage.Holding?
    {
    }

    /** From the start of the child on; an interrupt before or after the wait is not caught. */
    method UntilItExits(p: nat, c: nat) returns (ending: Ending)
      requires Valid() && AcquirerAt(state, p) && state.processes[p].stage.Holding?
      requires p < c < state.next && c in state.processes && state.processes[c].Child?
      modifies this
      ensures Valid() && ChildHolds(state, Some(c))
      ensures ending.Killed? <==> p !in state.processes
      ensures !ending.Killed? ==> AcquirerAt(state, p) && state.processes[p].stage.Holding?
      ensures ending.Returned? ==> c !in state.processes
      ensures old(asked) < asked
      ensures AllWell(old(asked), asked) ==> !ending.Interrupted?
    {
      ghost var before := state;
      OthersRun(p);
      assert SameOrGone(before, state, c);
      var undisturbed := Ask();
      if p in state.processes && c in state.processes && undisturbed {
        Wait(p, c);
        undisturbed := Ask();
      }
      ChildHoldsNow(Some(c));
      var status: int := *;
      ending := if p !in state.processes then Killed
                else if !undisturbed || c in state.processes then Interrupted else Returned(status);
    }

    /** Runs the command under the lock. */
    method LaunchWithLock(p: nat, command: seq<string>) returns (ending: Ending, child: Option<nat>)
      requires Valid() && AcquirerAt(state, p) && state.processes[p].stage.Idle?
      modifies this
      ensures Valid()
      // However it ends, a child that was started and is still there holds the lock.
      ensures ChildHolds(state, child)
      // On return the handle is closed, and a child that was started has already exited.
      ensures ending.Returned? ==> AcquirerAt(state, p) && state.processes[p].stage.Idle?
      ensures ending.Returned? && child.Some? ==> child.value !in state.processes
      ensures ending.Killed? <==> p !in state.processes
      // An interrupt closes the handle, whether or not the child has exited, except just after acquiring it.
      ensures ending.Interrupted? ==> AcquirerAt(state, p) && (state.processes[p].stage.Idle? || child == None)
      // Nothing is started without a command, or while anyone holds the lock.
      ensures command == [] ==> ending == Returned(3) && child == None && state == old(state)
      ensures HeldBySome(old(state)) && command != [] ==>
                ending == Returned(2) && child == None && state == old(state)
      ensures ending.Returned? && child == None && command != [] ==> ending.code == 2
      // With the lock free and everything going well, the child is started, and waited for to its end.
      ensures old(asked) <= asked
      ensures command != [] && !HeldBySome(old(state)) && AllWell(old(asked), asked) ==>
                ending.Killed? || (ending.Returned? && child.Some?)
    {
      child := None;
      if command == [] {
        return Returned(EXIT_USAGE), None;
      }
      assert ProcessOk(state, p);
      var acquired := AcquireExclusive(p);
      if !acquired {
        return Returned(EXIT_BLOCKED), None;
      }
      OthersRun(p);
      if p !in state.processes {
        return Killed, None;
      }
      var undisturbed := Ask();
      if !undisturbed {
        return Interrupted, None;
      }
      ending, child := StartAndWait(p);
      if !ending.Killed? {
        CloseKeepsChild(p, child);
        Take(Close(p));
        ChildHoldsNow(child);
      }
    }

    /** Closing the launcher's handle changes no other process. */
    lemma CloseKeepsChild(p: nat, child: Option<nat>)
      requires Valid() && AcquirerAt(state, p) && !state.processes[p].stage.Idle? && ChildHolds(state, child)
      ensures var t := Apply(state, Close(p));
        && (forall q :: q in t.processes <==> q in state.processes)
        && (forall q :: q in t.processes && q != p ==> t.processes[q] == state.processes[q])
        && (child.Some? && child.value in t.processes ==> t.processes[child.value].Child?)
    {
    }
  }
}
