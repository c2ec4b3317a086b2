/** The task scheduler (internal/tasks/scheduler.go) as steps of its goroutines: one wait
    loop per job, one goroutine per run, a shared semaphore and two wait groups. */
module Scheduler {
  /** Where the wait loop of a job stands. `Marked` has set the waiting flag, `Counted` has
      also been added to the wait group of runs, and starts the goroutine next. */
  datatype Loop = NotStarted | Looping | Marked | Counted | Exited

  /** Where the goroutine of a run stands. `late` records that the context had been
      cancelled when the slot was acquired. */
  datatype Phase =
    | Queued
    | Holding(late: bool)
    | Refused
    | Abandoned
    | Admitted(late: bool)
    | Executing(late: bool)
    | Returned(failed: bool, succeeded: bool)
    | Cleared
    | Finishing

  datatype Run = Run(job: nat, phase: Phase)

  /** The state shared by the runs of one job. */
  datatype Flags = Flags(waiting: bool, running: bool, failureEpisode: bool)

  /** Outcomes in the order in which runs of a job recorded them. */
  datatype Outcome = ReportedFailure | SuppressedFailure | Success

  /** A caller of `Wait`; `started` records whether `Start` came before the call. */
  datatype Waiter =
    | NotWaiting
    | WaitingForLoops(started: bool)
    | WaitingForRuns(started: bool)
    | WaitReturned(started: bool)

  datatype State = State(
    limit: nat, started: bool, cancelled: bool,
    loops: map<nat, Loop>, flags: map<nat, Flags>, runs: map<nat, Run>,
    semaphore: int, loopGroup: int, runGroup: int,
    waiter: Waiter, history: map<nat, seq<Outcome>>)

  /** The steps of the goroutine of a run up to giving its slot back. */
  datatype Action =
    | Acquire
    | GiveUp
    | Check
    | Refuse
    | ClearWaiting
    | Enter
    | Return(err: bool, timedOut: bool)
    | Record
    | Release

  datatype Step =
    | Start
    | Cancel
    | Fire(job: nat)
    | CountRun(job: nat)
    | Spawn(job: nat, id: nat)
    | ExitLoop(job: nat)
    | Act(id: nat, action: Action)
    | Finish(id: nat)
    | CallWait
    | LoopsDone
    | RunsDone

  predicate Init(s: State) {
    && s.limit >= 1 && !s.started && !s.cancelled
    && s.flags.Keys == s.loops.Keys == s.history.Keys
    && (forall j | j in s.loops ::
          s.loops[j] == NotStarted && s.flags[j] == Flags(false, false, false) && s.history[j] == [])
    && s.runs == map[] && s.semaphore == 0 && s.loopGroup == 0 && s.runGroup == 0 && s.waiter == NotWaiting
  }

  predicate LoopAt(s: State, job: nat, loop: Loop) {
    job in s.loops && s.loops[job] == loop
  }

  /** When a run in phase `p` can take an action: `free` says that a slot is left. */
  predicate Possible(action: Action, p: Phase, free: bool, cancelled: bool) {
    match action
    case Acquire => p == Queued && free
    case GiveUp => p == Queued && cancelled
    case Check => p.Holding?
    case Refuse => p == Refused
    case ClearWaiting => p == Abandoned
    case Enter => p.Admitted?
    case Return(_, _) => p.Executing?
    case Record => p.Returned?
    case Release => p == Cleared
  }

  /** What an action does: the next phase, the job's flags, the change of the semaphore and
      the outcome it records. */
  datatype Effect = Effect(phase: Phase, flags: Flags, slots: int, outcomes: seq<Outcome>)

  function EffectOf(action: Action, p: Phase, f: Flags, cancelled: bool): Effect
    requires Possible(action, p, true, cancelled)
  {
    match action
    case Acquire => Effect(Holding(cancelled), f, 1, [])
    case GiveUp => Effect(Abandoned, f, 0, [])
    case Check => Effect(if cancelled then Refused else Admitted(p.late), f, 0, [])
    case Refuse => Effect(Abandoned, f, -1, [])
    case ClearWaiting => Effect(Finishing, f.(waiting := false), 0, [])
    case Enter => Effect(Executing(p.late), f.(waiting := false, running := true), 0, [])
    case Return(err, timedOut) => Effect(Returned(err && !cancelled, !err && !timedOut && !cancelled), f, 0, [])
    case Record =>
      var report := p.failed && !f.failureEpisode;
      var episode := if p.succeeded then false else f.failureEpisode || p.failed;
      Effect(Cleared, Flags(f.waiting, false, episode), 0,
             if report then [ReportedFailure]
             else if p.failed then [SuppressedFailure]
             else if p.succeeded then [Success]
             else [])
    case Release => Effect(Finishing, f, -1, [])
  }

  predicate Enabled(s: State, step: Step) {
    match step
    case Start => !s.started
    case Cancel => true
    case Fire(job) => LoopAt(s, job, Looping) && job in s.flags
    case CountRun(job) => LoopAt(s, job, Marked)
    case Spawn(job, id) => LoopAt(s, job, Counted) && id !in s.runs
    case ExitLoop(job) => LoopAt(s, job, Looping) && s.cancelled
    case Act(id, action) =>
      && id in s.runs && s.runs[id].job in s.flags && s.runs[id].job in s.history
      && Possible(action, s.runs[id].phase, s.semaphore < s.limit, s.cancelled)
    case Finish(id) => id in s.runs && s.runs[id].phase == Finishing
    case CallWait => s.waiter == NotWaiting
    case LoopsDone => s.waiter.WaitingForLoops? && s.loopGroup == 0
    case RunsDone => s.waiter.WaitingForRuns? && s.runGroup == 0
  }

  function Acted(s: State, id: nat, e: Effect): State
    requires id in s.runs && s.runs[id].job in s.history
  {
    var job := s.runs[id].job;
    s.(runs := s.runs[id := Run(job, e.phase)], flags := s.flags[job := e.flags],
       semaphore := s.semaphore + e.slots, history := s.history[job := s.history[job] + e.outcomes])
  }

  function Next(s: State, step: Step): State
    requires Enabled(s, step)
  {
    match step
    case Start => s.(started := true, loops := map j | j in s.loops :: Looping, loopGroup := s.loopGroup + |s.loops|)
    case Cancel => s.(cancelled := true)
    case Fire(job) =>
      var f := s.flags[job];
      if f.running || f.waiting then s
      else s.(flags := s.flags[job := f.(waiting := true)], loops := s.loops[job := Marked])
    case CountRun(job) => s.(runGroup := s.runGroup + 1, loops := s.loops[job := Counted])
    case Spawn(job, id) => s.(runs := s.runs[id := Run(job, Queued)], loops := s.loops[job := Looping])
    case ExitLoop(job) => s.(loops := s.loops[job := Exited], loopGroup := s.loopGroup - 1)
    case Act(id, action) => Acted(s, id, EffectOf(action, s.runs[id].phase, s.flags[s.runs[id].job], s.cancelled))
    case Finish(id) => s.(runs := s.runs - {id}, runGroup := s.runGroup - 1)
    case CallWait => s.(waiter := WaitingForLoops(s.started))
    case LoopsDone => s.(waiter := WaitingForRuns(s.waiter.started))
    case RunsDone => s.(waiter := WaitReturned(s.waiter.started))
  }

  // ----- Invariant -----

  /** The run owns a slot of the semaphore. */
  predicate HoldsSlot(p: Phase) {
    p.Holding? || p.Refused? || p.Admitted? || p.Executing? || p.Returned? || p.Cleared?
  }

  predicate WaitPhase(p: Phase) {
    p.Queued? || p.Holding? || p.Refused? || p.Abandoned? || p.Admitted?
  }

  predicate RunPhase(p: Phase) {
    p.Executing? || p.Returned?
  }

  predicate Busy(p: Phase) {
    WaitPhase(p) || RunPhase(p)
  }

  ghost function SlotHolders(s: State): set<nat> {
    set id | id in s.runs && HoldsSlot(s.runs[id].phase)
  }

  ghost function ActiveLoops(s: State): set<nat> {
    set j | j in s.loops && s.loops[j] != NotStarted && s.loops[j] != Exited
  }

  ghost function CountedLoops(s: State): set<nat> {
    set j | j in s.loops && s.loops[j] == Counted
  }

  /** The flags of a job say what its runs and its loop are doing, and at most one run is
      queued or executing. */
  ghost predicate JobOk(s: State, job: nat)
    requires job in s.loops && job in s.flags && job in s.history
  {
    var f := s.flags[job];
    && !(f.waiting && f.running)
    && (s.loops[job] == Marked || s.loops[job] == Counted ==> f.waiting)
    && f.failureEpisode == InEpisode(s.history[job])
  }

  ghost predicate RunOk(s: State, id: nat)
    requires id in s.runs
  {
    var r := s.runs[id];
    && r.job in s.loops && r.job in s.flags
    && s.loops[r.job] != NotStarted
    && Fits(r.phase, s.flags[r.job])
    && (Busy(r.phase) ==> s.loops[r.job] != Marked && s.loops[r.job] != Counted)
    && (r.phase.Holding? && r.phase.late ==> s.cancelled)
    && (r.phase.Returned? ==> !(r.phase.failed && r.phase.succeeded))
  }

  ghost predicate OneBusy(s: State, a: nat, b: nat) {
    (a in s.runs && b in s.runs && s.runs[a].job == s.runs[b].job
     && Busy(s.runs[a].phase) && Busy(s.runs[b].phase)) ==> a == b
  }

  ghost predicate Inv(s: State) {
    && FlagsInv(s) && GroupsInv(s)
    && s.semaphore == |SlotHolders(s)| <= s.limit
  }

  ghost predicate WaiterOk(s: State) {
    && (!s.waiter.NotWaiting? && s.waiter.started ==> s.started)
    && (s.waiter.WaitingForRuns? && s.waiter.started ==> s.loopGroup == 0)
    && (s.waiter.WaitReturned? && s.waiter.started ==> s.loopGroup == 0 && s.runGroup == 0)
  }

  /** The last outcome that counts is a failure. */
  function InEpisode(h: seq<Outcome>): bool {
    if h == [] then false
    else
      match h[|h| - 1]
      case ReportedFailure => true
      case SuppressedFailure => true
      case Success => false
  }

  lemma InitInv(s: State)
    requires Init(s)
    ensures Inv(s)
  {
    assert SlotHolders(s) == {} && ActiveLoops(s) == {} && CountedLoops(s) == {};
  }

  ghost predicate FlagsInv(s: State) {
    && s.flags.Keys == s.loops.Keys == s.history.Keys
    && (forall j | j in s.loops :: JobOk(s, j))
    && (forall id | id in s.runs :: RunOk(s, id))
    && (forall a, b :: OneBusy(s, a, b))
  }

  /** Phase and flags of a job fit together. */
  ghost predicate Fits(p: Phase, f: Flags) {
    && (WaitPhase(p) ==> f.waiting && !f.running)
    && (RunPhase(p) ==> f.running && !f.waiting)
    && (p.Admitted? || p.Executing? ==> !p.late)
  }

  /** What every action of a run respects. */
  lemma ActionOk(action: Action, p: Phase, f: Flags, free: bool, cancelled: bool)
    requires Possible(action, p, free, cancelled) && Fits(p, f) && (p.Holding? && p.late ==> cancelled)
    ensures var e := EffectOf(action, p, f, cancelled);
      && Fits(e.phase, e.flags) && (e.phase.Holding? && e.phase.late ==> cancelled)
      && (!Busy(p) ==> e.flags == f) && (Busy(e.phase) ==> Busy(p))
      && !(e.flags.waiting && e.flags.running && !(f.waiting && f.running))
      && (e.flags.waiting ==> f.waiting)
      && e.slots == (if HoldsSlot(e.phase) then 1 else 0) - (if HoldsSlot(p) then 1 else 0)
      && (e.slots > 0 ==> free)
  {
  }

  lemma ActionEpisode(action: Action, p: Phase, f: Flags, cancelled: bool, h: seq<Outcome>)
    requires Possible(action, p, true, cancelled) && f.failureEpisode == InEpisode(h)
    requires p.Returned? ==> !(p.failed && p.succeeded)
    ensures var e := EffectOf(action, p, f, cancelled);
      && e.flags.failureEpisode == InEpisode(h + e.outcomes)
      && |e.outcomes| <= 1 && (e.outcomes == [ReportedFailure] ==> !InEpisode(h))
      && (e.phase.Returned? ==> !(e.phase.failed && e.phase.succeeded))
  {
    assert h + [] == h;
  }

  lemma StepFlags(s: State, step: Step)
    requires Inv(s) && Enabled(s, step)
    ensures FlagsInv(Next(s, step))
  {
    if step.Act? {
      ActFlags(s, step.id, step.action);
    } else {
      OtherFlags(s, step);
    }
  }

  lemma ActFlags(s: State, id: nat, action: Action)
    requires Inv(s) && Enabled(s, Act(id, action))
    ensures FlagsInv(Next(s, Act(id, action)))
  {
    var r := s.runs[id];
    var f, h := s.flags[r.job], s.history[r.job];
    assert RunOk(s, id) && JobOk(s, r.job);
    ActionOk(action, r.phase, f, s.semaphore < s.limit, s.cancelled);
    ActionEpisode(action, r.phase, f, s.cancelled, h);
    ActedFlags(s, id, EffectOf(action, r.phase, f, s.cancelled));
  }

  /** What the effect of an action on a run and its job respects. */
  ghost predicate EffectFits(s: State, id: nat, e: Effect)
    requires id in s.runs && s.runs[id].job in s.flags && s.runs[id].job in s.history
  {
    var r := s.runs[id];
    && r.job in s.loops && Fits(e.phase, e.flags) && (e.phase.Holding? && e.phase.late ==> s.cancelled)
    && (!Busy(r.phase) ==> e.flags == s.flags[r.job]) && (Busy(e.phase) ==> Busy(r.phase))
    && !(e.flags.waiting && e.flags.running) && (e.flags.waiting ==> s.flags[r.job].waiting)
    && e.flags.failureEpisode == InEpisode(s.history[r.job] + e.outcomes)
    && (e.phase.Returned? ==> !(e.phase.failed && e.phase.succeeded))
  }

  lemma ActedJob(s: State, id: nat, e: Effect, j: nat)
    requires FlagsInv(s) && id in s.runs && s.runs[id].job in s.history && EffectFits(s, id, e) && j in s.loops
    ensures JobOk(Acted(s, id, e), j)
  {
    assert JobOk(s, j) && RunOk(s, id);
  }

  lemma ActedRun(s: State, id: nat, e: Effect, k: nat)
    requires FlagsInv(s) && id in s.runs && s.runs[id].job in s.history && EffectFits(s, id, e) && k in s.runs
    ensures RunOk(Acted(s, id, e), k)
  {
    assert RunOk(s, id) && RunOk(s, k) && OneBusy(s, k, id);
  }

  lemma ActedFlags(s: State, id: nat, e: Effect)
    requires FlagsInv(s) && id in s.runs && s.runs[id].job in s.history && EffectFits(s, id, e)
    ensures FlagsInv(Acted(s, id, e))
  {
    var t := Acted(s, id, e);
    forall j | j in t.loops ensures JobOk(t, j) {
      ActedJob(s, id, e, j);
    }
    forall k | k in t.runs ensures RunOk(t, k) {
      ActedRun(s, id, e, k);
    }
    forall a, b ensures OneBusy(t, a, b) {
      assert OneBusy(s, a, b);
    }
  }

  lemma OtherFlags(s: State, step: Step)
    requires Inv(s) && Enabled(s, step) && !step.Act?
    ensures FlagsInv(Next(s, step))
  {
    if step.Start? {
      StartFlags(s);
    } else if step.Fire? {
      FireFlags(s, step.job);
    } else if step.CountRun? || step.ExitLoop? {
      LoopFlags(s, step, step.job);
    } else if step.Spawn? {
      SpawnFlags(s, step.job, step.id);
    } else {
      QuietFlags(s, step);
    }
  }

  lemma QuietFlags(s: State, step: Step)
    requires FlagsInv(s) && Enabled(s, step)
    requires step.Cancel? || step.Finish? || step.CallWait? || step.LoopsDone? || step.RunsDone?
    ensures FlagsInv(Next(s, step))
  {
    SameFlags(s, Next(s, step));
  }

  lemma SameFlags(s: State, t: State)
    requires FlagsInv(s) && t.loops == s.loops && t.flags == s.flags && t.history == s.history
    requires (s.cancelled ==> t.cancelled) && forall id | id in t.runs :: id in s.runs && t.runs[id] == s.runs[id]
    ensures FlagsInv(t)
  {
    forall j | j in t.loops ensures JobOk(t, j) {
      assert JobOk(s, j);
    }
    forall k | k in t.runs ensures RunOk(t, k) {
      assert RunOk(s, k);
    }
    forall a, b ensures OneBusy(t, a, b) {
      assert OneBusy(s, a, b);
    }
  }

  lemma NoRunBeforeStart(s: State, id: nat)
    requires Inv(s) && id in s.runs
    ensures s.started
  {
    assert RunOk(s, id);
  }

  lemma StartFlags(s: State)
    requires Inv(s) && !s.started
    ensures FlagsInv(Next(s, Start))
  {
    var t := Next(s, Start);
    forall j | j in t.loops ensures JobOk(t, j) {
      assert JobOk(s, j);
    }
    forall k ensures k !in s.runs {
      if k in s.runs {
        NoRunBeforeStart(s, k);
      }
    }
  }

  lemma FireFlags(s: State, job: nat)
    requires FlagsInv(s) && Enabled(s, Fire(job))
    ensures FlagsInv(Next(s, Fire(job)))
  {
    var t := Next(s, Fire(job));
    assert JobOk(s, job);
    forall j | j in t.loops ensures JobOk(t, j) {
      assert JobOk(s, j);
    }
    forall k | k in t.runs ensures RunOk(t, k) {
      assert RunOk(s, k);
    }
    forall a, b ensures OneBusy(t, a, b) {
      assert OneBusy(s, a, b);
    }
  }

  /** A wait loop counts a marked run or leaves. */
  lemma LoopFlags(s: State, step: Step, job: nat)
    requires FlagsInv(s) && Enabled(s, step) && (step == CountRun(job) || step == ExitLoop(job))
    ensures FlagsInv(Next(s, step))
  {
    var t := Next(s, step);
    assert JobOk(s, job);
    forall j | j in t.loops ensures JobOk(t, j) {
      assert JobOk(s, j);
    }
    forall k | k in t.runs ensures RunOk(t, k) {
      assert RunOk(s, k);
    }
    forall a, b ensures OneBusy(t, a, b) {
      assert OneBusy(s, a, b);
    }
  }

  lemma SpawnFlags(s: State, job: nat, id: nat)
    requires FlagsInv(s) && Enabled(s, Spawn(job, id))
    ensures FlagsInv(Next(s, Spawn(job, id)))
  {
    var t := Next(s, Spawn(job, id));
    assert JobOk(s, job);
    forall j | j in t.loops ensures JobOk(t, j) {
      assert JobOk(s, j);
    }
    forall k | k in t.runs ensures RunOk(t, k) {
      if k != id {
        assert RunOk(s, k);
      }
    }
    forall a, b ensures OneBusy(t, a, b) {
      assert OneBusy(s, a, b);
      if a in s.runs {
        assert RunOk(s, a);
      }
      if b in s.runs {
        assert RunOk(s, b);
      }
    }
  }

  // ----- Counting -----

  lemma Sizes(a: set<nat>, x: nat)
    ensures |a + {x}| == |a| + (if x in a then 0 else 1)
    ensures |a - {x}| == |a| - (if x in a then 1 else 0)
  {
    if x in a {
      assert a + {x} == a;
      assert a == (a - {x}) + {x};
    } else {
      assert a - {x} == a;
    }
  }

  lemma StepSemaphore(s: State, step: Step)
    requires FlagsInv(s) && s.semaphore == |SlotHolders(s)| <= s.limit && Enabled(s, step)
    ensures var t := Next(s, step);
      t.semaphore == |SlotHolders(t)| <= t.limit
  {
    var t := Next(s, step);
    if step.Act? {
      var r := s.runs[step.id];
      assert RunOk(s, step.id);
      ActionOk(step.action, r.phase, s.flags[r.job], s.semaphore < s.limit, s.cancelled);
      ActedSlots(s, step.id, EffectOf(step.action, r.phase, s.flags[r.job], s.cancelled));
    } else {
      OtherSlots(s, step);
    }
  }

  lemma OtherSlots(s: State, step: Step)
    requires Enabled(s, step) && !step.Act?
    ensures SlotHolders(Next(s, step)) == SlotHolders(s)
    ensures Next(s, step).semaphore == s.semaphore && Next(s, step).limit == s.limit
  {
    match step
    case Start =>
    case Cancel =>
    case Fire(job) =>
    case CountRun(job) =>
    case Spawn(job, id) =>
    case ExitLoop(job) =>
    case Finish(id) =>
    case CallWait =>
    case LoopsDone =>
    case RunsDone =>
  }

  lemma SlotMoves(s: State, id: nat, e: Effect)
    requires id in s.runs && s.runs[id].job in s.history
    ensures SlotHolders(Acted(s, id, e)) == if HoldsSlot(e.phase) then SlotHolders(s) + {id} else SlotHolders(s) - {id}
  {
  }

  lemma ActedSlots(s: State, id: nat, e: Effect)
    requires id in s.runs && s.runs[id].job in s.history && s.semaphore == |SlotHolders(s)|
    requires e.slots == (if HoldsSlot(e.phase) then 1 else 0) - (if HoldsSlot(s.runs[id].phase) then 1 else 0)
    ensures Acted(s, id, e).semaphore == |SlotHolders(Acted(s, id, e))|
  {
    SlotMoves(s, id, e);
    Sizes(SlotHolders(s), id);
    assert id in SlotHolders(s) <==> HoldsSlot(s.runs[id].phase);
  }

  /** Before `Start` no loop is started, afterwards every one is. */
  ghost predicate StartOk(s: State) {
    && (s.started ==> forall j | j in s.loops :: s.loops[j] != NotStarted)
    && (!s.started ==> forall j | j in s.loops :: s.loops[j] == NotStarted)
  }

  /** What counts for the wait groups and for `Wait`. */
  ghost predicate GroupsInv(s: State) {
    && s.loopGroup == |ActiveLoops(s)|
    && s.runGroup == |s.runs| + |CountedLoops(s)|
    && StartOk(s) && WaiterOk(s)
  }

  lemma SizeOfMap(m: map<nat, Run>)
    ensures |m| == |m.Keys|
  {
  }

  /** What the move of one loop does to the sets of loops. */
  lemma LoopMoves(s: State, t: State, job: nat, phase: Loop)
    requires job in s.loops && t.loops == s.loops[job := phase]
    ensures ActiveLoops(t) == if phase != NotStarted && phase != Exited then ActiveLoops(s) + {job}
                              else ActiveLoops(s) - {job}
    ensures CountedLoops(t) == if phase == Counted then CountedLoops(s) + {job} else CountedLoops(s) - {job}
  {
  }

  lemma LoopSizes(s: State, t: State, job: nat, phase: Loop)
    requires job in s.loops && t.loops == s.loops[job := phase] && phase != NotStarted &&
      s.loops[job] != NotStarted && s.loops[job] != Exited
    ensures |ActiveLoops(s)| > 0 && |ActiveLoops(t)| == |ActiveLoops(s)| - (if phase == Exited then 1 else 0)
    ensures |CountedLoops(t)|
         == |CountedLoops(s)| + (if phase == Counted then 1 else 0) - (if s.loops[job] == Counted then 1 else 0)
  {
    LoopMoves(s, t, job, phase);
    Sizes(ActiveLoops(s), job);
    Sizes(CountedLoops(s), job);
    assert job in ActiveLoops(s) && (job in CountedLoops(s) <==> s.loops[job] == Counted);
  }

  lemma SameGroups(s: State, t: State)
    requires GroupsInv(s) && t.loops == s.loops && t.runs.Keys == s.runs.Keys
    requires t.loopGroup == s.loopGroup && t.runGroup == s.runGroup && t.started == s.started && WaiterOk(t)
    ensures GroupsInv(t)
  {
    assert ActiveLoops(t) == ActiveLoops(s) && CountedLoops(t) == CountedLoops(s);
    SizeOfMap(s.runs);
    SizeOfMap(t.runs);
  }

  lemma StartGroups(s: State)
    requires GroupsInv(s) && !s.started
    ensures GroupsInv(Next(s, Start))
  {
    var t := Next(s, Start);
    assert ActiveLoops(s) == {} && ActiveLoops(t) == s.loops.Keys;
    assert CountedLoops(s) == {} && CountedLoops(t) == {};
    assert |s.loops| == |s.loops.Keys|;
  }

  /** A loop that is active has been started. */
  lemma MovedGroups(s: State, t: State, job: nat, phase: Loop)
    requires GroupsInv(s) && job in s.loops && s.loops[job] != NotStarted && s.loops[job] != Exited
    requires phase != NotStarted && t.loops == s.loops[job := phase] && t.started == s.started && t.waiter == s.waiter
    requires t.loopGroup == s.loopGroup - (if phase == Exited then 1 else 0)
    requires t.runGroup == |t.runs| + |CountedLoops(t)|
    ensures GroupsInv(t)
  {
    LoopSizes(s, t, job, phase);
  }

  lemma FireGroups(s: State, job: nat)
    requires GroupsInv(s) && Enabled(s, Fire(job))
    ensures GroupsInv(Next(s, Fire(job)))
  {
    var t := Next(s, Fire(job));
    if t != s {
      LoopSizes(s, t, job, Marked);
      MovedGroups(s, t, job, Marked);
    }
  }

  lemma CountGroups(s: State, job: nat)
    requires GroupsInv(s) && Enabled(s, CountRun(job))
    ensures GroupsInv(Next(s, CountRun(job)))
  {
    var t := Next(s, CountRun(job));
    LoopSizes(s, t, job, Counted);
    MovedGroups(s, t, job, Counted);
  }

  lemma Added(m: map<nat, Run>, id: nat, r: Run)
    requires id !in m
    ensures |m[id := r]| == |m| + 1
  {
    Sizes(m.Keys, id);
    assert m[id := r].Keys == m.Keys + {id};
    SizeOfMap(m);
    SizeOfMap(m[id := r]);
  }

  lemma SpawnGroups(s: State, job: nat, id: nat)
    requires GroupsInv(s) && Enabled(s, Spawn(job, id))
    ensures GroupsInv(Next(s, Spawn(job, id)))
  {
    var t := Next(s, Spawn(job, id));
    LoopSizes(s, t, job, Looping);
    Added(s.runs, id, Run(job, Queued));
    MovedGroups(s, t, job, Looping);
  }

  lemma ExitGroups(s: State, job: nat)
    requires GroupsInv(s) && Enabled(s, ExitLoop(job))
    ensures GroupsInv(Next(s, ExitLoop(job)))
  {
    var t := Next(s, ExitLoop(job));
    LoopSizes(s, t, job, Exited);
    MovedGroups(s, t, job, Exited);
  }

  lemma FinishGroups(s: State, id: nat)
    requires GroupsInv(s) && Enabled(s, Finish(id))
    ensures GroupsInv(Next(s, Finish(id)))
  {
    var t := Next(s, Finish(id));
    assert ActiveLoops(t) == ActiveLoops(s) && CountedLoops(t) == CountedLoops(s);
    Removed(s.runs, id);
  }

  lemma Removed(m: map<nat, Run>, id: nat)
    requires id in m
    ensures |m - {id}| == |m| - 1
  {
    Sizes(m.Keys, id);
    assert (m - {id}).Keys == m.Keys - {id};
    SizeOfMap(m);
    SizeOfMap(m - {id});
  }

  lemma StepGroups(s: State, step: Step)
    requires GroupsInv(s) && Enabled(s, step)
    ensures GroupsInv(Next(s, step))
  {
    match step
    case Start => StartGroups(s);
    case Fire(job) => FireGroups(s, job);
    case CountRun(job) => CountGroups(s, job);
    case Spawn(job, id) => SpawnGroups(s, job, id);
    case ExitLoop(job) => ExitGroups(s, job);
    case Finish(id) => FinishGroups(s, id);
    case Act(id, action) => ActGroups(s, id, action);
    case Cancel => SameGroups(s, Next(s, step));
    case CallWait => SameGroups(s, Next(s, step));
    case LoopsDone => SameGroups(s, Next(s, step));
    case RunsDone => SameGroups(s, Next(s, step));
  }

  lemma ActGroups(s: State, id: nat, action: Action)
    requires GroupsInv(s) && Enabled(s, Act(id, action))
    ensures GroupsInv(Next(s, Act(id, action)))
  {
    SameGroups(s, Next(s, Act(id, action)));
  }

  lemma StepInv(s: State, step: Step)
    requires Inv(s) && Enabled(s, step)
    ensures Inv(Next(s, step))
  {
    StepFlags(s, step);
    StepSemaphore(s, step);
    StepGroups(s, step);
  }

  // ----- Runs of the system -----

  ghost predicate Trace(states: seq<State>, steps: seq<Step>) {
    Path(states, steps) && Init(states[0])
  }

  /** The steps lead from the first of the states to the last. */
  ghost predicate Path(states: seq<State>, steps: seq<Step>) {
    |states| == |steps| + 1 && forall i | 0 <= i < |steps| :: Follows(states, steps, i)
  }

  ghost predicate Follows(states: seq<State>, steps: seq<Step>, i: nat)
    requires i < |steps| && |states| == |steps| + 1
  {
    Enabled(states[i], steps[i]) && states[i + 1] == Next(states[i], steps[i])
  }

  lemma {:induction false} TraceInv(states: seq<State>, steps: seq<Step>, i: nat)
    requires Trace(states, steps) && i < |states|
    ensures Inv(states[i])
  {
    if i == 0 {
      InitInv(states[0]);
    } else {
      TraceInv(states, steps, i - 1);
      assert Follows(states, steps, i - 1);
      StepInv(states[i - 1], steps[i - 1]);
    }
  }

  ghost function ExecutingRuns(s: State): set<nat> {
    set id | id in s.runs && s.runs[id].phase.Executing?
  }

  lemma SubsetSize(a: set<nat>, b: set<nat>)
    requires a <= b
    ensures |a| <= |b|
  {
    assert b == a + (b - a);
  }

  /** Of the runs of one job at most one is queued or executing, and over all jobs no more
      callbacks execute than the semaphore admits. */
  lemma NoOverlap(states: seq<State>, steps: seq<Step>, i: nat, a: nat, b: nat)
    requires Trace(states, steps) && i < |states|
    ensures var s := states[i];
      && ((a in s.runs && b in s.runs && s.runs[a].job == s.runs[b].job
           && Busy(s.runs[a].phase) && Busy(s.runs[b].phase)) ==> a == b)
      && |ExecutingRuns(s)| <= s.limit
  {
    TraceInv(states, steps, i);
    assert OneBusy(states[i], a, b);
    SubsetSize(ExecutingRuns(states[i]), SlotHolders(states[i]));
  }

  /** The semaphore counts exactly the runs between acquiring and releasing a slot, so when
      no run is left every slot has been given back. */
  lemma SlotsAreReturned(states: seq<State>, steps: seq<Step>, i: nat)
    requires Trace(states, steps) && i < |states|
    ensures states[i].semaphore == |SlotHolders(states[i])| <= states[i].limit
    ensures states[i].runs == map[] ==> states[i].semaphore == 0
  {
    TraceInv(states, steps, i);
    if states[i].runs == map[] {
      assert SlotHolders(states[i]) == {};
    }
  }

  /** No callback executes whose slot was acquired after the cancellation. */
  lemma NoStartAfterCancel(states: seq<State>, steps: seq<Step>, i: nat, id: nat)
    requires Trace(states, steps) && i < |states| && id in states[i].runs
    ensures states[i].runs[id].phase.Executing? ==> !states[i].runs[id].phase.late
  {
    TraceInv(states, steps, i);
    assert RunOk(states[i], id);
  }

  lemma ReturnedIsComplete(s: State)
    requires GroupsInv(s) && s.waiter == WaitReturned(true)
    ensures s.runs == map[] && ActiveLoops(s) == {} && forall j | j in s.loops :: s.loops[j] == Exited
  {
    assert |s.runs| == |s.runs.Keys|;
    assert s.runs.Keys == {};
    forall j | j in s.loops ensures s.loops[j] == Exited {
      if s.loops[j] != Exited {
        Sizes(ActiveLoops(s), j);
      }
    }
  }

  /** A `Wait` called after `Start` returns only when no loop and no run is left, and from
      then on none appears. */
  lemma WaitIsComplete(states: seq<State>, steps: seq<Step>, i: nat)
    requires Trace(states, steps) && i < |states| && states[i].waiter == WaitReturned(true)
    ensures states[i].runs == map[] && forall j | j in states[i].loops :: states[i].loops[j] == Exited
  {
    TraceInv(states, steps, i);
    ReturnedIsComplete(states[i]);
  }

  /** A `Wait` called now can return while a loop is active. */
  ghost predicate CanReturnEarly(s: State) {
    exists states: seq<State>, steps: seq<Step> :: ReturnsEarly(s, states, steps)
  }

  ghost predicate ReturnsEarly(s: State, states: seq<State>, steps: seq<Step>) {
    && Path(states, steps) && states[0] == s && steps != [] && steps[0] == CallWait
    && states[|steps|].waiter.WaitReturned? && ActiveLoops(states[|steps|]) != {}
  }

  lemma NothingCounted(s: State)
    requires Inv(s) && !s.started
    ensures s.runs == map[] && s.loopGroup == 0 && s.runGroup == 0
  {
    forall id ensures id !in s.runs {
      if id in s.runs {
        NoRunBeforeStart(s, id);
      }
    }
    assert ActiveLoops(s) == {} && CountedLoops(s) == {};
  }

  /** From every state before `Start` a `Wait` can run to its end, with all loops active. */
  lemma EarlyWait(s: State) returns (states: seq<State>, steps: seq<Step>)
    requires Inv(s) && !s.started && s.waiter == NotWaiting
    ensures Path(states, steps) && states[0] == s && steps == [CallWait, LoopsDone, Start, RunsDone]
    ensures var t := states[|steps|];
      t.waiter == WaitReturned(false) && t.loops.Keys == s.loops.Keys &&
        forall j | j in t.loops :: t.loops[j] == Looping
  {
    NothingCounted(s);
    steps := [CallWait, LoopsDone, Start, RunsDone];
    var s1 := Next(s, CallWait);
    var s2 := Next(s1, LoopsDone);
    var s3 := Next(s2, Start);
    states := [s, s1, s2, s3, Next(s3, RunsDone)];
    forall i | 0 <= i < |steps| ensures Follows(states, steps, i) {
      assert i == 0 || i == 1 || i == 2 || i == 3;
    }
  }

  lemma JobsStay(s: State, step: Step)
    requires Enabled(s, step)
    ensures Next(s, step).loops.Keys == s.loops.Keys
  {
    match step
    case Act(id, action) =>
    case _ =>
  }

  lemma WaiterStays(s: State, step: Step)
    requires Enabled(s, step) && !s.waiter.NotWaiting?
    ensures !Next(s, step).waiter.NotWaiting? && Next(s, step).waiter.started == s.waiter.started
  {
    match step
    case Act(id, action) =>
    case _ =>
  }

  /** Once `Wait` is called it is known for good whether `Start` came before. */
  lemma {:induction false} CallIsRemembered(states: seq<State>, steps: seq<Step>, i: nat)
    requires Path(states, steps) && steps != [] && steps[0] == CallWait && Inv(states[0]) && 0 < i <= |steps|
    ensures Inv(states[i]) && states[i].loops.Keys == states[0].loops.Keys
    ensures !states[i].waiter.NotWaiting? && states[i].waiter.started == states[0].started
  {
    assert Follows(states, steps, i - 1);
    if i > 1 {
      CallIsRemembered(states, steps, i - 1);
    }
    StepInv(states[i - 1], steps[i - 1]);
    JobsStay(states[i - 1], steps[i - 1]);
    if i > 1 {
      WaiterStays(states[i - 1], steps[i - 1]);
    }
  }

  /** In every reachable state a `Wait` called now can return while a loop is active exactly
      when `Start` has not been called and there is a job. */
  lemma EarlyReturnExactly(states: seq<State>, steps: seq<Step>, i: nat)
    requires Trace(states, steps) && i < |states| && states[i].waiter == NotWaiting
    ensures CanReturnEarly(states[i]) <==> !states[i].started && states[i].loops != map[]
  {
    TraceInv(states, steps, i);
    var s := states[i];
    if !s.started && s.loops != map[] {
      var more, rest := EarlyWait(s);
      var j :| j in s.loops;
      assert j in ActiveLoops(more[|rest|]);
      assert ReturnsEarly(s, more, rest);
    }
    forall more, rest | ReturnsEarly(s, more, rest) ensures !s.started && s.loops != map[] {
      CallIsRemembered(more, rest, |rest|);
      EarlyNeedsJob(s, more[|rest|]);
    }
  }

  lemma EarlyNeedsJob(s: State, t: State)
    requires Inv(t) && t.waiter.WaitReturned? && t.waiter.started == s.started && t.loops.Keys == s.loops.Keys
    requires ActiveLoops(t) != {}
    ensures !s.started && s.loops != map[]
  {
    if s.started {
      ReturnedIsComplete(t);
    }
    var j :| j in ActiveLoops(t);
    assert j in s.loops.Keys;
  }

  /** For one job, the run in which a `Wait` before `Start` returns while its loop is active. */
  lemma WaitBeforeStartIsNot() returns (states: seq<State>, steps: seq<Step>)
    ensures Trace(states, steps)
    ensures var s := states[|states| - 1];
      s.waiter.WaitReturned? && exists j :: j in s.loops && s.loops[j] == Looping
  {
    var flags := Flags(false, false, false);
    var s0 := State(1, false, false, map[0 := NotStarted], map[0 := flags], map[], 0, 0, 0, NotWaiting, map[0 := []]);
    InitInv(s0);
    states, steps := EarlyWait(s0);
    assert 0 in states[|steps|].loops;
  }

  // ----- Failure episodes -----

  /** Every reported failure in a history came while no episode was open. */
  ghost predicate ReportsOpenEpisodes(h: seq<Outcome>) {
    forall i | 0 <= i < |h| && h[i] == ReportedFailure :: !InEpisode(h[..i])
  }

  lemma {:induction false} SuccessBetween(h: seq<Outcome>, i: nat, j: nat)
    requires i < j <= |h| && h[i] != Success && !InEpisode(h[..j])
    ensures exists k :: i < k < j && h[k] == Success
  {
    assert h[..j][j - 1] == h[j - 1];
    assert h[j - 1] == Success;
  }

  lemma {:induction false} HistoriesOk(states: seq<State>, steps: seq<Step>, i: nat, job: nat)
    requires Trace(states, steps) && i < |states| && job in states[i].history
    ensures ReportsOpenEpisodes(states[i].history[job])
  {
    if i > 0 {
      assert Follows(states, steps, i - 1);
      TraceInv(states, steps, i - 1);
      JobsKeepHistories(states[i - 1], steps[i - 1]);
      HistoriesOk(states, steps, i - 1, job);
      StepHistory(states[i - 1], steps[i - 1], job);
    }
  }

  lemma JobsKeepHistories(s: State, step: Step)
    requires Enabled(s, step)
    ensures Next(s, step).history.Keys == s.history.Keys
  {
    match step
    case Act(id, action) =>
    case _ => OtherHistory(s, step);
  }

  lemma StepHistory(s: State, step: Step, job: nat)
    requires Inv(s) && Enabled(s, step) && job in s.history && ReportsOpenEpisodes(s.history[job])
    ensures job in Next(s, step).history && ReportsOpenEpisodes(Next(s, step).history[job])
  {
    if step.Act? {
      if s.runs[step.id].job == job {
        ActHistory(s, step.id, step.action);
      }
    } else {
      OtherHistory(s, step);
    }
  }

  lemma OtherHistory(s: State, step: Step)
    requires Enabled(s, step) && !step.Act?
    ensures Next(s, step).history == s.history
  {
    match step
    case Start =>
    case Cancel =>
    case Fire(job) =>
    case CountRun(job) =>
    case Spawn(job, id) =>
    case ExitLoop(job) =>
    case Finish(id) =>
    case CallWait =>
    case LoopsDone =>
    case RunsDone =>
  }

  lemma ActHistory(s: State, id: nat, action: Action)
    requires FlagsInv(s) && Enabled(s, Act(id, action)) && ReportsOpenEpisodes(s.history[s.runs[id].job])
    ensures ReportsOpenEpisodes(Next(s, Act(id, action)).history[s.runs[id].job])
  {
    var r := s.runs[id];
    assert RunOk(s, id) && JobOk(s, r.job);
    ActionEpisode(action, r.phase, s.flags[r.job], s.cancelled, s.history[r.job]);
    Recorded(s.history[r.job], EffectOf(action, r.phase, s.flags[r.job], s.cancelled).outcomes);
  }

  lemma Recorded(h: seq<Outcome>, more: seq<Outcome>)
    requires ReportsOpenEpisodes(h) && |more| <= 1 && (more == [ReportedFailure] ==> !InEpisode(h))
    ensures ReportsOpenEpisodes(h + more)
  {
    var k := h + more;
    forall n | 0 <= n < |k| && k[n] == ReportedFailure ensures !InEpisode(k[..n]) {
      if n < |h| {
        assert k[..n] == h[..n];
      } else {
        assert k[..n] == h;
      }
    }
  }

  /** Between two reported failures of a job one of its runs succeeded. */
  lemma ReportsAreSeparated(states: seq<State>, steps: seq<Step>, i: nat, job: nat, m: nat, n: nat)
    requires Trace(states, steps) && i < |states| && job in states[i].history
    requires m < n < |states[i].history[job]|
    requires states[i].history[job][m] == ReportedFailure && states[i].history[job][n] == ReportedFailure
    ensures exists k :: m < k < n && states[i].history[job][k] == Success
  {
    HistoriesOk(states, steps, i, job);
    SuccessBetween(states[i].history[job], m, n);
  }
}
