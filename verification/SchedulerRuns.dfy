/** What the scheduler brings about (internal/tasks/scheduler.go): when a tick starts a run, how
    a run goes on and ends, and that after cancellation everything comes to its end. */
module SchedulerRuns {
  import opened Options
  import opened Scheduler

  // ----- What the flags of a job mean -----

  ghost predicate RunIn(s: State, id: nat, job: nat) {
    id in s.runs && s.runs[id].job == job
  }

  /** A run of the job has not started yet. */
  ghost predicate HasWaiting(s: State, job: nat) {
    exists id :: RunIn(s, id, job) && WaitPhase(s.runs[id].phase)
  }

  /** A run of the job executes or has just returned. */
  ghost predicate HasRunning(s: State, job: nat) {
    exists id :: RunIn(s, id, job) && RunPhase(s.runs[id].phase)
  }

  ghost predicate HasBusy(s: State, job: nat) {
    exists id :: RunIn(s, id, job) && Busy(s.runs[id].phase)
  }

  /** The flags are set only while a run, or a tick on its way to one, accounts for them. */
  ghost predicate FlagsMean(s: State, job: nat)
    requires job in s.flags && job in s.loops
  {
    && (s.flags[job].waiting ==> s.loops[job] == Marked || s.loops[job] == Counted || HasWaiting(s, job))
    && (s.flags[job].running ==> HasRunning(s, job))
  }

  ghost predicate Means(s: State) {
    s.flags.Keys == s.loops.Keys && forall job | job in s.flags :: FlagsMean(s, job)
  }

  lemma ActionMeans(action: Action, p: Phase, f: Flags, cancelled: bool)
    requires Possible(action, p, true, cancelled) && Fits(p, f)
    ensures var e := EffectOf(action, p, f, cancelled);
      if Busy(p) then (e.flags.waiting ==> WaitPhase(e.phase)) && (e.flags.running ==> RunPhase(e.phase))
      else e.flags == f
  {
  }

  lemma ActMeans(s: State, id: nat, action: Action, job: nat)
    requires Inv(s) && Enabled(s, Act(id, action)) && job in s.flags && job in s.loops && FlagsMean(s, job)
    ensures FlagsMean(Next(s, Act(id, action)), job)
  {
    var r := s.runs[id];
    assert RunOk(s, id);
    ActedMeans(s, id, action, EffectOf(action, r.phase, s.flags[r.job], s.cancelled), job);
  }

  lemma ActedMeans(s: State, id: nat, action: Action, e: Effect, job: nat)
    requires id in s.runs && s.runs[id].job in s.history && s.runs[id].job in s.flags && job in s.flags &&
      job in s.loops
    requires FlagsMean(s, job) && Fits(s.runs[id].phase, s.flags[s.runs[id].job])
    requires Possible(action, s.runs[id].phase, true, s.cancelled)
    requires e == EffectOf(action, s.runs[id].phase, s.flags[s.runs[id].job], s.cancelled)
    ensures FlagsMean(Acted(s, id, e), job)
  {
    var r, t := s.runs[id], Acted(s, id, e);
    ActionMeans(action, r.phase, s.flags[r.job], s.cancelled);
    if job == r.job && Busy(r.phase) {
      assert RunIn(t, id, job);
    } else {
      WitnessesStay(s, t, id, job);
    }
  }

  /** Witnesses other than a run that is not busy, or that is of another job, stay. */
  lemma WitnessesStay(s: State, t: State, id: nat, job: nat)
    requires forall k | k in s.runs && k != id :: k in t.runs && t.runs[k] == s.runs[k]
    requires id in s.runs ==> s.runs[id].job != job || !Busy(s.runs[id].phase)
    ensures HasWaiting(s, job) ==> HasWaiting(t, job)
    ensures HasRunning(s, job) ==> HasRunning(t, job)
  {
    if k :| RunIn(s, k, job) && WaitPhase(s.runs[k].phase) {
      assert RunIn(t, k, job);
    }
    if k :| RunIn(s, k, job) && RunPhase(s.runs[k].phase) {
      assert RunIn(t, k, job);
    }
  }

  lemma FireMeans(s: State, j: nat, job: nat)
    requires Enabled(s, Fire(j)) && job in s.flags && job in s.loops && FlagsMean(s, job)
    ensures job in Next(s, Fire(j)).flags && job in Next(s, Fire(j)).loops && FlagsMean(Next(s, Fire(j)), job)
  {
    SameWitnesses(s, Next(s, Fire(j)), job);
  }

  lemma LoopMeans(s: State, step: Step, j: nat, job: nat)
    requires Enabled(s, step) && (step == CountRun(j) || step == ExitLoop(j))
    requires job in s.flags && job in s.loops && FlagsMean(s, job)
    ensures job in Next(s, step).flags && job in Next(s, step).loops && FlagsMean(Next(s, step), job)
  {
    SameWitnesses(s, Next(s, step), job);
  }

  lemma SpawnMeans(s: State, j: nat, id: nat, job: nat)
    requires Enabled(s, Spawn(j, id)) && job in s.flags && job in s.loops && FlagsMean(s, job)
    ensures job in Next(s, Spawn(j, id)).flags && job in Next(s, Spawn(j, id)).loops
    ensures FlagsMean(Next(s, Spawn(j, id)), job)
  {
    var t := Next(s, Spawn(j, id));
    WitnessesStay(s, t, id, job);
    assert RunIn(t, id, j);
  }

  lemma FinishMeans(s: State, id: nat, job: nat)
    requires Enabled(s, Finish(id)) && job in s.flags && job in s.loops && FlagsMean(s, job)
    ensures FlagsMean(Next(s, Finish(id)), job)
  {
    WitnessesStay(s, Next(s, Finish(id)), id, job);
  }

  lemma QuietMeans(s: State, t: State, job: nat)
    requires job in s.flags && job in s.loops && FlagsMean(s, job)
    requires t.runs == s.runs && t.flags == s.flags && t.loops == s.loops
    ensures FlagsMean(t, job)
  {
    SameWitnesses(s, t, job);
  }

  lemma OtherMeans(s: State, step: Step, job: nat)
    requires Inv(s) && Enabled(s, step) && !step.Act? && job in s.flags && job in s.loops && FlagsMean(s, job)
    ensures job in Next(s, step).flags && job in Next(s, step).loops && FlagsMean(Next(s, step), job)
  {
    match step
    case Start => StartMeans(s, job);
    case Fire(j) => FireMeans(s, j, job);
    case CountRun(j) => LoopMeans(s, step, j, job);
    case ExitLoop(j) => LoopMeans(s, step, j, job);
    case Spawn(j, id) => SpawnMeans(s, j, id, job);
    case Finish(id) => FinishMeans(s, id, job);
    case Cancel => QuietMeans(s, Next(s, step), job);
    case CallWait => QuietMeans(s, Next(s, step), job);
    case LoopsDone => QuietMeans(s, Next(s, step), job);
    case RunsDone => QuietMeans(s, Next(s, step), job);
  }

  lemma SameWitnesses(s: State, t: State, job: nat)
    requires t.runs == s.runs
    ensures HasWaiting(s, job) ==> HasWaiting(t, job)
    ensures HasRunning(s, job) ==> HasRunning(t, job)
  {
    if k :| RunIn(s, k, job) && WaitPhase(s.runs[k].phase) {
      assert RunIn(t, k, job);
    }
    if k :| RunIn(s, k, job) && RunPhase(s.runs[k].phase) {
      assert RunIn(t, k, job);
    }
  }

  /** Before the start no flag is set. */
  lemma StartMeans(s: State, job: nat)
    requires Inv(s) && !s.started && job in s.flags && job in s.loops && FlagsMean(s, job)
    ensures FlagsMean(Next(s, Start), job)
  {
    NothingCounted(s);
  }

  lemma StepMeans(s: State, step: Step)
    requires Inv(s) && Means(s) && Enabled(s, step)
    ensures Means(Next(s, step))
  {
    SameJobs(s, step);
    var t := Next(s, step);
    forall job | job in t.flags ensures FlagsMean(t, job) {
      assert FlagsMean(s, job);
      if step.Act? {
        ActMeans(s, step.id, step.action, job);
      } else {
        OtherMeans(s, step, job);
      }
    }
  }

  lemma SameJobs(s: State, step: Step)
    requires Inv(s) && Enabled(s, step)
    ensures Next(s, step).flags.Keys == s.flags.Keys && Next(s, step).loops.Keys == s.loops.Keys
  {
    JobsStay(s, step);
    StepInv(s, step);
  }

  lemma InitMeans(s: State)
    requires Init(s)
    ensures Means(s)
  {
    forall job | job in s.flags ensures FlagsMean(s, job) {
      assert s.flags[job] == Flags(false, false, false);
    }
  }

  /** In every reachable state the flags mean what they say. */
  lemma {:induction false} TraceMeans(states: seq<State>, steps: seq<Step>, i: nat)
    requires Trace(states, steps) && i < |states|
    ensures Means(states[i])
  {
    if i == 0 {
      InitMeans(states[0]);
    } else {
      TraceMeans(states, steps, i - 1);
      TraceInv(states, steps, i - 1);
      assert Follows(states, steps, i - 1);
      StepMeans(states[i - 1], steps[i - 1]);
    }
  }

  // ----- Steps that follow each other -----

  /** The steps are enabled one after the other and lead from `s` to `t`. */
  ghost predicate Leads(s: State, steps: seq<Step>, t: State) {
    exists states: seq<State> :: PathTo(states, steps, s, t)
  }

  ghost predicate PathTo(states: seq<State>, steps: seq<Step>, s: State, t: State) {
    Path(states, steps) && states[0] == s && states[|steps|] == t
  }

  lemma LeadsNowhere(s: State)
    ensures Leads(s, [], s)
  {
    assert PathTo([s], [], s, s);
  }

  lemma LeadsOn(s: State, step: Step, rest: seq<Step>, t: State)
    requires Enabled(s, step) && Leads(Next(s, step), rest, t)
    ensures Leads(s, [step] + rest, t)
  {
    var more: seq<State> :| PathTo(more, rest, Next(s, step), t);
    var states, steps := [s] + more, [step] + rest;
    forall i | 0 <= i < |steps| ensures Follows(states, steps, i) {
      assert i > 0 ==> Follows(more, rest, i - 1);
    }
    assert PathTo(states, steps, s, t);
  }

  lemma LeadsFurther(s: State, a: seq<Step>, m: State, b: seq<Step>, t: State)
    requires Leads(s, a, m) && Leads(m, b, t)
    ensures Leads(s, a + b, t)
  {
    var first: seq<State> :| PathTo(first, a, s, m);
    var more: seq<State> :| PathTo(more, b, m, t);
    var states, steps := first + more[1..], a + b;
    forall i | 0 <= i < |steps| ensures Follows(states, steps, i) {
      assert i < |a| ==> Follows(first, a, i);
      assert i >= |a| ==> Follows(more, b, i - |a|);
    }
    assert PathTo(states, steps, s, t);
  }

  lemma FollowsInv(s: State, step: Step, t: State)
    requires Inv(s) && Enabled(s, step) && t == Next(s, step)
    ensures Inv(t)
  {
    StepInv(s, step);
  }

  // ----- When a tick starts a run -----

  lemma BusyIsFlagged(s: State, job: nat)
    requires Inv(s) && Means(s) && LoopAt(s, job, Looping)
    ensures job in s.flags
    ensures s.flags[job].waiting || s.flags[job].running <==> HasBusy(s, job)
  {
    assert FlagsMean(s, job);
    if id :| RunIn(s, id, job) && Busy(s.runs[id].phase) {
      assert RunOk(s, id);
    }
    if id :| RunIn(s, id, job) && WaitPhase(s.runs[id].phase) {
      assert Busy(s.runs[id].phase);
    }
    if id :| RunIn(s, id, job) && RunPhase(s.runs[id].phase) {
      assert Busy(s.runs[id].phase);
    }
  }

  /** The state with one more queued run of the job. */
  function Ticked(s: State, job: nat, id: nat): State
    requires job in s.flags
  {
    s.(runs := s.runs[id := Run(job, Queued)], flags := s.flags[job := s.flags[job].(waiting := true)],
       runGroup := s.runGroup + 1)
  }

  lemma TickLeads(s: State, job: nat, id: nat)
    requires LoopAt(s, job, Looping) && job in s.flags && id !in s.runs
    requires !s.flags[job].waiting && !s.flags[job].running
    ensures Leads(s, [Fire(job), CountRun(job), Spawn(job, id)], Ticked(s, job, id))
  {
    var s1 := Next(s, Fire(job));
    var s2 := Next(s1, CountRun(job));
    var s3 := Next(s2, Spawn(job, id));
    assert s3.loops == s.loops;
    assert s3 == Ticked(s, job, id);
    LeadsNowhere(s3);
    LeadsOn(s2, Spawn(job, id), [], s3);
    LeadsOn(s1, CountRun(job), [Spawn(job, id)] + [], s3);
    LeadsOn(s, Fire(job), [CountRun(job)] + ([Spawn(job, id)] + []), s3);
    assert [Fire(job)] + ([CountRun(job)] + ([Spawn(job, id)] + [])) == [Fire(job), CountRun(job), Spawn(job, id)];
  }

  /** In every reachable state a tick of a waiting loop is skipped exactly when a run of its job is
      queued or executing, whatever other jobs do and however many slots are free; otherwise the
      loop goes on to start one, and nothing else changes. */
  lemma TickStartsRunUnlessBusy(states: seq<State>, steps: seq<Step>, i: nat, job: nat, id: nat)
    requires Trace(states, steps) && i < |states| && LoopAt(states[i], job, Looping) && id !in states[i].runs
    ensures var s := states[i];
      && Enabled(s, Fire(job)) && job in s.flags
      && (Next(s, Fire(job)) == s <==> HasBusy(s, job))
      && (!HasBusy(s, job) ==> Leads(s, [Fire(job), CountRun(job), Spawn(job, id)], Ticked(s, job, id)))
  {
    TraceInv(states, steps, i);
    TraceMeans(states, steps, i);
    BusyIsFlagged(states[i], job);
    if !HasBusy(states[i], job) {
      TickLeads(states[i], job, id);
    }
  }

  // ----- How a run goes on -----

  /** The state with the run in a phase, these flags and this history of its job, and so many
      more slots taken. */
  function At(s: State, id: nat, p: Phase, f: Flags, slots: int, h: seq<Outcome>): State
    requires id in s.runs
  {
    var job := s.runs[id].job;
    s.(runs := s.runs[id := Run(job, p)], flags := s.flags[job := f], semaphore := s.semaphore + slots,
       history := s.history[job := h])
  }

  lemma AtItself(s: State, id: nat)
    requires id in s.runs && s.runs[id].job in s.flags && s.runs[id].job in s.history
    ensures At(s, id, s.runs[id].phase, s.flags[s.runs[id].job], 0, s.history[s.runs[id].job]) == s
  {
    var job := s.runs[id].job;
    assert s.runs[id := s.runs[id]] == s.runs && s.flags[job := s.flags[job]] == s.flags;
    assert s.history[job := s.history[job]] == s.history;
  }

  lemma ActedAt(s: State, id: nat, p: Phase, f: Flags, slots: int, h: seq<Outcome>, e: Effect)
    requires id in s.runs
    ensures var a := At(s, id, p, f, slots, h);
      && id in a.runs && a.runs[id] == Run(s.runs[id].job, p) && a.runs[id].job in a.history
      && Acted(a, id, e) == At(s, id, e.phase, e.flags, slots + e.slots, h + e.outcomes)
  {
    var a, job := At(s, id, p, f, slots, h), s.runs[id].job;
    assert a.runs[id := Run(job, e.phase)] == s.runs[id := Run(job, e.phase)];
    assert a.flags[job := e.flags] == s.flags[job := e.flags];
    assert a.history[job := h + e.outcomes] == s.history[job := h + e.outcomes];
  }

  lemma ActIs(a: State, id: nat, action: Action, e: Effect)
    requires id in a.runs && a.runs[id].job in a.flags && a.runs[id].job in a.history
    requires Possible(action, a.runs[id].phase, a.semaphore < a.limit, a.cancelled)
    requires EffectOf(action, a.runs[id].phase, a.flags[a.runs[id].job], a.cancelled) == e
    ensures Enabled(a, Act(id, action)) && Next(a, Act(id, action)) == Acted(a, id, e)
  {
  }

  lemma ActGoes(s: State, id: nat, action: Action, p: Phase, f: Flags, slots: int, h: seq<Outcome>, e: Effect)
    requires id in s.runs && Possible(action, p, s.semaphore + slots < s.limit, s.cancelled)
    requires EffectOf(action, p, f, s.cancelled) == e
    ensures Enabled(At(s, id, p, f, slots, h), Act(id, action))
    ensures Next(At(s, id, p, f, slots, h), Act(id, action))
         == At(s, id, e.phase, e.flags, slots + e.slots, h + e.outcomes)
  {
    ActedAt(s, id, p, f, slots, h, e);
    ActIs(At(s, id, p, f, slots, h), id, action, e);
  }

  /** An action, and what follows it. */
  lemma ActOn(s: State, id: nat, action: Action, p: Phase, f: Flags, slots: int, h: seq<Outcome>, e: Effect,
              rest: seq<Step>, t: State)
    requires id in s.runs && Possible(action, p, s.semaphore + slots < s.limit, s.cancelled)
    requires EffectOf(action, p, f, s.cancelled) == e
    requires Leads(At(s, id, e.phase, e.flags, slots + e.slots, h + e.outcomes), rest, t)
    ensures Leads(At(s, id, p, f, slots, h), [Act(id, action)] + rest, t)
  {
    ActGoes(s, id, action, p, f, slots, h, e);
    LeadsOn(At(s, id, p, f, slots, h), Act(id, action), rest, t);
  }

  /** The state without the run. */
  function Gone(s: State, id: nat, f: Flags, slots: int, h: seq<Outcome>): State
    requires id in s.runs
  {
    var job := s.runs[id].job;
    s.(runs := s.runs - {id}, flags := s.flags[job := f], semaphore := s.semaphore + slots,
       runGroup := s.runGroup - 1, history := s.history[job := h])
  }

  lemma FinishOn(s: State, id: nat, f: Flags, slots: int, h: seq<Outcome>)
    requires id in s.runs
    ensures Leads(At(s, id, Finishing, f, slots, h), [Finish(id)], Gone(s, id, f, slots, h))
  {
    var a := At(s, id, Finishing, f, slots, h);
    assert a.runs - {id} == s.runs - {id};
    assert Next(a, Finish(id)) == Gone(s, id, f, slots, h);
    LeadsNowhere(Gone(s, id, f, slots, h));
    LeadsOn(a, Finish(id), [], Gone(s, id, f, slots, h));
    assert [Finish(id)] + [] == [Finish(id)];
  }

  lemma Nothing(h: seq<Outcome>)
    ensures h + [] == h
  {
  }

  /** A queued run that finds a free slot while nothing is cancelled comes to execute. */
  lemma QueuedComesToExecute(s: State, id: nat)
    requires FlagsInv(s) && id in s.runs && s.runs[id].phase == Queued && s.semaphore < s.limit && !s.cancelled
    ensures s.runs[id].job in s.flags && s.runs[id].job in s.history
    ensures var f := s.flags[s.runs[id].job];
      Leads(s, [Act(id, Acquire), Act(id, Check), Act(id, Enter)],
            At(s, id, Executing(false), f.(waiting := false, running := true), 1, s.history[s.runs[id].job]))
  {
    assert RunOk(s, id);
    AtItself(s, id);
    var f, h := s.flags[s.runs[id].job], s.history[s.runs[id].job];
    var g := f.(waiting := false, running := true);
    var t := At(s, id, Executing(false), g, 1, h);
    Nothing(h);
    LeadsNowhere(t);
    ActOn(s, id, Enter, Admitted(false), f, 1, h, Effect(Executing(false), g, 0, []), [], t);
    ActOn(s, id, Check, Holding(false), f, 1, h, Effect(Admitted(false), f, 0, []), [Act(id, Enter)] + [], t);
    ActOn(s, id, Acquire, Queued, f, 0, h, Effect(Holding(false), f, 1, []),
          [Act(id, Check)] + ([Act(id, Enter)] + []), t);
    assert [Act(id, Acquire)] + ([Act(id, Check)] + ([Act(id, Enter)] + []))
        == [Act(id, Acquire), Act(id, Check), Act(id, Enter)];
  }

  /** What a callback that ends while nothing is cancelled adds to the history of its job. */
  function OutcomeOf(h: seq<Outcome>, err: bool, timedOut: bool): seq<Outcome> {
    if err then [if InEpisode(h) then SuppressedFailure else ReportedFailure]
    else if timedOut then []
    else [Success]
  }

  lemma RecordEffect(f: Flags, h: seq<Outcome>, err: bool, timedOut: bool)
    requires f.failureEpisode == InEpisode(h)
    ensures EffectOf(Record, Returned(err, !err && !timedOut), f, false)
         == Effect(Cleared, Flags(f.waiting, false, InEpisode(h + OutcomeOf(h, err, timedOut))), 0,
                   OutcomeOf(h, err, timedOut))
  {
    Nothing(h);
  }

  /** An executing run whose callback ends while nothing is cancelled records a failure exactly
      when there was an error, reported exactly when the last outcome was none, and a success
      exactly when there was neither error nor timeout; it gives back its slot, leaves its job
      idle, and is gone. */
  lemma ExecutingComesToEnd(s: State, id: nat, late: bool, err: bool, timedOut: bool)
    requires FlagsInv(s) && id in s.runs && s.runs[id].phase == Executing(late) && !s.cancelled
    ensures s.runs[id].job in s.history
    ensures var h := s.history[s.runs[id].job] + OutcomeOf(s.history[s.runs[id].job], err, timedOut);
      Leads(s, [Act(id, Return(err, timedOut)), Act(id, Record), Act(id, Release), Finish(id)],
            Gone(s, id, Flags(false, false, InEpisode(h)), -1, h))
  {
    assert RunOk(s, id) && JobOk(s, s.runs[id].job);
    AtItself(s, id);
    var f, h := s.flags[s.runs[id].job], s.history[s.runs[id].job];
    var out := OutcomeOf(h, err, timedOut);
    var g := Flags(false, false, InEpisode(h + out));
    var t := Gone(s, id, g, -1, h + out);
    var returned := Returned(err, !err && !timedOut);
    Nothing(h);
    Nothing(h + out);
    FinishOn(s, id, g, -1, h + out);
    ActOn(s, id, Release, Cleared, g, 0, h + out, Effect(Finishing, g, -1, []), [Finish(id)], t);
    RecordEffect(f, h, err, timedOut);
    ActOn(s, id, Record, returned, f, 0, h, Effect(Cleared, g, 0, out), [Act(id, Release)] + [Finish(id)], t);
    ActOn(s, id, Return(err, timedOut), Executing(late), f, 0, h, Effect(returned, f, 0, []),
          [Act(id, Record)] + ([Act(id, Release)] + [Finish(id)]), t);
    assert [Act(id, Return(err, timedOut))] + ([Act(id, Record)] + ([Act(id, Release)] + [Finish(id)]))
        == [Act(id, Return(err, timedOut)), Act(id, Record), Act(id, Release), Finish(id)];
  }

  // ----- After cancellation -----

  /** A run that is queued when everything is cancelled gives up without executing. */
  lemma QueuedGivesUp(s: State, id: nat)
    requires FlagsInv(s) && id in s.runs && s.runs[id].phase == Queued && s.cancelled
    ensures s.runs[id].job in s.flags && s.runs[id].job in s.history
    ensures Leads(s, [Act(id, GiveUp), Act(id, ClearWaiting), Finish(id)],
                  Gone(s, id, s.flags[s.runs[id].job].(waiting := false), 0, s.history[s.runs[id].job]))
  {
    assert RunOk(s, id);
    AtItself(s, id);
    var f, h := s.flags[s.runs[id].job], s.history[s.runs[id].job];
    var g := f.(waiting := false);
    var t := Gone(s, id, g, 0, h);
    Nothing(h);
    FinishOn(s, id, g, 0, h);
    ActOn(s, id, ClearWaiting, Abandoned, f, 0, h, Effect(Finishing, g, 0, []), [Finish(id)], t);
    ActOn(s, id, GiveUp, Queued, f, 0, h, Effect(Abandoned, f, 0, []), [Act(id, ClearWaiting)] + [Finish(id)], t);
    assert [Act(id, GiveUp)] + ([Act(id, ClearWaiting)] + [Finish(id)])
         == [Act(id, GiveUp), Act(id, ClearWaiting), Finish(id)];
  }

  /** The action by which a run goes on after cancellation. */
  function EndingAction(p: Phase): Action
    requires !p.Finishing?
  {
    match p
    case Queued => GiveUp
    case Holding(_) => Check
    case Refused => Refuse
    case Abandoned => ClearWaiting
    case Admitted(_) => Enter
    case Executing(_) => Return(false, false)
    case Returned(_, _) => Record
    case Cleared => Release
  }

  /** How far a run is from its end. */
  function Distance(p: Phase): nat {
    match p
    case Finishing => 0
    case Cleared => 1
    case Abandoned => 1
    case Returned(_, _) => 2
    case Refused => 2
    case Queued => 2
    case Executing(_) => 3
    case Admitted(_) => 4
    case Holding(_) => 5
  }

  lemma EndingGoes(p: Phase, f: Flags)
    requires !p.Finishing?
    ensures Possible(EndingAction(p), p, false, true)
    ensures Distance(EffectOf(EndingAction(p), p, f, true).phase) < Distance(p)
  {
  }

  /** The states differ in runs, flags, slots and histories only, and in these by the run that has gone. */
  ghost predicate WithoutRun(s: State, id: nat, t: State) {
    && t.runs == s.runs - {id} && t.loops == s.loops && t.cancelled == s.cancelled && t.started == s.started
    && t.waiter == s.waiter
  }

  /** Only the run itself differs, and flags, slots and histories. */
  ghost predicate RunMoved(s: State, id: nat, p: Phase, m: State)
    requires id in s.runs
  {
    && m.runs == s.runs[id := Run(s.runs[id].job, p)] && m.loops == s.loops && m.cancelled == s.cancelled
    && m.started == s.started && m.waiter == s.waiter
  }

  lemma MovedThenGone(s: State, id: nat, p: Phase, m: State, t: State)
    requires id in s.runs && RunMoved(s, id, p, m) && WithoutRun(m, id, t)
    ensures WithoutRun(s, id, t)
  {
    assert m.runs - {id} == s.runs - {id};
  }

  lemma EndingStep(s: State, id: nat) returns (step: Step, p: Phase, m: State)
    requires FlagsInv(s) && s.cancelled && id in s.runs && !s.runs[id].phase.Finishing?
    ensures Enabled(s, step) && m == Next(s, step)
    ensures RunMoved(s, id, p, m) && Distance(p) < Distance(s.runs[id].phase)
  {
    assert RunOk(s, id);
    var r := s.runs[id];
    var e := EffectOf(EndingAction(r.phase), r.phase, s.flags[r.job], true);
    step, p, m := Act(id, EndingAction(r.phase)), e.phase, Acted(s, id, e);
    EndingGoes(r.phase, s.flags[r.job]);
    ActIs(s, id, EndingAction(r.phase), e);
  }

  lemma FinishIs(s: State, id: nat) returns (t: State)
    requires Inv(s) && id in s.runs && s.runs[id].phase == Finishing
    ensures Enabled(s, Finish(id)) && t == Next(s, Finish(id)) && WithoutRun(s, id, t)
  {
    t := Next(s, Finish(id));
  }

  /** After cancellation every run comes to its end, whatever the others do. */
  lemma {:induction false} RunEnds(s: State, id: nat) returns (steps: seq<Step>, t: State)
    requires Inv(s) && s.cancelled && id in s.runs
    ensures Leads(s, steps, t) && Inv(t) && WithoutRun(s, id, t)
    decreases Distance(s.runs[id].phase)
  {
    if s.runs[id].phase.Finishing? {
      t := FinishIs(s, id);
      steps := [Finish(id)] + [];
      FollowsInv(s, Finish(id), t);
      LeadsNowhere(t);
      LeadsOn(s, Finish(id), [], t);
    } else {
      var step, p, m := EndingStep(s, id);
      FollowsInv(s, step, m);
      var rest;
      rest, t := RunEnds(m, id);
      steps := [step] + rest;
      LeadsOn(s, step, rest, t);
      MovedThenGone(s, id, p, m, t);
    }
  }

  /** The loop has exited; at most one run has been added. */
  ghost predicate WithoutLoop(s: State, job: nat, t: State) {
    && t.loops == s.loops[job := Exited] && t.cancelled == s.cancelled && t.started == s.started && t.waiter == s.waiter
  }

  predicate Active(loop: Loop) {
    loop != NotStarted && loop != Exited
  }

  lemma ExitIs(s: State, job: nat) returns (t: State)
    requires LoopAt(s, job, Looping) && s.cancelled
    ensures Enabled(s, ExitLoop(job)) && t == Next(s, ExitLoop(job)) && WithoutLoop(s, job, t)
  {
    t := Next(s, ExitLoop(job));
  }

  lemma SpawnIs(s: State, job: nat, id: nat) returns (t: State)
    requires LoopAt(s, job, Counted) && id !in s.runs
    ensures Enabled(s, Spawn(job, id)) && t == Next(s, Spawn(job, id)) && LoopAt(t, job, Looping)
    ensures t.loops == s.loops[job := Looping] && t.cancelled == s.cancelled && t.started == s.started &&
      t.waiter == s.waiter
  {
    t := Next(s, Spawn(job, id));
  }

  lemma CountIs(s: State, job: nat) returns (t: State)
    requires LoopAt(s, job, Marked)
    ensures Enabled(s, CountRun(job)) && t == Next(s, CountRun(job)) && LoopAt(t, job, Counted) && t.runs == s.runs
    ensures t.loops == s.loops[job := Counted] && t.cancelled == s.cancelled && t.started == s.started &&
      t.waiter == s.waiter
  {
    t := Next(s, CountRun(job));
  }

  /** How far a loop is from leaving. */
  function Stage(loop: Loop): nat {
    match loop
    case Marked => 3
    case Counted => 2
    case Looping => 1
    case _ => 0
  }

  /** Only the loop has moved, and maybe a run been added. */
  ghost predicate LoopMoved(s: State, job: nat, loop: Loop, m: State) {
    && m.loops == s.loops[job := loop] && m.cancelled == s.cancelled && m.started == s.started && m.waiter == s.waiter
  }

  lemma MovedThenExited(s: State, job: nat, loop: Loop, m: State, t: State)
    requires LoopMoved(s, job, loop, m) && WithoutLoop(m, job, t)
    ensures WithoutLoop(s, job, t)
  {
    assert s.loops[job := loop][job := Exited] == s.loops[job := Exited];
  }

  lemma LoopStep(s: State, job: nat) returns (step: Step, loop: Loop, m: State)
    requires s.cancelled && job in s.loops && Active(s.loops[job])
    ensures Enabled(s, step) && m == Next(s, step)
    ensures LoopMoved(s, job, loop, m) && Stage(loop) < Stage(s.loops[job]) && loop != NotStarted
  {
    match s.loops[job]
    case Looping =>
      m := ExitIs(s, job);
      step, loop := ExitLoop(job), Exited;
    case Counted =>
      var id := FreshId(s.runs.Keys);
      m := SpawnIs(s, job, id);
      step, loop := Spawn(job, id), Looping;
    case Marked =>
      m := CountIs(s, job);
      step, loop := CountRun(job), Counted;
  }

  lemma {:induction false} FreshId(ids: set<nat>) returns (id: nat)
    ensures id !in ids
    ensures forall k | k in ids :: k < id
  {
    if ids == {} {
      id := 0;
    } else {
      var k :| k in ids;
      var above := FreshId(ids - {k});
      id := if k < above then above else k + 1;
      forall x | x in ids ensures x < id {
        assert x == k || x in ids - {k};
      }
    }
  }

  lemma {:induction false} LoopExits(s: State, job: nat) returns (steps: seq<Step>, t: State)
    requires Inv(s) && s.cancelled && job in s.loops && Active(s.loops[job])
    ensures Leads(s, steps, t) && Inv(t) && WithoutLoop(s, job, t)
    decreases Stage(s.loops[job])
  {
    var step, loop, m := LoopStep(s, job);
    FollowsInv(s, step, m);
    if Active(loop) {
      var rest;
      rest, t := LoopExits(m, job);
      steps := [step] + rest;
      LeadsOn(s, step, rest, t);
      MovedThenExited(s, job, loop, m, t);
    } else {
      steps, t := [step] + [], m;
      LeadsNowhere(m);
      LeadsOn(s, step, [], t);
    }
  }

  lemma ExitedLoops(s: State, job: nat, t: State)
    requires job in ActiveLoops(s) && WithoutLoop(s, job, t)
    ensures |ActiveLoops(t)| < |ActiveLoops(s)|
  {
    assert ActiveLoops(t) == ActiveLoops(s) - {job};
    Sizes(ActiveLoops(s), job);
  }

  lemma {:induction false} LoopsEnd(s: State) returns (steps: seq<Step>, t: State)
    requires Inv(s) && s.cancelled
    ensures Leads(s, steps, t) && Inv(t) && ActiveLoops(t) == {}
    ensures t.started == s.started && t.waiter == s.waiter && t.cancelled
    decreases |ActiveLoops(s)|
  {
    if job :| job in ActiveLoops(s) {
      var first, m := LoopExits(s, job);
      ExitedLoops(s, job, m);
      var rest;
      rest, t := LoopsEnd(m);
      steps := first + rest;
      LeadsFurther(s, first, m, rest, t);
    } else {
      steps, t := [], s;
      LeadsNowhere(s);
    }
  }

  lemma {:induction false} RunsEnd(s: State) returns (steps: seq<Step>, t: State)
    requires Inv(s) && s.cancelled
    ensures Leads(s, steps, t) && Inv(t) && t.runs == map[] && t.loops == s.loops
    ensures t.started == s.started && t.waiter == s.waiter
    decreases |s.runs|
  {
    if id :| id in s.runs {
      var first, m := RunEnds(s, id);
      Removed(s.runs, id);
      var rest;
      rest, t := RunsEnd(m);
      steps := first + rest;
      LeadsFurther(s, first, m, rest, t);
    } else {
      steps, t := [], s;
      LeadsNowhere(s);
    }
  }

  /** After cancellation everything comes to its end: from every reachable state steps lead to one
      in which no loop is active and no run is left. */
  lemma EverythingEnds(s: State) returns (steps: seq<Step>, t: State)
    requires Inv(s) && s.cancelled
    ensures Leads(s, steps, t) && Inv(t) && t.runs == map[] && ActiveLoops(t) == {}
    ensures t.started == s.started && t.waiter == s.waiter
  {
    var first, m := LoopsEnd(s);
    var rest;
    rest, t := RunsEnd(m);
    steps := first + rest;
    LeadsFurther(s, first, m, rest, t);
    assert ActiveLoops(t) == ActiveLoops(m);
  }

  /** A `Wait` after start and cancellation can return, and then nothing is left. */
  lemma WaitCanReturn(s: State) returns (steps: seq<Step>, t: State)
    requires Inv(s) && s.cancelled && s.started && s.waiter == NotWaiting
    ensures Leads(s, steps, t) && t.waiter == WaitReturned(true) && t.runs == map[] && ActiveLoops(t) == {}
  {
    var first, m := EverythingEnds(s);
    assert m.loopGroup == 0 && m.runGroup == 0 by {
      assert CountedLoops(m) <= ActiveLoops(m);
    }
    var rest;
    rest, t := IdleWait(m);
    steps := first + rest;
    LeadsFurther(s, first, m, rest, t);
  }

  lemma IdleWait(s: State) returns (steps: seq<Step>, t: State)
    requires s.loopGroup == 0 && s.runGroup == 0 && s.started && s.waiter == NotWaiting
    ensures Leads(s, steps, t) && t == s.(waiter := WaitReturned(true))
  {
    var s1 := Next(s, CallWait);
    var s2 := Next(s1, LoopsDone);
    t := Next(s2, RunsDone);
    LeadsNowhere(t);
    LeadsOn(s2, RunsDone, [], t);
    LeadsOn(s1, LoopsDone, [RunsDone] + [], t);
    LeadsOn(s, CallWait, [LoopsDone] + ([RunsDone] + []), t);
    steps := [CallWait] + ([LoopsDone] + ([RunsDone] + []));
  }

  /** A callback that ends after cancellation records nothing, whatever it returned. */
  lemma CancelledRunRecordsNothing(s: State, id: nat, late: bool, err: bool, timedOut: bool)
    requires FlagsInv(s) && id in s.runs && s.runs[id].phase == Executing(late) && s.cancelled
    ensures s.runs[id].job in s.history
    ensures var h := s.history[s.runs[id].job];
      Leads(s, [Act(id, Return(err, timedOut)), Act(id, Record), Act(id, Release), Finish(id)],
            Gone(s, id, Flags(false, false, InEpisode(h)), -1, h))
  {
    assert RunOk(s, id) && JobOk(s, s.runs[id].job);
    AtItself(s, id);
    var f, h := s.flags[s.runs[id].job], s.history[s.runs[id].job];
    var g := Flags(false, false, InEpisode(h));
    var t := Gone(s, id, g, -1, h);
    Nothing(h);
    FinishOn(s, id, g, -1, h);
    ActOn(s, id, Release, Cleared, g, 0, h, Effect(Finishing, g, -1, []), [Finish(id)], t);
    ActOn(s, id, Record, Returned(false, false), f, 0, h, Effect(Cleared, g, 0, []),
          [Act(id, Release)] + [Finish(id)], t);
    ActOn(s, id, Return(err, timedOut), Executing(late), f, 0, h, Effect(Returned(false, false), f, 0, []),
          [Act(id, Record)] + ([Act(id, Release)] + [Finish(id)]), t);
    assert [Act(id, Return(err, timedOut))] + ([Act(id, Record)] + ([Act(id, Release)] + [Finish(id)]))
        == [Act(id, Return(err, timedOut)), Act(id, Record), Act(id, Release), Finish(id)];
  }

  // ----- What only cancellation does -----

  ghost predicate CancelledBefore(steps: seq<Step>, n: nat)
    requires n <= |steps|
  {
    exists k :: 0 <= k < n && steps[k] == Cancel
  }

  lemma StepCancels(s: State, step: Step)
    requires Enabled(s, step)
    ensures Next(s, step).cancelled <==> s.cancelled || step == Cancel
  {
    match step
    case Act(id, action) =>
    case _ =>
  }

  /** The context is cancelled exactly when somebody has cancelled it. */
  lemma {:induction false} CancelledExactly(states: seq<State>, steps: seq<Step>, n: nat)
    requires Trace(states, steps) && n < |states|
    ensures states[n].cancelled <==> CancelledBefore(steps, n)
  {
    if n > 0 {
      assert Follows(states, steps, n - 1);
      CancelledExactly(states, steps, n - 1);
      StepCancels(states[n - 1], steps[n - 1]);
      if states[n - 1].cancelled {
        var k :| 0 <= k < n - 1 && steps[k] == Cancel;
        assert CancelledBefore(steps, n);
      }
    }
  }

  /** A loop that has exited and a run that has given up are there only after cancellation. */
  ghost predicate GivesUpOnlyCancelled(s: State) {
    !s.cancelled ==>
      && (forall job | job in s.loops :: s.loops[job] != Exited)
      && (forall id | id in s.runs :: s.runs[id].phase != Abandoned && s.runs[id].phase != Refused)
  }

  lemma ActGivesUp(s: State, id: nat, action: Action)
    requires Enabled(s, Act(id, action)) && GivesUpOnlyCancelled(s)
    ensures GivesUpOnlyCancelled(Next(s, Act(id, action)))
  {
    var p, f := s.runs[id].phase, s.flags[s.runs[id].job];
    PhaseGivesUp(action, p, f, s.cancelled, s.semaphore < s.limit);
  }

  lemma PhaseGivesUp(action: Action, p: Phase, f: Flags, cancelled: bool, free: bool)
    requires Possible(action, p, free, cancelled) && (!cancelled ==> p != Abandoned && p != Refused)
    ensures var q := EffectOf(action, p, f, cancelled).phase; !cancelled ==> q != Abandoned && q != Refused
  {
  }

  lemma OtherGivesUp(s: State, step: Step)
    requires Enabled(s, step) && !step.Act? && GivesUpOnlyCancelled(s)
    ensures GivesUpOnlyCancelled(Next(s, step))
  {
    match step
    case Start =>
    case Cancel =>
    case Fire(job) =>
    case CountRun(job) =>
    case Spawn(job, id) =>
    case ExitLoop(job) =>
    case Finish(id) =>
    case CallWait =>
    case LoopsDone =>
    case RunsDone =>
  }

  /** Until somebody cancels, no loop exits and no queued run gives up. */
  lemma {:induction false} NothingGivesUpBefore(states: seq<State>, steps: seq<Step>, n: nat)
    requires Trace(states, steps) && n < |states|
    ensures GivesUpOnlyCancelled(states[n])
    ensures !CancelledBefore(steps, n) ==> !states[n].cancelled
  {
    CancelledExactly(states, steps, n);
    if n > 0 {
      assert Follows(states, steps, n - 1);
      NothingGivesUpBefore(states, steps, n - 1);
      if steps[n - 1].Act? {
        ActGivesUp(states[n - 1], steps[n - 1].id, steps[n - 1].action);
      } else {
        OtherGivesUp(states[n - 1], steps[n - 1]);
      }
    }
  }

  /** From every reachable state cancelling lets everything come to its end. */
  lemma CancellingEndsEverything(s: State) returns (steps: seq<Step>, t: State)
    requires Inv(s)
    ensures Leads(s, [Cancel] + steps, t) && t.runs == map[] && ActiveLoops(t) == {}
  {
    var m := Next(s, Cancel);
    FollowsInv(s, Cancel, m);
    steps, t := EverythingEnds(m);
    LeadsOn(s, Cancel, steps, t);
  }

  // ----- When the slot of a run was acquired -----

  /** The step that acquired the slot which run `id` has after `n` steps. */
  function AcquiredAt(steps: seq<Step>, n: nat, id: nat): Option<nat>
    requires n <= |steps|
  {
    if n == 0 then None else if steps[n - 1] == Act(id, Acquire) then Some(n - 1) else AcquiredAt(steps, n - 1, id)
  }

  predicate KeepsLate(p: Phase) {
    p.Holding? || p.Admitted? || p.Executing?
  }

  lemma PhaseKeepsLate(action: Action, p: Phase, f: Flags, cancelled: bool)
    requires Possible(action, p, true, cancelled)
    ensures var q := EffectOf(action, p, f, cancelled).phase;
      KeepsLate(q) ==> if action == Acquire then q.late == cancelled else KeepsLate(p) && q.late == p.late
  {
  }

  lemma OtherRunsStay(s: State, step: Step, id: nat)
    requires Enabled(s, step) && id in Next(s, step).runs && KeepsLate(Next(s, step).runs[id].phase)
    requires !(step.Act? && step.id == id)
    ensures id in s.runs && Next(s, step).runs[id] == s.runs[id]
  {
    match step
    case Act(i, action) =>
    case _ =>
  }

  lemma LateStays(s: State, step: Step, id: nat)
    requires Enabled(s, step) && id in Next(s, step).runs && KeepsLate(Next(s, step).runs[id].phase)
    ensures var p := Next(s, step).runs[id].phase;
      if step == Act(id, Acquire) then p.late == s.cancelled
      else id in s.runs && KeepsLate(s.runs[id].phase) && p.late == s.runs[id].phase.late
  {
    if step.Act? && step.id == id {
      PhaseKeepsLate(step.action, s.runs[id].phase, s.flags[s.runs[id].job], s.cancelled);
    } else {
      OtherRunsStay(s, step, id);
    }
  }

  /** What a run that has a slot remembers of the cancellation is what was so at the step that
      acquired the slot; so no callback executes whose slot was acquired after a cancellation. */
  lemma {:induction false} LateIsRemembered(states: seq<State>, steps: seq<Step>, n: nat, id: nat)
    requires Trace(states, steps) && n < |states| && id in states[n].runs && KeepsLate(states[n].runs[id].phase)
    ensures var a := AcquiredAt(steps, n, id);
      && a.Some? && a.value < n && states[n].runs[id].phase.late == states[a.value].cancelled
      && (states[n].runs[id].phase.Executing? ==> !CancelledBefore(steps, a.value))
  {
    assert n > 0 && Follows(states, steps, n - 1);
    LateStays(states[n - 1], steps[n - 1], id);
    if steps[n - 1] != Act(id, Acquire) {
      LateIsRemembered(states, steps, n - 1, id);
    }
    NoStartAfterCancel(states, steps, n, id);
    CancelledExactly(states, steps, AcquiredAt(steps, n, id).value);
  }
}
