/** The callers of the title-sync gate as processes: the scheduled task (runTitleSync in
    internal/app/task_sync.go) and the request handler (sync in internal/api/title/sync.go). */
module SyncCallers {
  import opened SyncGate

  datatype Kind = Task | Request

  /** What the syncer reports. */
  datatype Outcome = Synced | NotYet | Unavailable | Failed

  datatype Phase = Called | Syncing(attempt: Attempt) | Deleting | Done

  datatype Caller = Caller(kind: Kind, marker: string, phase: Phase)

  /** `log` is the history of the gate, which is `Run(markers, log)`. */
  datatype State = State(log: seq<Event>, callers: map<nat, Caller>)

  /** A call begins, asks the gate, gets the outcome of its sync, deletes the marker after a
      failed request; anyone may clear a marker at any time. */
  datatype Step =
    | Call(caller: nat, kind: Kind, marker: string)
    | Ask(caller: nat)
    | Report(caller: nat, outcome: Outcome)
    | Delete(caller: nat)
    | Clear(marker: string)

  predicate Init(s: State) {
    s == State([], map[])
  }

  predicate Enabled(s: State, step: Step) {
    match step
    case Call(p, _, _) => p !in s.callers
    case Ask(p) => p in s.callers && s.callers[p].phase.Called?
    case Report(p, _) => p in s.callers && s.callers[p].phase.Syncing?
    case Delete(p) => p in s.callers && s.callers[p].phase.Deleting?
    case Clear(_) => true
  }

  function Moved(s: State, p: nat, phase: Phase, events: seq<Event>): State
    requires p in s.callers
  {
    State(s.log + events, s.callers[p := s.callers[p].(phase := phase)])
  }

  function Next(markers: seq<string>, s: State, step: Step): State
    requires Enabled(s, step)
  {
    match step
    case Call(p, kind, marker) => s.(callers := s.callers[p := Caller(kind, marker, Called)])
    case Ask(p) =>
      var g, marker := Run(markers, s.log), s.callers[p].marker;
      if Admits(g, marker) then Moved(s, p, Syncing(Issued(g, marker)), [Began(Issued(g, marker))])
      else Moved(s, p, Done, [Refused(marker)])
    case Report(p, outcome) =>
      var c := s.callers[p];
      Moved(s, p, if c.kind.Request? && outcome.Failed? then Deleting else Done,
            [Finished(c.phase.attempt, outcome.Synced?)])
    case Delete(p) =>
      Moved(s, p, Done, if s.callers[p].marker in markers then [Cleared(s.callers[p].marker)] else [])
    case Clear(marker) => s.(log := s.log + [Cleared(marker)])
  }

  predicate Busy(s: State, p: nat) {
    p in s.callers && s.callers[p].phase.Syncing?
  }

  predicate InFlight(g: Gate, marker: string) {
    marker in g.states && g.states[marker].inFlight
  }

  /** A caller that syncs holds the current attempt of its marker. */
  ghost predicate HoldsAttempt(g: Gate, log: seq<Event>, c: Caller) {
    c.phase.Syncing? ==>
      && c.phase.attempt.marker == c.marker && Current(g, c.phase.attempt)
      && exists i :: BeganAt(log, i, c.phase.attempt)
  }

  ghost predicate Inv(markers: seq<string>, s: State) {
    && Faithful(markers, s.log)
    && (forall p | p in s.callers :: HoldsAttempt(Run(markers, s.log), s.log, s.callers[p]))
    && (forall p, q | Busy(s, p) && Busy(s, q) && s.callers[p].marker == s.callers[q].marker :: p == q)
    && (forall marker | InFlight(Run(markers, s.log), marker) ::
          exists p :: Busy(s, p) && s.callers[p].marker == marker)
  }

  lemma LogGrows(markers: seq<string>, log: seq<Event>, e: Event)
    requires Faithful(markers, log) && Answers(Run(markers, log), log, e)
    ensures Faithful(markers, log + [e]) && Run(markers, log + [e]) == Apply(Run(markers, log), e)
  {
    assert (log + [e])[..|log|] == log;
  }

  lemma AttemptStays(g: Gate, next: Gate, log: seq<Event>, e: Event, c: Caller)
    requires HoldsAttempt(g, log, c) && (c.phase.Syncing? ==> Current(next, c.phase.attempt))
    ensures HoldsAttempt(next, log + [e], c)
  {
    if c.phase.Syncing? {
      var i :| BeganAt(log, i, c.phase.attempt);
      assert BeganAt(log + [e], i, c.phase.attempt);
    }
  }

  /** A step that leaves the attempts in flight alone. */
  lemma QuietStep(markers: seq<string>, s: State, t: State, e: Event)
    requires Inv(markers, s) && t.log == s.log + [e] && Answers(Run(markers, s.log), s.log, e)
    requires e.Refused? || e.Cleared?
    requires forall p :: (Busy(t, p) <==> Busy(s, p)) && (Busy(s, p) ==> t.callers[p] == s.callers[p])
    ensures Inv(markers, t)
  {
    LogGrows(markers, s.log, e);
    var g := Run(markers, s.log);
    forall p | p in t.callers ensures HoldsAttempt(Apply(g, e), t.log, t.callers[p]) {
      if Busy(t, p) {
        assert Busy(s, p);
        AttemptStays(g, Apply(g, e), s.log, e, s.callers[p]);
      }
    }
    forall marker | InFlight(Apply(g, e), marker) ensures exists p :: Busy(t, p) && t.callers[p].marker == marker {
      assert InFlight(g, marker);
      var p :| Busy(s, p) && s.callers[p].marker == marker;
      assert Busy(t, p);
    }
  }

  /** A marker whose call is admitted is synced by nobody. */
  lemma AdmittedIsIdle(markers: seq<string>, s: State, p: nat, q: nat)
    requires Inv(markers, s) && Enabled(s, Ask(p)) && Admits(Run(markers, s.log), s.callers[p].marker)
    ensures !(Busy(s, q) && s.callers[q].marker == s.callers[p].marker)
  {
    if Busy(s, q) {
      assert HoldsAttempt(Run(markers, s.log), s.log, s.callers[q]);
    }
  }

  lemma AskedHold(markers: seq<string>, s: State, p: nat, q: nat)
    requires Inv(markers, s) && Enabled(s, Ask(p)) && Admits(Run(markers, s.log), s.callers[p].marker)
    requires q in s.callers
    ensures var g, t := Run(markers, s.log), Next(markers, s, Ask(p));
      HoldsAttempt(AfterBegin(g, s.callers[p].marker), t.log, t.callers[q])
  {
    var g, t := Run(markers, s.log), Next(markers, s, Ask(p));
    var a := Issued(g, s.callers[p].marker);
    if q == p {
      assert BeganAt(t.log, |s.log|, a);
    } else {
      AdmittedIsIdle(markers, s, p, q);
      assert HoldsAttempt(g, s.log, s.callers[q]);
      AttemptStays(g, AfterBegin(g, a.marker), s.log, Began(a), s.callers[q]);
    }
  }

  lemma AskedBusy(markers: seq<string>, s: State, p: nat, m: string)
    requires Inv(markers, s) && Enabled(s, Ask(p)) && Admits(Run(markers, s.log), s.callers[p].marker)
    requires InFlight(AfterBegin(Run(markers, s.log), s.callers[p].marker), m)
    ensures var t := Next(markers, s, Ask(p));
      exists q :: Busy(t, q) && t.callers[q].marker == m
  {
    var t := Next(markers, s, Ask(p));
    if m == s.callers[p].marker {
      assert Busy(t, p);
    } else {
      assert InFlight(Run(markers, s.log), m);
      var q :| Busy(s, q) && s.callers[q].marker == m;
      assert Busy(t, q);
    }
  }

  lemma AskInv(markers: seq<string>, s: State, p: nat)
    requires Inv(markers, s) && Enabled(s, Ask(p))
    ensures Inv(markers, Next(markers, s, Ask(p)))
  {
    var g, marker, t := Run(markers, s.log), s.callers[p].marker, Next(markers, s, Ask(p));
    if !Admits(g, marker) {
      QuietStep(markers, s, t, Refused(marker));
    } else {
      LogGrows(markers, s.log, Began(Issued(g, marker)));
      forall q | q in t.callers ensures HoldsAttempt(Run(markers, t.log), t.log, t.callers[q]) {
        AskedHold(markers, s, p, q);
      }
      forall m | InFlight(Run(markers, t.log), m) ensures exists q :: Busy(t, q) && t.callers[q].marker == m {
        AskedBusy(markers, s, p, m);
      }
      forall q ensures !(Busy(s, q) && s.callers[q].marker == marker) {
        AdmittedIsIdle(markers, s, p, q);
      }
    }
  }

  lemma ReportedHold(markers: seq<string>, s: State, p: nat, outcome: Outcome, q: nat)
    requires Inv(markers, s) && Enabled(s, Report(p, outcome)) && q in s.callers
    ensures var g, t := Run(markers, s.log), Next(markers, s, Report(p, outcome));
      HoldsAttempt(AfterFinish(g, s.callers[p].phase.attempt, outcome.Synced?), t.log, t.callers[q])
  {
    var g, c := Run(markers, s.log), s.callers[p];
    assert HoldsAttempt(g, s.log, c);
    if q != p {
      assert HoldsAttempt(g, s.log, s.callers[q]);
      assert Busy(s, p);
      assert Busy(s, q) ==> s.callers[q].marker != c.marker;
      var e := Finished(c.phase.attempt, outcome.Synced?);
      AttemptStays(g, Apply(g, e), s.log, e, s.callers[q]);
    }
  }

  lemma ReportedBusy(markers: seq<string>, s: State, p: nat, outcome: Outcome, m: string)
    requires Inv(markers, s) && Enabled(s, Report(p, outcome))
    requires InFlight(AfterFinish(Run(markers, s.log), s.callers[p].phase.attempt, outcome.Synced?), m)
    ensures var t := Next(markers, s, Report(p, outcome));
      exists q :: Busy(t, q) && t.callers[q].marker == m
  {
    var g, t := Run(markers, s.log), Next(markers, s, Report(p, outcome));
    assert HoldsAttempt(g, s.log, s.callers[p]);
    assert InFlight(g, m) && m != s.callers[p].marker;
    var q :| Busy(s, q) && s.callers[q].marker == m;
    assert Busy(t, q);
  }

  lemma ReportInv(markers: seq<string>, s: State, p: nat, outcome: Outcome)
    requires Inv(markers, s) && Enabled(s, Report(p, outcome))
    ensures Inv(markers, Next(markers, s, Report(p, outcome)))
  {
    var g, t := Run(markers, s.log), Next(markers, s, Report(p, outcome));
    LogGrows(markers, s.log, Finished(s.callers[p].phase.attempt, outcome.Synced?));
    forall q | q in t.callers ensures HoldsAttempt(Run(markers, t.log), t.log, t.callers[q]) {
      ReportedHold(markers, s, p, outcome, q);
    }
    forall m | InFlight(Run(markers, t.log), m) ensures exists q :: Busy(t, q) && t.callers[q].marker == m {
      ReportedBusy(markers, s, p, outcome, m);
    }
  }

  lemma StepInv(markers: seq<string>, s: State, step: Step)
    requires Inv(markers, s) && Enabled(s, step)
    ensures Inv(markers, Next(markers, s, step))
  {
    var t := Next(markers, s, step);
    match step
    case Ask(p) => AskInv(markers, s, p);
    case Report(p, outcome) => ReportInv(markers, s, p, outcome);
    case Clear(marker) => QuietStep(markers, s, t, Cleared(marker));
    case Delete(p) =>
      if s.callers[p].marker in markers {
        QuietStep(markers, s, t, Cleared(s.callers[p].marker));
      } else {
        assert t.log == s.log;
        CallersOnly(markers, s, t);
      }
    case Call(_, _, _) => CallersOnly(markers, s, t);
  }

  lemma CallersOnly(markers: seq<string>, s: State, t: State)
    requires Inv(markers, s) && t.log == s.log
    requires forall p :: (Busy(t, p) <==> Busy(s, p)) && (Busy(s, p) ==> t.callers[p] == s.callers[p])
    ensures Inv(markers, t)
  {
    forall p | p in t.callers ensures HoldsAttempt(Run(markers, t.log), t.log, t.callers[p]) {
      assert Busy(t, p) ==> Busy(s, p);
    }
    forall m | InFlight(Run(markers, t.log), m) ensures exists p :: Busy(t, p) && t.callers[p].marker == m {
      var p :| Busy(s, p) && s.callers[p].marker == m;
      assert Busy(t, p);
    }
  }

  ghost predicate Trace(markers: seq<string>, states: seq<State>, steps: seq<Step>) {
    && |states| == |steps| + 1 && Init(states[0])
    && forall i | 0 <= i < |steps| :: Follows(markers, states, steps, i)
  }

  ghost predicate Follows(markers: seq<string>, states: seq<State>, steps: seq<Step>, i: nat)
    requires i < |steps| && |states| == |steps| + 1
  {
    Enabled(states[i], steps[i]) && states[i + 1] == Next(markers, states[i], steps[i])
  }

  lemma {:induction false} TraceInv(markers: seq<string>, states: seq<State>, steps: seq<Step>, i: nat)
    requires Trace(markers, states, steps) && i < |states|
    ensures Inv(markers, states[i])
  {
    if i > 0 {
      TraceInv(markers, states, steps, i - 1);
      assert Follows(markers, states, steps, i - 1);
      StepInv(markers, states[i - 1], steps[i - 1]);
    }
  }

  /** In every interleaving of callers and clears, a marker is in flight exactly while a
      caller syncs it, and one caller only; a marker nobody syncs is never left in flight. */
  lemma InFlightIffSyncing(markers: seq<string>, states: seq<State>, steps: seq<Step>, i: nat, marker: string)
    requires Trace(markers, states, steps) && i < |states|
    ensures InFlight(Run(markers, states[i].log), marker) <==>
      exists p :: Busy(states[i], p) && states[i].callers[p].marker == marker
    ensures forall p, q | Busy(states[i], p) && Busy(states[i], q) ::
      states[i].callers[p].marker == states[i].callers[q].marker ==> p == q
  {
    TraceInv(markers, states, steps, i);
    if p :| Busy(states[i], p) && states[i].callers[p].marker == marker {
      assert HoldsAttempt(Run(markers, states[i].log), states[i].log, states[i].callers[p]);
    }
  }

  /** While no caller syncs a marker, a call is admitted exactly when the marker is known and
      nothing begun since its latest clear has succeeded. */
  lemma IdleAdmission(markers: seq<string>, states: seq<State>, steps: seq<Step>, i: nat, marker: string)
    requires Trace(markers, states, steps) && i < |states|
    requires forall p | Busy(states[i], p) :: states[i].callers[p].marker != marker
    ensures Admits(Run(markers, states[i].log), marker) <==>
      Known(markers, states[i].log, marker) && !(exists k, j :: WonAt(states[i].log, marker, k, j))
  {
    TraceInv(markers, states, steps, i);
    AdmissionIsHistory(markers, states[i].log, marker);
    OneOpenAttempt(markers, states[i].log, marker, 0, 0);
    InFlightIffSyncing(markers, states, steps, i, marker);
  }

  // ----- What a report decides -----

  /** The attempt a caller holds was begun once, and its generation tells whether the marker has
      been cleared since. */
  lemma HeldAttempt(markers: seq<string>, s: State, p: nat) returns (k: nat)
    requires Inv(markers, s) && Busy(s, p)
    ensures var a, g := s.callers[p].phase.attempt, Run(markers, s.log);
      && BeganAt(s.log, k, a) && a.marker == s.callers[p].marker && Current(g, a)
      && !g.states[a.marker].retainedSuccess
      && (a.generation == g.states[a.marker].generation <==> !ClearedSince(s.log, a.marker, k))
  {
    var a, g := s.callers[p].phase.attempt, Run(markers, s.log);
    assert HoldsAttempt(g, s.log, s.callers[p]);
    var i :| BeganAt(s.log, i, a);
    k := i;
    GateAgrees(markers, s.log);
    var st := g.states[a.marker];
    assert MarkerOk(s.log, a.marker, st);
    var open :| OpenAt(s.log, a.marker, open);
    assert OpenOk(s.log, a.marker, st, open);
    SameAttempt(s.log, g.nextID, open, k);
  }

  /** After a report the marker is admitted again exactly when the sync did not succeed or the
      marker was cleared while it ran; only a failed request goes on to delete it. */
  lemma ReportDecidesAdmission(markers: seq<string>, states: seq<State>, steps: seq<Step>, i: nat) returns (k: nat)
    requires Trace(markers, states, steps) && i < |steps| && steps[i].Report?
    ensures var p := steps[i].caller;
      && Busy(states[i], p) && BeganAt(states[i].log, k, states[i].callers[p].phase.attempt)
      && var c, t := states[i].callers[p], states[i + 1];
      && (Admits(Run(markers, t.log), c.marker) <==>
          steps[i].outcome != Synced || ClearedSince(states[i].log, c.marker, k))
      && p in t.callers && t.callers == states[i].callers[p := t.callers[p]] && t.callers[p].marker == c.marker
      && t.callers[p].phase == if c.kind.Request? && steps[i].outcome == Failed then Deleting else Done
  {
    TraceInv(markers, states, steps, i);
    assert Follows(markers, states, steps, i);
    var s, p := states[i], steps[i].caller;
    k := HeldAttempt(markers, s, p);
    LogGrows(markers, s.log, Finished(s.callers[p].phase.attempt, steps[i].outcome.Synced?));
  }

  /** A call that asks is admitted, and then syncs under a current attempt, exactly when the gate
      admits its marker; otherwise it is over. */
  lemma AskDecides(markers: seq<string>, states: seq<State>, steps: seq<Step>, i: nat)
    requires Trace(markers, states, steps) && i < |steps| && steps[i].Ask?
    ensures var p, t := steps[i].caller, states[i + 1];
      && p in states[i].callers && p in t.callers
      && (Busy(t, p) <==> Admits(Run(markers, states[i].log), states[i].callers[p].marker))
      && (!Busy(t, p) ==> t.callers[p].phase == Done)
      && (Busy(t, p) ==> Current(Run(markers, t.log), t.callers[p].phase.attempt))
      && t.callers == states[i].callers[p := t.callers[p]] && t.callers[p].marker == states[i].callers[p].marker
  {
    TraceInv(markers, states, steps, i);
    TraceInv(markers, states, steps, i + 1);
    assert Follows(markers, states, steps, i);
    var p, t := steps[i].caller, states[i + 1];
    if Busy(t, p) {
      assert HoldsAttempt(Run(markers, t.log), t.log, t.callers[p]);
    }
  }

  /** A clear, of anyone or of a failed request, admits the marker again if nobody syncs it. */
  lemma ClearAdmits(markers: seq<string>, states: seq<State>, steps: seq<Step>, i: nat, marker: string)
    requires Trace(markers, states, steps) && i < |steps|
    requires steps[i] == Clear(marker) || (steps[i].Delete? && marker in markers &&
             steps[i].caller in states[i].callers && states[i].callers[steps[i].caller].marker == marker)
    ensures Admits(Run(markers, states[i + 1].log), marker) <==> !InFlight(Run(markers, states[i].log), marker)
    ensures steps[i].Delete? ==>
      steps[i].caller in states[i + 1].callers && states[i + 1].callers[steps[i].caller].phase == Done
  {
    TraceInv(markers, states, steps, i);
    assert Follows(markers, states, steps, i);
    LogGrows(markers, states[i].log, Cleared(marker));
  }

  lemma WonStays(h: seq<Event>, more: seq<Event>, marker: string, k: int, j: int)
    requires WonAt(h, marker, k, j) && forall e | e in more :: e != Cleared(marker)
    ensures WonAt(h + more, marker, k, j)
    decreases |more|
  {
    if more == [] {
      assert h + more == h;
    } else {
      var n := |more| - 1;
      assert forall e | e in more[..n] :: e in more;
      assert more[n] in more;
      WonStays(h, more[..n], marker, k, j);
      WonLater(h + more[..n], more[n], marker, k, j);
      assert (h + more[..n]) + [more[n]] == h + more;
    }
  }

  /** After a sync that succeeded without a clear meanwhile, the marker is not admitted until it is cleared. */
  lemma SuccessIsRetained(markers: seq<string>, states: seq<State>, steps: seq<Step>, i: nat, n: nat, k: nat,
                          more: seq<Event>)
    requires Trace(markers, states, steps) && i < |steps| && i < n < |states|
    requires steps[i].Report? && steps[i].outcome == Synced && Busy(states[i], steps[i].caller)
    requires BeganAt(states[i].log, k, states[i].callers[steps[i].caller].phase.attempt)
    requires !ClearedSince(states[i].log, states[i].callers[steps[i].caller].marker, k)
    requires states[n].log == states[i + 1].log + more
    requires forall e | e in more :: e != Cleared(states[i].callers[steps[i].caller].marker)
    ensures !Admits(Run(markers, states[n].log), states[i].callers[steps[i].caller].marker)
  {
    var s, p := states[i], steps[i].caller;
    var a, marker := s.callers[p].phase.attempt, s.callers[p].marker;
    TraceInv(markers, states, steps, i);
    TraceInv(markers, states, steps, n);
    assert Follows(markers, states, steps, i);
    StillOpen(markers, s, p, k);
    WonLater(s.log, Finished(a, true), marker, k, |s.log|);
    WonStays(states[i + 1].log, more, marker, k, |s.log|);
    AdmissionIsHistory(markers, states[n].log, marker);
    assert WonAt(states[n].log, marker, k, |s.log|);
  }

  lemma StillOpen(markers: seq<string>, s: State, p: nat, k: nat)
    requires Inv(markers, s) && Busy(s, p) && BeganAt(s.log, k, s.callers[p].phase.attempt)
    ensures OpenAt(s.log, s.callers[p].marker, k)
  {
    var a, g := s.callers[p].phase.attempt, Run(markers, s.log);
    assert HoldsAttempt(g, s.log, s.callers[p]);
    GateAgrees(markers, s.log);
    assert MarkerOk(s.log, a.marker, g.states[a.marker]);
    var open :| OpenAt(s.log, a.marker, open);
    assert OpenOk(s.log, a.marker, g.states[a.marker], open);
    SameAttempt(s.log, g.nextID, open, k);
  }

  /** A call asks the gate for its own marker next. */
  lemma CallAsks(markers: seq<string>, s: State, p: nat, kind: Kind, marker: string)
    requires p !in s.callers
    ensures Enabled(s, Call(p, kind, marker))
    ensures var t := Next(markers, s, Call(p, kind, marker));
      && Enabled(t, Ask(p)) && t.callers[p].marker == marker && t.callers[p].kind == kind && t.log == s.log
      && forall q | q in s.callers :: q in t.callers && t.callers[q] == s.callers[q]
  {
  }

  /** A caller that syncs can report any outcome, and one that then has to delete its marker can do
      that; both are over then, and all that is recorded is the outcome and the clear. */
  lemma CallEnds(markers: seq<string>, s: State, p: nat, outcome: Outcome)
    requires Busy(s, p)
    ensures Enabled(s, Report(p, outcome))
    ensures var c, t := s.callers[p], Next(markers, s, Report(p, outcome));
      && t.log == s.log + [Finished(c.phase.attempt, outcome == Synced)]
      && p in t.callers && (t.callers[p].phase == Deleting || t.callers == s.callers[p := c.(phase := Done)])
      && (t.callers[p].phase == Deleting ==>
            && Enabled(t, Delete(p))
            && var u := Next(markers, t, Delete(p));
               && u.callers == s.callers[p := c.(phase := Done)]
               && u.log == t.log + if c.marker in markers then [Cleared(c.marker)] else [])
  {
  }

  /** Anyone can clear a marker at any time. */
  lemma ClearIsFree(markers: seq<string>, s: State, marker: string)
    ensures Enabled(s, Clear(marker))
    ensures Next(markers, s, Clear(marker)) == s.(log := s.log + [Cleared(marker)])
  {
  }
}
