/** Whole operations of the Transmission client (internal/downloader/transmission): what a retry
    carries, and that lookups and renames can come to their end. */
module TransmissionRuns {
  import opened Options
  import opened Transmission

  // ----- The traffic of one operation -----

  function Traffic(wire: seq<Event>, op: nat): seq<Event> {
    if wire == [] then []
    else
      var last := wire[|wire| - 1];
      Traffic(wire[..|wire| - 1], op) + if last.op == op then [last] else []
  }

  lemma TrafficGrows(wire: seq<Event>, more: seq<Event>, op: nat)
    requires |more| <= 1
    ensures Traffic(wire + more, op) == Traffic(wire, op) + (if |more| == 1 && more[0].op == op then more else [])
  {
    if |more| == 1 {
      assert (wire + more)[..|wire|] == wire;
    } else {
      assert wire + more == wire;
    }
  }

  predicate IsRefusal(e: Event) {
    e.LookupRefused? || e.RenameRefused?
  }

  /** `next` repeats the refused request under the challenge of the refusal. */
  predicate Repeats(refusal: Event, next: Event) {
    match refusal
    case LookupRefused(op, config, challenge) => next == LookupSent(op, config, Session(challenge, config))
    case RenameRefused(op, config, challenge) =>
      next.RenameSent? && next.op == op && next.config == config && next.session == Session(challenge, config)
    case _ => true
  }

  /** Every refusal but a last one is followed by the same request under its challenge. */
  ghost predicate RetriesCarryChallenges(traffic: seq<Event>) {
    forall i | 0 <= i < |traffic| - 1 && IsRefusal(traffic[i]) :: Repeats(traffic[i], traffic[i + 1])
  }

  /** What the last event of the traffic is in each phase. */
  ghost predicate LastOk(op: nat, o: Operation, traffic: seq<Event>) {
    var n := |traffic|;
    match o.phase
    case Configured => traffic == []
    case LookupChallenged(_, challenge) => n > 0 && traffic[n - 1] == LookupRefused(op, o.config, challenge)
    case LookupConfirmed(_, challenge) => n > 0 && traffic[n - 1] == LookupRefused(op, o.config, challenge)
    case RenameChallenged(_, _, challenge) => n > 0 && traffic[n - 1] == RenameRefused(op, o.config, challenge)
    case Ready(_, session, second) => n > 0 && LastBeforeRename(op, o.config, session, second, traffic[n - 1])
    case Starting(_, session, second) => n > 0 && LastBeforeRename(op, o.config, session, second, traffic[n - 1])
    case Ended => true
    case _ => n > 0 && !IsRefusal(traffic[n - 1])
  }

  ghost predicate LastBeforeRename(op: nat, config: nat, session: Session, second: bool, last: Event) {
    if second then last == RenameRefused(op, config, session.id) && session.revision == config else !IsRefusal(last)
  }

  ghost predicate StoryOk(s: State, op: nat) {
    if op in s.ops then
      RetriesCarryChallenges(Traffic(s.wire, op)) && LastOk(op, s.ops[op], Traffic(s.wire, op))
    else Traffic(s.wire, op) == []
  }

  /** What an action sends fits the traffic before it, and what follows it. */
  lemma ActionStory(op: nat, o: Operation, action: Action, stored: Session, revision: nat, unlocked: bool,
                    traffic: seq<Event>)
    requires Possible(action, o, unlocked, revision)
    requires RetriesCarryChallenges(traffic) && LastOk(op, o, traffic)
    ensures var e := EffectOf(action, op, o, stored, revision);
      && |e.events| <= 1 && (|e.events| == 1 ==> e.events[0].op == op)
      && RetriesCarryChallenges(traffic + e.events) && LastOk(op, o.(phase := e.phase), traffic + e.events)
  {
    var e := EffectOf(action, op, o, stored, revision);
    assert traffic + [] == traffic;
    var more := traffic + e.events;
    forall i | 0 <= i < |more| - 1 && IsRefusal(more[i]) ensures Repeats(more[i], more[i + 1]) {
      if i < |traffic| - 1 {
        assert IsRefusal(traffic[i]);
      } else {
        assert more[i] == traffic[|traffic| - 1] && more[i + 1] == e.events[0];
      }
    }
  }

  lemma StepStory(s: State, step: Step, op: nat)
    requires Enabled(s, step) && StoryOk(s, op)
    ensures StoryOk(Next(s, step), op)
  {
    if step.Act? {
      var o := s.ops[step.op];
      if step.op == op {
        ActionStory(op, o, step.action, s.session, s.revision, s.lock == None, Traffic(s.wire, op));
      }
      var e := EffectOf(step.action, step.op, o, s.session, s.revision);
      EventsAreOwn(step.action, step.op, o, s.session, s.revision, s.lock == None);
      TrafficGrows(s.wire, e.events, op);
      assert Traffic(s.wire, op) + [] == Traffic(s.wire, op);
    }
  }

  lemma EventsAreOwn(action: Action, op: nat, o: Operation, stored: Session, revision: nat, unlocked: bool)
    requires Possible(action, o, unlocked, revision)
    ensures var e := EffectOf(action, op, o, stored, revision);
      |e.events| <= 1 && (|e.events| == 1 ==> e.events[0].op == op)
  {
  }

  /** In every run a request that is sent again after a refusal, a lookup or a rename, carries the
      challenge of that refusal under the revision of its operation. */
  lemma {:induction false} RetryCarriesChallenge(states: seq<State>, steps: seq<Step>, i: nat, op: nat)
    requires Trace(states, steps) && i < |states|
    ensures StoryOk(states[i], op) && RetriesCarryChallenges(Traffic(states[i].wire, op))
  {
    if i > 0 {
      RetryCarriesChallenge(states, steps, i - 1, op);
      assert Follows(states, steps, i - 1);
      StepStory(states[i - 1], steps[i - 1], op);
    }
  }

  // ----- The stored session -----

  /** A challenge is stored exactly when the stored session is still the one that was challenged,
      or older than the operation; nothing else changes the stored session. */
  lemma ChallengeIsStored(s: State, step: Step)
    requires Enabled(s, step)
    ensures var t := Next(s, step).session;
      if step.Act? && (step.action.RetryLookup? || step.action.SwapAndRetry?) then
        var o := s.ops[step.op];
        if s.session == o.phase.saved || s.session.revision < o.config then t == Session(o.phase.challenge, o.config)
        else t == s.session
      else t == s.session
  {
  }

  // ----- Operations come to their end -----

  ghost predicate Path(states: seq<State>, steps: seq<Step>) {
    |states| == |steps| + 1 && forall i | 0 <= i < |steps| :: Follows(states, steps, i)
  }

  /** The steps are enabled one after the other and lead from `s` to `t`. */
  ghost predicate Leads(s: State, steps: seq<Step>, t: State) {
    exists states: seq<State> :: PathTo(states, steps, s, t)
  }

  ghost predicate PathTo(states: seq<State>, steps: seq<Step>, s: State, t: State) {
    Path(states, steps) && states[0] == s && states[|steps|] == t
  }

  lemma LeadsNowhere(s: State)
    ensures Leads(s, [], s)
  {
    assert PathTo([s], [], s, s);
  }

  lemma LeadsOn(s: State, step: Step, rest: seq<Step>, t: State)
    requires Enabled(s, step) && Leads(Next(s, step), rest, t)
    ensures Leads(s, [step] + rest, t)
  {
    var more: seq<State> :| PathTo(more, rest, Next(s, step), t);
    var states, steps := [s] + more, [step] + rest;
    forall i | 0 <= i < |steps| ensures Follows(states, steps, i) {
      assert i > 0 ==> Follows(more, rest, i - 1);
    }
    assert PathTo(states, steps, s, t);
  }

  /** The state with the operation in this phase, this session stored and so much more on the
      wire, when nobody else holds the publication lock. */
  function At(s: State, op: nat, p: Phase, session: Session, events: seq<Event>): State
    requires op in s.ops
  {
    State(s.revision, if p.Starting? then Some(op)
          else None, session, s.ops[op := s.ops[op].(phase := p)], s.wire + events)
  }

  predicate Quiet(s: State, op: nat) {
    op in s.ops && (s.lock == None || s.lock == Some(op)) && s.ops[op].config == s.revision &&
      s.session.revision <= s.revision
  }

  lemma ActOn(s: State, op: nat, action: Action, p: Phase, session: Session, events: seq<Event>, e: Effect,
              rest: seq<Step>, t: State)
    requires Quiet(s, op) && Possible(action, Operation(s.revision, p), !p.Starting?, s.revision)
    requires EffectOf(action, op, Operation(s.revision, p), session, s.revision) == e
    requires Leads(At(s, op, e.phase, e.session, events + e.events), rest, t)
    ensures Leads(At(s, op, p, session, events), [Act(op, action)] + rest, t)
  {
    var a := At(s, op, p, session, events);
    assert a.ops[op] == Operation(s.revision, p);
    assert a.ops[op := a.ops[op].(phase := e.phase)] == s.ops[op := s.ops[op].(phase := e.phase)];
    assert (s.wire + events) + e.events == s.wire + (events + e.events);
    assert Next(a, Act(op, action)) == At(s, op, e.phase, e.session, events + e.events);
    LeadsOn(a, Act(op, action), rest, t);
  }

  lemma Nothing(events: seq<Event>)
    ensures events + [] == events
  {
  }

  /** Admission and sending, and then the rest. */
  function RenameSteps(op: nat, rest: seq<Step>): seq<Step> {
    [Act(op, Admit)] + ([Act(op, StartRename)] + rest)
  }

  function AnswerSteps(op: nat, torrent: nat, rest: seq<Step>): seq<Step> {
    [Act(op, Answer(torrent))] + ([Act(op, PrepareRename)] + RenameSteps(op, rest))
  }

  /** A lookup that is challenged and sent again. */
  function RetrySteps(op: nat, challenge: string, rest: seq<Step>): seq<Step> {
    [Act(op, RefuseLookup(challenge))] + ([Act(op, ConfirmConfig)] + ([Act(op, RetryLookup)] + rest))
  }

  /** A rename that is challenged and sent again. */
  function AgainSteps(op: nat, challenge: string, rest: seq<Step>): seq<Step> {
    [Act(op, RefuseRename(challenge))] + ([Act(op, SwapAndRetry)] + RenameSteps(op, rest))
  }

  lemma RenameIsSent(s: State, op: nat, torrent: nat, session: Session, second: bool, stored: Session,
                     events: seq<Event>, rest: seq<Step>, t: State)
    requires Quiet(s, op)
    requires Leads(At(s, op, Sent(torrent, session, second), stored,
                      events + [RenameSent(op, s.revision, torrent, session, s.revision)]), rest, t)
    ensures Leads(At(s, op, Ready(torrent, session, second), stored, events), RenameSteps(op, rest), t)
  {
    Nothing(events);
    ActOn(s, op, StartRename, Starting(torrent, session, second), stored, events,
          Effect(Sent(torrent, session, second), stored,
                 [RenameSent(op, s.revision, torrent, session, s.revision)]), rest, t);
    ActOn(s, op, Admit, Ready(torrent, session, second), stored, events,
          Effect(Starting(torrent, session, second), stored, []), [Act(op, StartRename)] + rest, t);
  }

  /** From the answer of the lookup to the first sending of the rename. */
  lemma AnswerLeadsToRename(s: State, op: nat, p: Phase, torrent: nat, stored: Session, events: seq<Event>,
                            rest: seq<Step>, t: State)
    requires Quiet(s, op) && (p.LookingUp? || p.LookingUpAgain?)
    requires var session := SessionFor(stored, s.revision);
      var answered := events + [Answered(op, s.revision, torrent)];
      Leads(At(s, op, Sent(torrent, session, false), stored,
               answered + [RenameSent(op, s.revision, torrent, session, s.revision)]), rest, t)
    ensures Leads(At(s, op, p, stored, events), AnswerSteps(op, torrent, rest), t)
  {
    var session := SessionFor(stored, s.revision);
    var answered := events + [Answered(op, s.revision, torrent)];
    Nothing(answered);
    RenameIsSent(s, op, torrent, session, false, stored, answered, rest, t);
    ActOn(s, op, PrepareRename, Found(torrent), stored, answered, Effect(Ready(torrent, session, false), stored, []),
          RenameSteps(op, rest), t);
    ActOn(s, op, Answer(torrent), p, stored, events,
          Effect(Found(torrent), stored, [Answered(op, s.revision, torrent)]),
          [Act(op, PrepareRename)] + RenameSteps(op, rest), t);
  }

  /** A lookup that is challenged is sent again with the challenge, which is stored. */
  lemma ChallengedLookup(s: State, op: nat, challenge: string, events: seq<Event>, rest: seq<Step>, t: State)
    requires Quiet(s, op) && challenge != ""
    requires Leads(At(s, op, LookingUpAgain(challenge), Session(challenge, s.revision),
                      (events + [LookupRefused(op, s.revision, challenge)])
                      + [LookupSent(op, s.revision, Session(challenge, s.revision))]), rest, t)
    ensures Leads(At(s, op, LookingUp(SessionFor(s.session, s.revision)), s.session, events),
                  RetrySteps(op, challenge, rest), t)
  {
    var r, saved := s.revision, SessionFor(s.session, s.revision);
    var next := Session(challenge, r);
    var refused := events + [LookupRefused(op, r, challenge)];
    Nothing(refused);
    ActOn(s, op, RetryLookup, LookupConfirmed(saved, challenge), s.session, refused,
          Effect(LookingUpAgain(challenge), next, [LookupSent(op, r, next)]), rest, t);
    ActOn(s, op, ConfirmConfig, LookupChallenged(saved, challenge), s.session, refused,
          Effect(LookupConfirmed(saved, challenge), s.session, []), [Act(op, RetryLookup)] + rest, t);
    ActOn(s, op, RefuseLookup(challenge), LookingUp(saved), s.session, events,
          Effect(LookupChallenged(saved, challenge), s.session, [LookupRefused(op, r, challenge)]),
          [Act(op, ConfirmConfig)] + ([Act(op, RetryLookup)] + rest), t);
  }

  /** A rename that is challenged is sent again with the challenge; the challenge is stored if the
      stored session is the one that was challenged. */
  lemma ChallengedRename(s: State, op: nat, torrent: nat, saved: Session, challenge: string, events: seq<Event>,
                         rest: seq<Step>, t: State)
    requires Quiet(s, op) && challenge != ""
    requires var next := Session(challenge, s.revision);
      var refused := events + [RenameRefused(op, s.revision, challenge)];
      Leads(At(s, op, Sent(torrent, next, true), next,
               refused + [RenameSent(op, s.revision, torrent, next, s.revision)]), rest, t)
    ensures Leads(At(s, op, Sent(torrent, saved, false), saved, events), AgainSteps(op, challenge, rest), t)
  {
    var r := s.revision;
    var next := Session(challenge, r);
    var refused := events + [RenameRefused(op, r, challenge)];
    Nothing(refused);
    RenameIsSent(s, op, torrent, next, true, next, refused, rest, t);
    ActOn(s, op, SwapAndRetry, RenameChallenged(torrent, saved, challenge), saved, refused,
          Effect(Ready(torrent, next, true), next, []), RenameSteps(op, rest), t);
    ActOn(s, op, RefuseRename(challenge), Sent(torrent, saved, false), saved, events,
          Effect(RenameChallenged(torrent, saved, challenge), saved, [RenameRefused(op, r, challenge)]),
          [Act(op, SwapAndRetry)] + RenameSteps(op, rest), t);
  }

  lemma AtItself(s: State, op: nat)
    requires Inv(s) && op in s.ops && s.lock == None && s.ops[op].config == s.revision && !s.ops[op].phase.Starting?
    ensures Quiet(s, op) && At(s, op, s.ops[op].phase, s.session, []) == s
  {
    assert s.ops[op := s.ops[op]] == s.ops;
    assert s.wire + [] == s.wire;
  }

  /** Undisturbed and unchallenged, an operation looks its torrent up and renames it, both with the
      stored session if it is of its revision and without one otherwise. */
  lemma RenameCompletes(s: State, op: nat, torrent: nat) returns (steps: seq<Step>)
    requires Inv(s) && op in s.ops && s.lock == None && s.ops[op] == Operation(s.revision, Configured)
    ensures var session := SessionFor(s.session, s.revision);
      Leads(s, steps, At(s, op, Sent(torrent, session, false), s.session,
                         [LookupSent(op, s.revision, session), Answered(op, s.revision, torrent),
                          RenameSent(op, s.revision, torrent, session, s.revision)]))
  {
    AtItself(s, op);
    var r, session := s.revision, SessionFor(s.session, s.revision);
    var sent := [] + [LookupSent(op, r, session)];
    var all := [LookupSent(op, r, session), Answered(op, r, torrent), RenameSent(op, r, torrent, session, r)];
    var t := At(s, op, Sent(torrent, session, false), s.session, all);
    assert (sent + [Answered(op, r, torrent)]) + [RenameSent(op, r, torrent, session, r)] == all;
    LeadsNowhere(t);
    AnswerLeadsToRename(s, op, LookingUp(session), torrent, s.session, sent, [], t);
    var rest := AnswerSteps(op, torrent, []);
    ActOn(s, op, SendLookup, Configured, s.session, [],
          Effect(LookingUp(session), s.session, [LookupSent(op, r, session)]), rest, t);
    steps := [Act(op, SendLookup)] + rest;
  }

  lemma SevenEvents(a: Event, b: Event, c: Event, d: Event, e: Event, f: Event, g: Event)
    ensures ((((([] + [a]) + [b]) + [c]) + [d]) + [e]) + [f] + [g] == [a, b, c, d, e, f, g]
  {
  }

  /** Challenged both times, it repeats the lookup and the rename under the challenges, the last
      of which stays stored. */
  lemma ChallengedRenameCompletes(s: State, op: nat, torrent: nat, first: string, second: string)
      returns (steps: seq<Step>)
    requires Inv(s) && op in s.ops && s.lock == None && s.ops[op] == Operation(s.revision, Configured)
    requires first != "" && second != ""
    ensures var r := s.revision;
      Leads(s, steps, At(s, op, Sent(torrent, Session(second, r), true), Session(second, r),
                         [LookupSent(op, r, SessionFor(s.session, r)), LookupRefused(op, r, first),
                          LookupSent(op, r, Session(first, r)), Answered(op, r, torrent),
                          RenameSent(op, r, torrent, Session(first, r), r), RenameRefused(op, r, second),
                          RenameSent(op, r, torrent, Session(second, r), r)]))
  {
    AtItself(s, op);
    var r, saved := s.revision, SessionFor(s.session, s.revision);
    var a, b := Session(first, r), Session(second, r);
    var e1 := [] + [LookupSent(op, r, saved)];
    var e2 := (e1 + [LookupRefused(op, r, first)]) + [LookupSent(op, r, a)];
    var e3 := (e2 + [Answered(op, r, torrent)]) + [RenameSent(op, r, torrent, a, r)];
    var e4 := (e3 + [RenameRefused(op, r, second)]) + [RenameSent(op, r, torrent, b, r)];
    var t := At(s, op, Sent(torrent, b, true), b, e4);
    SevenEvents(LookupSent(op, r, saved), LookupRefused(op, r, first), LookupSent(op, r, a), Answered(op, r, torrent),
                RenameSent(op, r, torrent, a, r), RenameRefused(op, r, second), RenameSent(op, r, torrent, b, r));
    LeadsNowhere(t);
    ChallengedRename(s, op, torrent, a, second, e3, [], t);
    var r3 := AgainSteps(op, second, []);
    AnswerLeadsToRename(s, op, LookingUpAgain(first), torrent, a, e2, r3, t);
    var r2 := AnswerSteps(op, torrent, r3);
    ChallengedLookup(s, op, first, e1, r2, t);
    var r1 := RetrySteps(op, first, r2);
    ActOn(s, op, SendLookup, Configured, s.session, [],
          Effect(LookingUp(saved), s.session, [LookupSent(op, r, saved)]), r1, t);
    steps := [Act(op, SendLookup)] + r1;
  }

  /** An operation that ends gives up the lock if it had it and leaves everything else alone. */
  lemma EndReleases(s: State, op: nat)
    requires Inv(s) && op in s.ops
    ensures Enabled(s, Act(op, End))
    ensures var t := Next(s, Act(op, End));
      && t.ops == s.ops[op := s.ops[op].(phase := Ended)] && t.session == s.session && t.wire == s.wire
      && t.lock == if s.lock == Some(op) then None else s.lock
  {
    assert s.wire + [] == s.wire;
  }

  // ----- From the start of an operation -----

  lemma Begins(s: State, op: nat) returns (t: State)
    requires Inv(s) && op !in s.ops && s.lock == None
    ensures Enabled(s, BeginOperation(op)) && t == Next(s, BeginOperation(op)) && Inv(t)
    ensures t == s.(ops := s.ops[op := Operation(s.revision, Configured)])
  {
    t := Next(s, BeginOperation(op));
    StepInv(s, BeginOperation(op));
  }

  /** An operation that is called renames under the revision it finds. */
  lemma OperationCompletes(s: State, op: nat, torrent: nat) returns (steps: seq<Step>, m: State)
    requires Inv(s) && op !in s.ops && s.lock == None
    ensures m == s.(ops := m.ops) && op in m.ops && m.ops[op].config == s.revision
    ensures var session := SessionFor(s.session, s.revision);
      Leads(s, [BeginOperation(op)] + steps,
            At(m, op, Sent(torrent, session, false), s.session,
               [LookupSent(op, s.revision, session), Answered(op, s.revision, torrent),
                RenameSent(op, s.revision, torrent, session, s.revision)]))
  {
    m := Begins(s, op);
    steps := RenameCompletes(m, op, torrent);
    var session := SessionFor(s.session, s.revision);
    LeadsOn(s, BeginOperation(op), steps,
            At(m, op, Sent(torrent, session, false), s.session,
               [LookupSent(op, s.revision, session), Answered(op, s.revision, torrent),
                RenameSent(op, s.revision, torrent, session, s.revision)]));
  }

  // ----- Revisions -----

  function Publications(steps: seq<Step>, n: nat): nat
    requires n <= |steps|
  {
    if n == 0 then 0 else Publications(steps, n - 1) + if steps[n - 1] == PublishConfig then 1 else 0
  }

  /** While no rename is being admitted a new configuration can be published, whatever else goes
      on; it changes nothing but the revision. */
  lemma ConfigIsPublished(s: State)
    requires Inv(s)
    ensures Enabled(s, PublishConfig) <==> s.lock == None
    ensures s.lock == None ==> Next(s, PublishConfig) == s.(revision := s.revision + 1)
  {
  }

  /** The revision counts the configurations published. */
  lemma {:induction false} RevisionCounts(states: seq<State>, steps: seq<Step>, n: nat)
    requires Trace(states, steps) && n < |states|
    ensures states[n].revision == states[0].revision + Publications(steps, n)
  {
    if n > 0 {
      assert Follows(states, steps, n - 1);
      RevisionCounts(states, steps, n - 1);
    }
  }

  /** A lookup that was challenged has been sent again only after the provider was seen to hold the
      operation's revision still. */
  ghost predicate ConfirmedBefore(states: seq<State>, steps: seq<Step>, n: nat, op: nat, config: nat) {
    exists k :: 0 <= k < n && k < |steps| && k < |states| && Confirms(states[k], steps[k], op, config)
  }

  predicate Confirms(s: State, step: Step, op: nat, config: nat) {
    step == Act(op, ConfirmConfig) && s.revision == config
  }

  lemma SameOperation(s: State, step: Step, op: nat)
    requires Enabled(s, step) && op in Next(s, step).ops
    requires Next(s, step).ops[op].phase.LookupConfirmed? || Next(s, step).ops[op].phase.LookingUpAgain?
    ensures op in s.ops && Next(s, step).ops[op].config == s.ops[op].config
    ensures Confirms(s, step, op, s.ops[op].config) || s.ops[op].phase.LookupConfirmed? ||
      s.ops[op].phase.LookingUpAgain?
  {
  }

  lemma {:induction false} RetriedLookupIsConfirmed(states: seq<State>, steps: seq<Step>, n: nat, op: nat)
    requires Trace(states, steps) && n < |states| && op in states[n].ops
    requires states[n].ops[op].phase.LookupConfirmed? || states[n].ops[op].phase.LookingUpAgain?
    ensures ConfirmedBefore(states, steps, n, op, states[n].ops[op].config)
  {
    assert n > 0 && Follows(states, steps, n - 1);
    SameOperation(states[n - 1], steps[n - 1], op);
    if !Confirms(states[n - 1], steps[n - 1], op, states[n - 1].ops[op].config) {
      RetriedLookupIsConfirmed(states, steps, n - 1, op);
    }
  }
}
