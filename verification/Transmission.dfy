/** The Transmission client (internal/downloader/transmission): rename operations, session
    challenges and configuration changes interleave step by step. */
module Transmission {
  import opened Options

  /** A session id and the configuration revision it was issued under; `NO_SESSION` is the
      zero value. */
  datatype Session = Session(id: string, revision: nat)

  const NO_SESSION := Session("", 0)

  /** Where an operation stands. `config` is the revision it read once at its start. */
  datatype Phase =
    | Configured
    | LookingUp(saved: Session)
    | LookupChallenged(saved: Session, challenge: string)
    | LookupConfirmed(saved: Session, challenge: string)
    | LookingUpAgain(challenge: string)
    | Found(torrent: nat)
    | Ready(torrent: nat, session: Session, second: bool)
    | Starting(torrent: nat, session: Session, second: bool)
    | Sent(torrent: nat, session: Session, second: bool)
    | RenameChallenged(torrent: nat, saved: Session, challenge: string)
    | Ended

  datatype Operation = Operation(config: nat, phase: Phase)

  /** What has happened between the client and the daemon, oldest first. `current` is the
      revision the provider held when the rename started. */
  datatype Event =
    | LookupSent(op: nat, config: nat, session: Session)
    | Answered(op: nat, config: nat, torrent: nat)
    | RenameSent(op: nat, config: nat, torrent: nat, session: Session, current: nat)
    | RenameRefused(op: nat, config: nat, challenge: string)
    | LookupRefused(op: nat, config: nat, challenge: string)

  /** `lock` is the operation that holds the publication lock while its request starts. */
  datatype State = State(revision: nat, lock: Option<nat>, session: Session, ops: map<nat, Operation>, wire: seq<Event>)

  /** The steps of an operation. */
  datatype Action =
    | SendLookup
    | RefuseLookup(challenge: string)
    | ConfirmConfig
    | RetryLookup
    | Answer(torrent: nat)
    | PrepareRename
    | Admit
    | StartRename
    | RefuseRename(challenge: string)
    | SwapAndRetry
    | End

  datatype Step = PublishConfig | BeginOperation(op: nat) | Act(op: nat, action: Action)

  predicate Init(s: State) {
    s.lock == None && s.session == NO_SESSION && s.ops == map[] && s.wire == []
  }

  /** `sessionFor`. */
  function SessionFor(stored: Session, revision: nat): Session {
    if stored.revision == revision then stored else NO_SESSION
  }

  /** `compareAndSwapSession`. */
  function Swapped(stored: Session, current: Session, next: Session): Session {
    if stored == current || stored.revision < next.revision then next else stored
  }

  /** When an operation can take an action; `unlocked` says that the publication lock is free. */
  predicate Possible(action: Action, o: Operation, unlocked: bool, revision: nat) {
    match action
    case SendLookup => o.phase.Configured?
    case RefuseLookup(challenge) => o.phase.LookingUp? && challenge != ""
    case ConfirmConfig => o.phase.LookupChallenged? && revision == o.config
    case RetryLookup => o.phase.LookupConfirmed?
    case Answer(_) => o.phase.LookingUp? || o.phase.LookingUpAgain?
    case PrepareRename => o.phase.Found?
    case Admit => o.phase.Ready? && unlocked && revision == o.config
    case StartRename => o.phase.Starting?
    case RefuseRename(challenge) => o.phase.Sent? && !o.phase.second && challenge != ""
    case SwapAndRetry => o.phase.RenameChallenged?
    case End => true
  }

  /** What an action does: the next phase, the stored session and what goes over the wire. */
  datatype Effect = Effect(phase: Phase, session: Session, events: seq<Event>)

  function EffectOf(action: Action, op: nat, o: Operation, stored: Session, revision: nat): Effect
    requires Possible(action, o, true, revision)
  {
    var p := o.phase;
    match action
    case SendLookup =>
      var saved := SessionFor(stored, o.config);
      Effect(LookingUp(saved), stored, [LookupSent(op, o.config, saved)])
    case RefuseLookup(challenge) => Effect(LookupChallenged(p.saved, challenge), stored,
                                           [LookupRefused(op, o.config, challenge)])
    case ConfirmConfig => Effect(LookupConfirmed(p.saved, p.challenge), stored, [])
    case RetryLookup =>
      var next := Session(p.challenge, o.config);
      Effect(LookingUpAgain(p.challenge), Swapped(stored, p.saved, next), [LookupSent(op, o.config, next)])
    case Answer(torrent) => Effect(Found(torrent), stored, [Answered(op, o.config, torrent)])
    case PrepareRename => Effect(Ready(p.torrent, SessionFor(stored, o.config), false), stored, [])
    case Admit => Effect(Starting(p.torrent, p.session, p.second), stored, [])
    case StartRename =>
      Effect(Sent(p.torrent, p.session, p.second), stored, [RenameSent(op, o.config, p.torrent, p.session, revision)])
    case RefuseRename(challenge) =>
      Effect(RenameChallenged(p.torrent, p.session, challenge), stored, [RenameRefused(op, o.config, challenge)])
    case SwapAndRetry =>
      var next := Session(p.challenge, o.config);
      Effect(Ready(p.torrent, next, true), Swapped(stored, p.saved, next), [])
    case End => Effect(Ended, stored, [])
  }

  predicate Enabled(s: State, step: Step) {
    match step
    case PublishConfig => s.lock == None
    case BeginOperation(op) => op !in s.ops
    case Act(op, action) => op in s.ops && Possible(action, s.ops[op], s.lock == None, s.revision)
  }

  /** An operation holds the publication lock from its admission until its request has started. */
  function Acted(s: State, op: nat, e: Effect): State
    requires op in s.ops
  {
    State(s.revision, if e.phase.Starting? then Some(op) else if s.lock == Some(op) then None else s.lock,
          e.session, s.ops[op := s.ops[op].(phase := e.phase)], s.wire + e.events)
  }

  function Next(s: State, step: Step): State
    requires Enabled(s, step)
  {
    match step
    case PublishConfig => s.(revision := s.revision + 1)
    case BeginOperation(op) => s.(ops := s.ops[op := Operation(s.revision, Configured)])
    case Act(op, action) => Acted(s, op, EffectOf(action, op, s.ops[op], s.session, s.revision))
  }

  // ----- Invariant -----

  /** The rename traffic of one operation. */
  function Renames(wire: seq<Event>, op: nat): seq<Event> {
    if wire == [] then []
    else
      var last := wire[|wire| - 1];
      Renames(wire[..|wire| - 1], op) + if OfRename(last, op) then [last] else []
  }

  predicate OfRename(e: Event, op: nat) {
    (e.RenameSent? || e.RenameRefused?) && e.op == op
  }

  /** The first `n` of: one sending, a challenge, a second sending. */
  ghost predicate Shape(traffic: seq<Event>, n: nat) {
    && |traffic| == n <= 3
    && (n > 0 ==> traffic[0].RenameSent?)
    && (n > 1 ==> traffic[1].RenameRefused?)
    && (n > 2 ==> traffic[2].RenameSent?)
  }

  ghost predicate HasAnswer(wire: seq<Event>, upTo: nat, op: nat, config: nat, torrent: nat) {
    exists j :: 0 <= j < upTo && j < |wire| && wire[j] == Answered(op, config, torrent)
  }

  /** The session id was handed out, in a challenge, by the daemon of its revision. */
  ghost predicate Issued(wire: seq<Event>, upTo: nat, session: Session) {
    session == NO_SESSION || exists j :: 0 <= j < upTo && j < |wire| && Hands(wire[j], session)
  }

  predicate Hands(e: Event, session: Session) {
    (e.RenameRefused? || e.LookupRefused?) && e.challenge == session.id && e.config == session.revision
  }

  /** A session that fits an operation: none, or one of its own revision. */
  ghost predicate FitsConfig(session: Session, config: nat) {
    session == NO_SESSION || session.revision == config
  }

  /** Every rename went out under the revision of its lookup while the provider held it, and
      every request carried a session id of its own revision. */
  ghost predicate EventOk(wire: seq<Event>, i: nat)
    requires i < |wire|
  {
    match wire[i]
    case RenameSent(op, config, torrent, session, current) =>
      current == config && HasAnswer(wire, i, op, config, torrent) && Issued(wire, i, session) &&
        FitsConfig(session, config)
    case LookupSent(op, config, session) => Issued(wire, i, session) && FitsConfig(session, config)
    case _ => true
  }

  /** How much rename traffic a phase has behind it. */
  ghost predicate TrafficOk(p: Phase, traffic: seq<Event>) {
    match p
    case Ready(_, _, second) => Shape(traffic, if second then 2 else 0)
    case Starting(_, _, second) => Shape(traffic, if second then 2 else 0)
    case Sent(_, _, second) => Shape(traffic, if second then 3 else 1)
    case RenameChallenged(_, _, _) => Shape(traffic, 2)
    case Ended => Shape(traffic, |traffic|)
    case _ => traffic == []
  }

  /** The sessions and the torrent an operation carries along. */
  ghost predicate CarriesOk(wire: seq<Event>, op: nat, o: Operation) {
    var n := |wire|;
    match o.phase
    case LookingUp(saved) => FitsConfig(saved, o.config)
    case LookupChallenged(saved, challenge) => FitsConfig(saved, o.config) &&
      Issued(wire, n, Session(challenge, o.config))
    case LookupConfirmed(saved, challenge) => FitsConfig(saved, o.config) &&
      Issued(wire, n, Session(challenge, o.config))
    case LookingUpAgain(_) => true
    case Found(torrent) => HasAnswer(wire, n, op, o.config, torrent)
    case Ready(torrent, session, _) => HasAnswer(wire, n, op, o.config, torrent) && FitsConfig(session, o.config) &&
      Issued(wire, n, session)
    case Starting(torrent, session, _) => HasAnswer(wire, n, op, o.config, torrent) &&
      FitsConfig(session, o.config) && Issued(wire, n, session)
    case Sent(torrent, session, _) => HasAnswer(wire, n, op, o.config, torrent) && FitsConfig(session, o.config)
    case RenameChallenged(torrent, saved, challenge) =>
      HasAnswer(wire, n, op, o.config, torrent) && FitsConfig(saved, o.config) &&
        Issued(wire, n, Session(challenge, o.config))
    case _ => true
  }

  ghost predicate OperationOk(s: State, op: nat)
    requires op in s.ops
  {
    var o := s.ops[op];
    && o.config <= s.revision && TrafficOk(o.phase, Renames(s.wire, op)) && CarriesOk(s.wire, op, o)
    && (o.phase.Starting? <==> s.lock == Some(op))
    && (o.phase.Starting? ==> o.config == s.revision)
  }

  ghost predicate Untouched(s: State, op: nat) {
    op !in s.ops ==> Renames(s.wire, op) == []
  }

  ghost predicate Inv(s: State) {
    && (forall op | op in s.ops :: OperationOk(s, op))
    && (forall op :: Untouched(s, op))
    && (s.lock.Some? ==> s.lock.value in s.ops)
    && (forall i: nat | i < |s.wire| :: EventOk(s.wire, i))
    && Issued(s.wire, |s.wire|, s.session) && s.session.revision <= s.revision
  }

  // ----- A longer wire keeps what was known -----

  lemma AnswerStays(wire: seq<Event>, more: seq<Event>, upTo: nat, op: nat, config: nat, torrent: nat)
    requires HasAnswer(wire, upTo, op, config, torrent)
    ensures HasAnswer(wire + more, upTo, op, config, torrent) &&
      HasAnswer(wire + more, |wire| + |more|, op, config, torrent)
  {
    var j :| 0 <= j < upTo && j < |wire| && wire[j] == Answered(op, config, torrent);
    assert (wire + more)[j] == wire[j];
  }

  lemma IssuedStays(wire: seq<Event>, more: seq<Event>, upTo: nat, session: Session)
    requires Issued(wire, upTo, session)
    ensures Issued(wire + more, upTo, session) && Issued(wire + more, |wire| + |more|, session)
  {
    if session != NO_SESSION {
      var j :| 0 <= j < upTo && j < |wire| && Hands(wire[j], session);
      assert (wire + more)[j] == wire[j];
    }
  }

  lemma EventStays(wire: seq<Event>, more: seq<Event>, i: nat)
    requires i < |wire| && EventOk(wire, i)
    ensures EventOk(wire + more, i)
  {
    assert (wire + more)[i] == wire[i];
    match wire[i]
    case RenameSent(op, config, torrent, session, _) =>
      AnswerStays(wire, more, i, op, config, torrent);
      IssuedStays(wire, more, i, session);
    case LookupSent(_, _, session) => IssuedStays(wire, more, i, session);
    case _ =>
  }

  lemma CarriesStays(wire: seq<Event>, more: seq<Event>, op: nat, o: Operation)
    requires CarriesOk(wire, op, o)
    ensures CarriesOk(wire + more, op, o)
  {
    var p := o.phase;
    if p.Found? || p.Ready? || p.Starting? || p.Sent? || p.RenameChallenged? {
      AnswerStays(wire, more, |wire|, op, o.config, p.torrent);
    }
    if p.Ready? || p.Starting? {
      IssuedStays(wire, more, |wire|, p.session);
    }
    if p.LookupChallenged? || p.LookupConfirmed? || p.RenameChallenged? {
      IssuedStays(wire, more, |wire|, Session(p.challenge, o.config));
    }
  }

  lemma RenamesGrow(wire: seq<Event>, more: seq<Event>, op: nat)
    requires |more| <= 1
    ensures Renames(wire + more, op) == Renames(wire, op) + (if |more| == 1 && OfRename(more[0], op) then more else [])
  {
    if |more| == 1 {
      assert (wire + more)[..|wire|] == wire;
    } else {
      assert wire + more == wire;
    }
  }

  // ----- Steps -----

  /** What an action sends is in order. */
  lemma ActionEvent(s: State, op: nat, action: Action)
    requires Inv(s) && Enabled(s, Act(op, action))
    ensures var e := EffectOf(action, op, s.ops[op], s.session, s.revision);
      |e.events| <= 1 && (|e.events| == 1 ==> e.events[0].op == op && EventOk(s.wire + e.events, |s.wire|))
  {
    var o := s.ops[op];
    var e := EffectOf(action, op, o, s.session, s.revision);
    assert OperationOk(s, op);
    if action.StartRename? {
      AnswerStays(s.wire, e.events, |s.wire|, op, o.config, o.phase.torrent);
      IssuedStays(s.wire, e.events, |s.wire|, o.phase.session);
    } else if action.SendLookup? {
      IssuedStays(s.wire, e.events, |s.wire|, s.session);
    } else if action.RetryLookup? {
      IssuedStays(s.wire, e.events, |s.wire|, Session(o.phase.challenge, o.config));
    }
  }

  lemma ActionTraffic(action: Action, op: nat, o: Operation, stored: Session, revision: nat, traffic: seq<Event>)
    requires Possible(action, o, true, revision) && TrafficOk(o.phase, traffic)
    ensures var e := EffectOf(action, op, o, stored, revision);
      TrafficOk(e.phase, traffic + if |e.events| == 1 && OfRename(e.events[0], op) then e.events else [])
  {
    assert traffic + [] == traffic;
  }

  lemma ActionCarries(s: State, op: nat, action: Action)
    requires Inv(s) && Enabled(s, Act(op, action))
    ensures var e := EffectOf(action, op, s.ops[op], s.session, s.revision);
      CarriesOk(s.wire + e.events, op, s.ops[op].(phase := e.phase))
  {
    var o := s.ops[op];
    var e := EffectOf(action, op, o, s.session, s.revision);
    assert OperationOk(s, op);
    CarriesStays(s.wire, e.events, op, o);
    IssuedStays(s.wire, e.events, |s.wire|, s.session);
    if action.Answer? || action.RefuseLookup? || action.RefuseRename? {
      assert (s.wire + e.events)[|s.wire|] == e.events[0];
    } else if action.SwapAndRetry? {
      IssuedStays(s.wire, e.events, |s.wire|, Session(o.phase.challenge, o.config));
    }
  }

  lemma ActionSession(s: State, op: nat, action: Action)
    requires Inv(s) && Enabled(s, Act(op, action))
    ensures var e := EffectOf(action, op, s.ops[op], s.session, s.revision);
      var wire := s.wire + e.events;
      Issued(wire, |wire|, e.session) && s.session.revision <= e.session.revision <= s.revision
  {
    var o := s.ops[op];
    var e := EffectOf(action, op, o, s.session, s.revision);
    assert OperationOk(s, op);
    IssuedStays(s.wire, e.events, |s.wire|, s.session);
    if action.RetryLookup? || action.SwapAndRetry? {
      IssuedStays(s.wire, e.events, |s.wire|, Session(o.phase.challenge, o.config));
    }
  }

  lemma ActInv(s: State, op: nat, action: Action)
    requires Inv(s) && Enabled(s, Act(op, action))
    ensures Inv(Next(s, Act(op, action)))
  {
    var o := s.ops[op];
    var e := EffectOf(action, op, o, s.session, s.revision);
    assert OperationOk(s, op);
    ActionEvent(s, op, action);
    ActionTraffic(action, op, o, s.session, s.revision, Renames(s.wire, op));
    RenamesGrow(s.wire, e.events, op);
    ActionCarries(s, op, action);
    ActionSession(s, op, action);
    ActedInv(s, op, e);
  }

  lemma ActedInv(s: State, op: nat, e: Effect)
    requires Inv(s) && op in s.ops && |e.events| <= 1
    requires |e.events| == 1 ==> e.events[0].op == op && EventOk(s.wire + e.events, |s.wire|)
    requires TrafficOk(e.phase, Renames(s.wire + e.events, op))
    requires CarriesOk(s.wire + e.events, op, s.ops[op].(phase := e.phase))
    requires Issued(s.wire + e.events, |s.wire + e.events|, e.session) && e.session.revision <= s.revision
    requires e.phase.Starting? ==> s.lock == None && s.ops[op].config == s.revision
    ensures Inv(Acted(s, op, e))
  {
    var t := Acted(s, op, e);
    assert OperationOk(s, op);
    forall k | k in t.ops ensures OperationOk(t, k) {
      OthersOk(s, op, e, k);
    }
    forall k ensures Untouched(t, k) {
      assert Untouched(s, k);
      RenamesGrow(s.wire, e.events, k);
    }
    forall i: nat | i < |t.wire| ensures EventOk(t.wire, i) {
      if i < |s.wire| {
        EventStays(s.wire, e.events, i);
      }
    }
  }

  lemma OthersOk(s: State, op: nat, e: Effect, k: nat)
    requires op in s.ops && OperationOk(s, op) && k in s.ops && OperationOk(s, k)
    requires |e.events| <= 1 && (|e.events| == 1 ==> e.events[0].op == op)
    requires TrafficOk(e.phase, Renames(s.wire + e.events, op))
    requires CarriesOk(s.wire + e.events, op, s.ops[op].(phase := e.phase))
    requires e.phase.Starting? ==> s.lock == None && s.ops[op].config == s.revision
    ensures OperationOk(Acted(s, op, e), k)
  {
    if k != op {
      CarriesStays(s.wire, e.events, k, s.ops[k]);
      RenamesGrow(s.wire, e.events, k);
    }
  }

  lemma StepInv(s: State, step: Step)
    requires Inv(s) && Enabled(s, step)
    ensures Inv(Next(s, step))
  {
    if step.Act? {
      ActInv(s, step.op, step.action);
    } else {
      var t := Next(s, step);
      forall k | k in t.ops ensures OperationOk(t, k) {
        if k in s.ops {
          assert OperationOk(s, k);
        } else {
          assert Untouched(s, k);
        }
      }
      forall k ensures Untouched(t, k) {
        assert Untouched(s, k);
      }
    }
  }

  // ----- Runs -----

  ghost predicate Trace(states: seq<State>, steps: seq<Step>) {
    && |states| == |steps| + 1 && Init(states[0])
    && forall i | 0 <= i < |steps| :: Follows(states, steps, i)
  }

  ghost predicate Follows(states: seq<State>, steps: seq<Step>, i: nat)
    requires i < |steps| && |states| == |steps| + 1
  {
    Enabled(states[i], steps[i]) && states[i + 1] == Next(states[i], steps[i])
  }

  lemma {:induction false} TraceInv(states: seq<State>, steps: seq<Step>, i: nat)
    requires Trace(states, steps) && i < |states|
    ensures Inv(states[i])
  {
    if i > 0 {
      TraceInv(states, steps, i - 1);
      assert Follows(states, steps, i - 1);
      StepInv(states[i - 1], steps[i - 1]);
    }
  }

  /** A rename carries a torrent id that the daemon of its own configuration revision
      answered to this operation, and it starts while the provider still holds that revision. */
  lemma RenamesAreAdmitted(states: seq<State>, steps: seq<Step>, i: nat, n: nat)
    requires Trace(states, steps) && i < |states| && n < |states[i].wire| && states[i].wire[n].RenameSent?
    ensures var e := states[i].wire[n];
      e.current == e.config && HasAnswer(states[i].wire, n, e.op, e.config, e.torrent)
  {
    TraceInv(states, steps, i);
    assert EventOk(states[i].wire, n);
  }

  /** No request carries a session id that another revision's daemon has issued. */
  lemma SessionsStayWithTheirRevision(states: seq<State>, steps: seq<Step>, i: nat, n: nat)
    requires Trace(states, steps) && i < |states| && n < |states[i].wire|
    requires states[i].wire[n].RenameSent? || states[i].wire[n].LookupSent?
    ensures var e := states[i].wire[n];
      e.session != NO_SESSION ==> e.session.revision == e.config && Issued(states[i].wire, n, e.session)
  {
    TraceInv(states, steps, i);
    assert EventOk(states[i].wire, n);
  }

  /** An operation sends its rename at most twice, the second time only after a challenge. */
  lemma AtMostTwoSendings(states: seq<State>, steps: seq<Step>, i: nat, op: nat)
    requires Trace(states, steps) && i < |states|
    ensures var traffic := Renames(states[i].wire, op);
      && |traffic| <= 3 && Shape(traffic, |traffic|)
  {
    TraceInv(states, steps, i);
    assert Untouched(states[i], op);
    if op in states[i].ops {
      assert OperationOk(states[i], op);
    }
  }

  /** The revision of the stored session never decreases. */
  lemma {:induction false} SessionNeverOlder(states: seq<State>, steps: seq<Step>, i: nat, j: nat)
    requires Trace(states, steps) && i <= j < |states|
    ensures states[i].session.revision <= states[j].session.revision
    decreases j
  {
    if i < j {
      SessionNeverOlder(states, steps, i, j - 1);
      TraceInv(states, steps, j - 1);
      assert Follows(states, steps, j - 1);
      if steps[j - 1].Act? {
        ActionSession(states[j - 1], steps[j - 1].op, steps[j - 1].action);
      }
    }
  }
}
