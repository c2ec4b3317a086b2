/** The qBittorrent client (internal/downloader/qbittorrent): logins, authenticated requests
    and configuration changes interleave step by step. */
module QBittorrent {
  import opened Options

  datatype Cookie = Cookie(name: string, value: string)

  /** A cookie and the configuration revision it was obtained under. */
  datatype Session = Session(cookie: Cookie, revision: nat)

  const NO_SESSION := Session(Cookie("", ""), 0)

  datatype Kind = ExplicitLogin | Read | Mutation

  /** Why an operation logs in: `Login` itself, `sessionFor` without a usable session, or a
      refused request. Only the first does not reuse a stored session. */
  datatype Goal = Explicit | ForSession | AfterRefusal

  /** Where a login stands. Every stage but the first holds the login mutex. */
  datatype Stage =
    | Enter
    | Start
    | Check(config: nat)
    | Send(config: nat)
    | Pending(config: nat)
    | Got(config: nat, cookie: Cookie)
    | Store(config: nat, cookie: Cookie)

  datatype Phase =
    | Asking
    | Checking(config: nat)
    | LoggingIn(goal: Goal, stage: Stage)
    | Rereading
    | RereadingSession(config: nat)
    | Ready(config: nat, session: Session)
    | Starting(config: nat, session: Session)
    | Sent(config: nat, session: Session)
    | Refused(config: nat, session: Session)
    | Ended

  /** `second` marks the second attempt. */
  datatype Operation = Operation(kind: Kind, second: bool, phase: Phase)

  /** What has happened between the client and the daemon, oldest first. `current` is the
      revision the provider held when the request started. */
  datatype Event =
    | LoginSent(op: nat, config: nat)
    | LoginAnswered(op: nat, config: nat, cookie: Cookie)
    | RequestSent(op: nat, config: nat, session: Session, kind: Kind, current: nat)
    | RequestRefused(op: nat, config: nat, session: Session)

  /** `lock` holds the publication lock, `login` the login mutex. `peak` records the highest
      revision ever stored with a session. */
  datatype State = State(revision: nat, lock: Option<nat>, login: Option<nat>, session: Session, peak: nat,
                         ops: map<nat, Operation>, wire: seq<Event>)

  datatype Action =
    | ReadConfig
    | ReadSession
    | LockLogin
    | SendLogin
    | AnswerLogin(cookie: Cookie)
    | StoreSession
    | Admit
    | StartRequest
    | RefuseRequest
    | ClearSession
    | End

  datatype Step = PublishConfig | BeginOperation(op: nat, kind: Kind) | Act(op: nat, action: Action)

  predicate Init(s: State) {
    s.lock == None && s.login == None && s.session == NO_SESSION && s.peak == 0 && s.ops == map[] && s.wire == []
  }

  /** The test that lets a stored session be used with a configuration. */
  predicate Usable(stored: Session, config: nat) {
    stored.cookie.value != "" && stored.revision == config
  }

  predicate HoldsLogin(p: Phase) {
    (p.LoggingIn? && !p.stage.Enter?) || p.Rereading? || p.RereadingSession?
  }

  /** When an operation can take an action; `unlocked` and `free` say that nobody holds the
      publication lock and the login mutex. */
  predicate Possible(action: Action, o: Operation, unlocked: bool, free: bool, revision: nat) {
    var p := o.phase;
    match action
    case ReadConfig => p.Asking? || p.Rereading? || (p.LoggingIn? && (p.stage.Start? || p.stage.Got?))
    case ReadSession => p.Checking? || p.RereadingSession? || (p.LoggingIn? && p.stage.Check?)
    case LockLogin => p.LoggingIn? && p.stage.Enter? && free
    case SendLogin => p.LoggingIn? && p.stage.Send?
    case AnswerLogin(cookie) => p.LoggingIn? && p.stage.Pending? && cookie.value != ""
    case StoreSession => p.LoggingIn? && p.stage.Store?
    case Admit => p.Ready? && o.kind.Mutation? && unlocked && revision == p.config
    case StartRequest => p.Starting? || (p.Ready? && !o.kind.Mutation?)
    case RefuseRequest => p.Sent?
    case ClearSession => p.Refused?
    case End => true
  }

  /** What an action does: the attempt and phase that follow, the stored session and what
      goes over the wire. */
  datatype Effect = Effect(second: bool, phase: Phase, session: Session, events: seq<Event>)

  /** Where an operation goes on once its login has succeeded. */
  function LoggedIn(goal: Goal): Phase {
    match goal
    case Explicit => Ended
    case ForSession => Rereading
    case AfterRefusal => Asking
  }

  function ConfigRead(p: Phase, revision: nat): Phase {
    match p
    case Asking => Checking(revision)
    case Rereading => RereadingSession(revision)
    case LoggingIn(goal, Got(config, cookie)) =>
      LoggingIn(goal, if revision == config then Store(config, cookie) else Start)
    case LoggingIn(Explicit, _) => LoggingIn(Explicit, Send(revision))
    case LoggingIn(goal, _) => LoggingIn(goal, Check(revision))
    case _ => Ended
  }

  function SessionRead(p: Phase, stored: Session): Phase {
    match p
    case Checking(config) => if Usable(stored, config) then Ready(config, stored) else LoggingIn(ForSession, Enter)
    case RereadingSession(config) => if Usable(stored, config) then Ready(config, stored) else Ended
    case LoggingIn(goal, Check(config)) =>
      if Usable(stored, config) then LoggedIn(goal) else LoggingIn(goal, Send(config))
    case _ => Ended
  }

  /** A refused session is forgotten if it is still the stored one; only cookie values and
      revisions are compared. */
  function Cleared(stored: Session, refused: Session): Session {
    if stored.revision == refused.revision && stored.cookie.value == refused.cookie.value then NO_SESSION else stored
  }

  function EffectOf(action: Action, op: nat, o: Operation, stored: Session, revision: nat): Effect
    requires Possible(action, o, true, true, revision)
  {
    var p := o.phase;
    match action
    case ReadConfig => Effect(o.second, ConfigRead(p, revision), stored, [])
    case ReadSession =>
      var next := SessionRead(p, stored);
      Effect(o.second || (p.LoggingIn? && next.Asking?), next, stored, [])
    case LockLogin => Effect(o.second, LoggingIn(p.goal, Start), stored, [])
    case SendLogin => Effect(o.second, LoggingIn(p.goal, Pending(p.stage.config)), stored,
                             [LoginSent(op, p.stage.config)])
    case AnswerLogin(cookie) =>
      Effect(o.second, LoggingIn(p.goal, Got(p.stage.config, cookie)), stored,
             [LoginAnswered(op, p.stage.config, cookie)])
    case StoreSession =>
      Effect(o.second || p.goal.AfterRefusal?, LoggedIn(p.goal), Session(p.stage.cookie, p.stage.config), [])
    case Admit => Effect(o.second, Starting(p.config, p.session), stored, [])
    case StartRequest =>
      Effect(o.second, Sent(p.config, p.session), stored, [RequestSent(op, p.config, p.session, o.kind, revision)])
    case RefuseRequest => Effect(o.second, Refused(p.config, p.session), stored,
                                 [RequestRefused(op, p.config, p.session)])
    case ClearSession =>
      Effect(o.second, if o.second then Ended else LoggingIn(AfterRefusal, Enter), Cleared(stored, p.session), [])
    case End => Effect(o.second, Ended, stored, [])
  }

  predicate Enabled(s: State, step: Step) {
    match step
    case PublishConfig => s.lock == None
    case BeginOperation(op, _) => op !in s.ops
    case Act(op, action) => op in s.ops && Possible(action, s.ops[op], s.lock == None, s.login == None, s.revision)
  }

  function Held(before: Option<nat>, op: nat, holds: bool): Option<nat> {
    if holds then Some(op) else if before == Some(op) then None else before
  }

  function Acted(s: State, op: nat, e: Effect): State
    requires op in s.ops
  {
    State(s.revision, Held(s.lock, op, e.phase.Starting?), Held(s.login, op, HoldsLogin(e.phase)), e.session,
          if s.peak < e.session.revision then e.session.revision else s.peak,
          s.ops[op := Operation(s.ops[op].kind, e.second, e.phase)], s.wire + e.events)
  }

  function Begun(kind: Kind): Operation {
    Operation(kind, false, if kind.ExplicitLogin? then LoggingIn(Explicit, Enter) else Asking)
  }

  function Next(s: State, step: Step): State
    requires Enabled(s, step)
  {
    match step
    case PublishConfig => s.(revision := s.revision + 1)
    case BeginOperation(op, kind) => s.(ops := s.ops[op := Begun(kind)])
    case Act(op, action) => Acted(s, op, EffectOf(action, op, s.ops[op], s.session, s.revision))
  }

  // ----- Invariant -----

  /** The authenticated traffic of one operation. */
  function Requests(wire: seq<Event>, op: nat): seq<Event> {
    if wire == [] then []
    else
      var last := wire[|wire| - 1];
      Requests(wire[..|wire| - 1], op) + if OfRequest(last, op) then [last] else []
  }

  predicate OfRequest(e: Event, op: nat) {
    (e.RequestSent? || e.RequestRefused?) && e.op == op
  }

  /** The first `n` of: one sending, its refusal, a second sending, its refusal. */
  ghost predicate Shape(traffic: seq<Event>, n: nat) {
    && |traffic| == n <= 4
    && (n > 0 ==> traffic[0].RequestSent?)
    && (n > 1 ==> traffic[1].RequestRefused?)
    && (n > 2 ==> traffic[2].RequestSent?)
    && (n > 3 ==> traffic[3].RequestRefused?)
  }

  /** How much traffic an operation has behind it. */
  ghost predicate TrafficOk(o: Operation, traffic: seq<Event>) {
    match o.phase
    case Ended => Shape(traffic, |traffic|)
    case Sent(_, _) => Shape(traffic, if o.second then 3 else 1)
    case Refused(_, _) => Shape(traffic, if o.second then 4 else 2)
    case LoggingIn(AfterRefusal, _) => !o.second && Shape(traffic, 2)
    case LoggingIn(Explicit, _) => !o.second && Shape(traffic, 0)
    case _ => Shape(traffic, if o.second then 2 else 0)
  }

  /** The daemon of the session's revision has handed out its cookie. */
  ghost predicate Obtained(wire: seq<Event>, upTo: nat, session: Session) {
    exists j :: 0 <= j < upTo && j < |wire| && Hands(wire[j], session)
  }

  predicate Hands(e: Event, session: Session) {
    e.LoginAnswered? && Session(e.cookie, e.config) == session
  }

  ghost predicate WasRefused(wire: seq<Event>, session: Session) {
    exists j :: 0 <= j < |wire| && Refuses(wire[j], session)
  }

  predicate Refuses(e: Event, session: Session) {
    e.RequestRefused? && e.session == session
  }

  ghost predicate EventOk(wire: seq<Event>, i: nat)
    requires i < |wire|
  {
    wire[i].RequestSent? ==>
      && wire[i].session.revision == wire[i].config && Obtained(wire, i, wire[i].session)
      && (wire[i].kind.Mutation? ==> wire[i].current == wire[i].config)
  }

  /** What an operation carries along. */
  ghost predicate CarriesOk(wire: seq<Event>, p: Phase) {
    match p
    case Ready(config, session) => session.revision == config && Obtained(wire, |wire|, session)
    case Starting(config, session) => session.revision == config && Obtained(wire, |wire|, session)
    case Refused(config, session) => WasRefused(wire, session)
    case LoggingIn(_, Got(config, cookie)) => cookie.value != "" && Obtained(wire, |wire|, Session(cookie, config))
    case LoggingIn(_, Store(config, cookie)) => cookie.value != "" && Obtained(wire, |wire|, Session(cookie, config))
    case _ => true
  }

  /** The configuration a login has read is no older than any session ever stored. */
  predicate LoginFresh(p: Phase, peak: nat, revision: nat) {
    p.LoggingIn? && !p.stage.Enter? && !p.stage.Start? ==> peak <= p.stage.config <= revision
  }

  ghost predicate OperationOk(s: State, op: nat)
    requires op in s.ops
  {
    var o := s.ops[op];
    && TrafficOk(o, Requests(s.wire, op)) && CarriesOk(s.wire, o.phase) && LoginFresh(o.phase, s.peak, s.revision)
    && (o.phase.Starting? <==> s.lock == Some(op))
    && (o.phase.Starting? ==> o.phase.config == s.revision)
    && (HoldsLogin(o.phase) <==> s.login == Some(op))
  }

  ghost predicate Untouched(s: State, op: nat) {
    op !in s.ops ==> Requests(s.wire, op) == [] && s.lock != Some(op) && s.login != Some(op)
  }

  ghost predicate SessionOk(wire: seq<Event>, session: Session, peak: nat, revision: nat) {
    && (session == NO_SESSION || (session.cookie.value != "" && Obtained(wire, |wire|, session)))
    && session.revision <= peak <= revision
  }

  ghost predicate Inv(s: State) {
    && (forall op | op in s.ops :: OperationOk(s, op))
    && (forall op :: Untouched(s, op))
    && (forall i: nat | i < |s.wire| :: EventOk(s.wire, i))
    && SessionOk(s.wire, s.session, s.peak, s.revision)
  }

  // ----- A longer wire keeps what was known -----

  lemma ObtainedStays(wire: seq<Event>, more: seq<Event>, upTo: nat, session: Session)
    requires Obtained(wire, upTo, session)
    ensures Obtained(wire + more, upTo, session) && Obtained(wire + more, |wire| + |more|, session)
  {
    var j :| 0 <= j < upTo && j < |wire| && Hands(wire[j], session);
    assert (wire + more)[j] == wire[j];
  }

  lemma RefusedStays(wire: seq<Event>, more: seq<Event>, session: Session)
    requires WasRefused(wire, session)
    ensures WasRefused(wire + more, session)
  {
    var j :| 0 <= j < |wire| && Refuses(wire[j], session);
    assert (wire + more)[j] == wire[j];
  }

  lemma EventStays(wire: seq<Event>, more: seq<Event>, i: nat)
    requires i < |wire| && EventOk(wire, i)
    ensures EventOk(wire + more, i)
  {
    assert (wire + more)[i] == wire[i];
    if wire[i].RequestSent? {
      ObtainedStays(wire, more, i, wire[i].session);
    }
  }

  lemma CarriesStays(wire: seq<Event>, more: seq<Event>, p: Phase)
    requires CarriesOk(wire, p)
    ensures CarriesOk(wire + more, p)
  {
    match p
    case Ready(_, session) => ObtainedStays(wire, more, |wire|, session);
    case Starting(_, session) => ObtainedStays(wire, more, |wire|, session);
    case Refused(_, session) => RefusedStays(wire, more, session);
    case LoggingIn(_, Got(config, cookie)) => ObtainedStays(wire, more, |wire|, Session(cookie, config));
    case LoggingIn(_, Store(config, cookie)) => ObtainedStays(wire, more, |wire|, Session(cookie, config));
    case _ =>
  }

  lemma RequestsGrow(wire: seq<Event>, more: seq<Event>, op: nat)
    requires |more| <= 1
    ensures Requests(wire + more, op)
         == Requests(wire, op) + (if |more| == 1 && OfRequest(more[0], op) then more else [])
  {
    if |more| == 1 {
      assert (wire + more)[..|wire|] == wire;
    } else {
      assert wire + more == wire;
    }
  }

  // ----- Steps -----

  lemma ActionEvent(s: State, op: nat, action: Action)
    requires Inv(s) && Enabled(s, Act(op, action))
    ensures var e := EffectOf(action, op, s.ops[op], s.session, s.revision);
      |e.events| <= 1 && (|e.events| == 1 ==> e.events[0].op == op && EventOk(s.wire + e.events, |s.wire|))
  {
    var o := s.ops[op];
    var e := EffectOf(action, op, o, s.session, s.revision);
    assert OperationOk(s, op);
    if action.StartRequest? {
      ObtainedStays(s.wire, e.events, |s.wire|, o.phase.session);
    }
  }

  lemma ActionTraffic(action: Action, op: nat, o: Operation, stored: Session, revision: nat, traffic: seq<Event>)
    requires Possible(action, o, true, true, revision) && TrafficOk(o, traffic)
    ensures var e := EffectOf(action, op, o, stored, revision);
      TrafficOk(Operation(o.kind, e.second, e.phase),
                traffic + if |e.events| == 1 && OfRequest(e.events[0], op) then e.events else [])
  {
    assert traffic + [] == traffic;
  }

  lemma ActionSession(s: State, op: nat, action: Action)
    requires Inv(s) && Enabled(s, Act(op, action))
    ensures var e := EffectOf(action, op, s.ops[op], s.session, s.revision);
      && SessionOk(s.wire + e.events, e.session, Acted(s, op, e).peak, s.revision)
      && (e.session != NO_SESSION && e.session != s.session ==> s.peak <= e.session.revision)
      && (s.peak < e.session.revision ==> s.login == Some(op))
  {
    var e := EffectOf(action, op, s.ops[op], s.session, s.revision);
    var p := s.ops[op].phase;
    assert OperationOk(s, op);
    if action.StoreSession? {
      ObtainedStays(s.wire, e.events, |s.wire|, Session(p.stage.cookie, p.stage.config));
    } else if s.session != NO_SESSION {
      ObtainedStays(s.wire, e.events, |s.wire|, s.session);
    }
  }

  lemma ActionCarries(s: State, op: nat, action: Action)
    requires Inv(s) && Enabled(s, Act(op, action))
    ensures var e := EffectOf(action, op, s.ops[op], s.session, s.revision);
      CarriesOk(s.wire + e.events, e.phase)
  {
    var e := EffectOf(action, op, s.ops[op], s.session, s.revision);
    var p := s.ops[op].phase;
    assert OperationOk(s, op);
    CarriesStays(s.wire, e.events, p);
    if action.AnswerLogin? || action.RefuseRequest? {
      assert (s.wire + e.events)[|s.wire|] == e.events[0];
    } else if action.ReadSession? && s.session != NO_SESSION {
      ObtainedStays(s.wire, e.events, |s.wire|, s.session);
    }
  }

  lemma ActionFresh(s: State, op: nat, action: Action)
    requires Inv(s) && Enabled(s, Act(op, action))
    ensures var e := EffectOf(action, op, s.ops[op], s.session, s.revision);
      LoginFresh(e.phase, Acted(s, op, e).peak, s.revision)
  {
    assert OperationOk(s, op);
  }

  /** An action takes a lock only when it is free. */
  lemma ActionLocks(s: State, op: nat, action: Action)
    requires Inv(s) && Enabled(s, Act(op, action))
    ensures var e := EffectOf(action, op, s.ops[op], s.session, s.revision);
      && (e.phase.Starting? ==> s.lock == None && e.phase.config == s.revision)
      && (HoldsLogin(e.phase) && !HoldsLogin(s.ops[op].phase) ==> s.login == None)
  {
    assert OperationOk(s, op);
  }

  /** An action of another operation leaves the locks of this one alone, and a session is
      stored only by the holder of the login mutex. */
  lemma OthersLocks(s: State, op: nat, e: Effect, k: nat)
    requires op in s.ops && OperationOk(s, op) && k in s.ops && OperationOk(s, k) && k != op
    requires e.phase.Starting? && !s.ops[op].phase.Starting? ==> s.lock == None
    requires HoldsLogin(e.phase) && !HoldsLogin(s.ops[op].phase) ==> s.login == None
    requires s.peak < e.session.revision ==> s.login == Some(op)
    ensures var t, p := Acted(s, op, e), s.ops[k].phase;
      (t.lock == Some(k) <==> s.lock == Some(k)) && (t.login == Some(k) <==> s.login == Some(k)) &&
        LoginFresh(p, t.peak, t.revision)
  {
  }

  lemma OthersOk(s: State, op: nat, e: Effect, k: nat)
    requires op in s.ops && OperationOk(s, op) && k in s.ops && OperationOk(s, k) && k != op
    requires |e.events| <= 1 && (|e.events| == 1 ==> e.events[0].op == op)
    requires e.phase.Starting? && !s.ops[op].phase.Starting? ==> s.lock == None
    requires HoldsLogin(e.phase) && !HoldsLogin(s.ops[op].phase) ==> s.login == None
    requires s.peak < e.session.revision ==> s.login == Some(op)
    ensures OperationOk(Acted(s, op, e), k)
  {
    OthersLocks(s, op, e, k);
    CarriesStays(s.wire, e.events, s.ops[k].phase);
    RequestsGrow(s.wire, e.events, k);
    assert Requests(s.wire + e.events, k) == Requests(s.wire, k);
  }

  /** What the effect of an action respects. */
  ghost predicate EffectFits(s: State, op: nat, e: Effect)
    requires op in s.ops
  {
    && |e.events| <= 1 && (|e.events| == 1 ==> e.events[0].op == op && EventOk(s.wire + e.events, |s.wire|))
    && TrafficOk(Operation(s.ops[op].kind, e.second, e.phase), Requests(s.wire + e.events, op))
    && CarriesOk(s.wire + e.events, e.phase) && LoginFresh(e.phase, Acted(s, op, e).peak, s.revision)
    && SessionOk(s.wire + e.events, e.session, Acted(s, op, e).peak, s.revision)
    && (s.peak < e.session.revision ==> s.login == Some(op))
    && (e.phase.Starting? ==> s.lock == None && e.phase.config == s.revision)
    && (HoldsLogin(e.phase) && !HoldsLogin(s.ops[op].phase) ==> s.login == None)
  }

  lemma ActedOk(s: State, op: nat, e: Effect)
    requires op in s.ops && OperationOk(s, op) && EffectFits(s, op, e)
    ensures OperationOk(Acted(s, op, e), op)
  {
  }

  lemma ActedInv(s: State, op: nat, e: Effect)
    requires Inv(s) && op in s.ops && EffectFits(s, op, e)
    ensures Inv(Acted(s, op, e))
  {
    var t := Acted(s, op, e);
    assert OperationOk(s, op);
    forall k | k in t.ops ensures OperationOk(t, k) {
      if k != op {
        OthersOk(s, op, e, k);
      } else {
        ActedOk(s, op, e);
      }
    }
    forall k ensures Untouched(t, k) {
      assert Untouched(s, k);
      RequestsGrow(s.wire, e.events, k);
    }
    forall i: nat | i < |t.wire| ensures EventOk(t.wire, i) {
      if i < |s.wire| {
        EventStays(s.wire, e.events, i);
      }
    }
  }

  lemma ActionFits(s: State, op: nat, action: Action)
    requires Inv(s) && Enabled(s, Act(op, action))
    ensures EffectFits(s, op, EffectOf(action, op, s.ops[op], s.session, s.revision))
  {
    ActionEvent(s, op, action);
    ActionRequests(s, op, action);
    ActionSession(s, op, action);
    ActionCarries(s, op, action);
    ActionFresh(s, op, action);
    ActionLocks(s, op, action);
  }

  lemma ActionRequests(s: State, op: nat, action: Action)
    requires Inv(s) && Enabled(s, Act(op, action))
    ensures var e := EffectOf(action, op, s.ops[op], s.session, s.revision);
      TrafficOk(Operation(s.ops[op].kind, e.second, e.phase), Requests(s.wire + e.events, op))
  {
    var e := EffectOf(action, op, s.ops[op], s.session, s.revision);
    assert OperationOk(s, op);
    ActionEvent(s, op, action);
    ActionTraffic(action, op, s.ops[op], s.session, s.revision, Requests(s.wire, op));
    RequestsGrow(s.wire, e.events, op);
  }

  lemma ActInv(s: State, op: nat, action: Action)
    requires Inv(s) && Enabled(s, Act(op, action))
    ensures Inv(Next(s, Act(op, action)))
  {
    ActionFits(s, op, action);
    ActedInv(s, op, EffectOf(action, op, s.ops[op], s.session, s.revision));
  }

  lemma StepInv(s: State, step: Step)
    requires Inv(s) && Enabled(s, step)
    ensures Inv(Next(s, step))
  {
    if step.Act? {
      ActInv(s, step.op, step.action);
    } else {
      var t := Next(s, step);
      forall k | k in t.ops ensures OperationOk(t, k) {
        if k in s.ops {
          assert OperationOk(s, k);
        } else {
          assert Untouched(s, k);
        }
      }
      forall k ensures Untouched(t, k) {
        assert Untouched(s, k);
      }
    }
  }

  // ----- Runs -----

  ghost predicate Trace(states: seq<State>, steps: seq<Step>) {
    && |states| == |steps| + 1 && Init(states[0])
    && forall i | 0 <= i < |steps| :: Follows(states, steps, i)
  }

  ghost predicate Follows(states: seq<State>, steps: seq<Step>, i: nat)
    requires i < |steps| && |states| == |steps| + 1
  {
    Enabled(states[i], steps[i]) && states[i + 1] == Next(states[i], steps[i])
  }

  lemma {:induction false} TraceInv(states: seq<State>, steps: seq<Step>, i: nat)
    requires Trace(states, steps) && i < |states|
    ensures Inv(states[i])
  {
    if i > 0 {
      TraceInv(states, steps, i - 1);
      assert Follows(states, steps, i - 1);
      StepInv(states[i - 1], steps[i - 1]);
    }
  }

  /** Every authenticated request carries a cookie that its own configuration's daemon has
      handed out before, and a mutation starts only while the provider holds that revision. */
  lemma CookiesStayWithTheirRevision(states: seq<State>, steps: seq<Step>, i: nat, n: nat)
    requires Trace(states, steps) && i < |states| && n < |states[i].wire| && states[i].wire[n].RequestSent?
    ensures var e := states[i].wire[n];
      && e.session.revision == e.config && Obtained(states[i].wire, n, e.session)
      && (e.kind.Mutation? ==> e.current == e.config)
  {
    TraceInv(states, steps, i);
    assert EventOk(states[i].wire, n);
  }

  /** An operation sends its request at most twice, the second time only after a refusal. */
  lemma AtMostTwoSendings(states: seq<State>, steps: seq<Step>, i: nat, op: nat)
    requires Trace(states, steps) && i < |states|
    ensures var traffic := Requests(states[i].wire, op);
      |traffic| <= 4 && Shape(traffic, |traffic|)
  {
    TraceInv(states, steps, i);
    assert Untouched(states[i], op);
    if op in states[i].ops {
      assert OperationOk(states[i], op);
    }
  }

  lemma {:induction false} PeakGrows(states: seq<State>, steps: seq<Step>, i: nat, j: nat)
    requires Trace(states, steps) && i <= j < |states|
    ensures states[i].peak <= states[j].peak
    ensures states[j].session != NO_SESSION ==>
      states[j].session == states[i].session || states[i].peak <= states[j].session.revision
    decreases j
  {
    if i < j {
      PeakGrows(states, steps, i, j - 1);
      TraceInv(states, steps, j - 1);
      assert Follows(states, steps, j - 1);
      if steps[j - 1].Act? {
        ActionSession(states[j - 1], steps[j - 1].op, steps[j - 1].action);
      }
    }
  }

  /** A stored session is never followed by one of an older revision, not even when it was
      cleared in between, and no session is newer than the provider. */
  lemma SessionNeverOlder(states: seq<State>, steps: seq<Step>, i: nat, j: nat)
    requires Trace(states, steps) && i <= j < |states| && states[j].session != NO_SESSION
    ensures states[i].session.revision <= states[j].session.revision <= states[j].revision
  {
    PeakGrows(states, steps, i, j);
    TraceInv(states, steps, i);
    TraceInv(states, steps, j);
  }

  /** A stored session is dropped only when the daemon has refused a request that carried
      its cookie value under its revision. */
  lemma DroppedOnlyWhenRefused(states: seq<State>, steps: seq<Step>, i: nat) returns (refused: Session)
    requires Trace(states, steps) && i < |steps| && states[i].session != NO_SESSION &&
      states[i + 1].session == NO_SESSION
    ensures WasRefused(states[i].wire, refused)
    ensures refused.revision == states[i].session.revision && refused.cookie.value == states[i].session.cookie.value
  {
    TraceInv(states, steps, i);
    assert Follows(states, steps, i);
    var op := steps[i].op;
    assert OperationOk(states[i], op);
    refused := states[i].ops[op].phase.session;
  }

  /** At most one login runs at a time. */
  lemma OneLoginAtATime(states: seq<State>, steps: seq<Step>, i: nat, a: nat, b: nat)
    requires Trace(states, steps) && i < |states| && a in states[i].ops && b in states[i].ops
    requires HoldsLogin(states[i].ops[a].phase) && HoldsLogin(states[i].ops[b].phase)
    ensures a == b
  {
    TraceInv(states, steps, i);
    assert OperationOk(states[i], a) && OperationOk(states[i], b);
  }
}
