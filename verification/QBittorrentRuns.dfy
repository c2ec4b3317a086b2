/** Whole operations of the qBittorrent client (internal/downloader/qbittorrent): what a refusal
    does to the stored session, which session a second sending carries, and that logins and
    requests can come to their end. */
module QBittorrentRuns {
  import opened Options
  import opened QBittorrent

  // ----- What a refusal does to the stored session -----

  /** The sessions are told apart by cookie value and revision only. */
  predicate SameLogin(a: Session, b: Session) {
    a.revision == b.revision && a.cookie.value == b.cookie.value
  }

  /** A refusal forgets the session that was refused, and no other. */
  lemma ClearForgetsRefused(s: State, op: nat)
    requires Inv(s) && Enabled(s, Act(op, ClearSession))
    ensures var refused, t := s.ops[op].phase.session, Next(s, Act(op, ClearSession));
      && WasRefused(s.wire, refused)
      && (if SameLogin(s.session, refused) then t.session == NO_SESSION else t.session == s.session)
      && (t.session.cookie.value != "" ==> !SameLogin(t.session, refused))
  {
    assert OperationOk(s, op);
  }

  /** Only storing a new one and clearing a refused one change the stored session. */
  lemma OnlyTheseTouchSession(s: State, step: Step)
    requires Enabled(s, step) && Next(s, step).session != s.session
    ensures step.Act? && (step.action.StoreSession? || step.action.ClearSession?)
  {
  }

  /** Step `k` stores the session. */
  predicate Stores(s: State, step: Step, session: Session) {
    && step.Act? && step.action.StoreSession? && step.op in s.ops
    && s.ops[step.op].phase.LoggingIn? && s.ops[step.op].phase.stage.Store?
    && Session(s.ops[step.op].phase.stage.cookie, s.ops[step.op].phase.stage.config) == session
  }

  lemma StoreStores(s: State, op: nat)
    requires Enabled(s, Act(op, StoreSession))
    ensures Stores(s, Act(op, StoreSession), Next(s, Act(op, StoreSession)).session)
  {
  }

  /** The session is another than the refused one, or has been stored since step `c`. */
  ghost predicate Fresh(states: seq<State>, steps: seq<Step>, c: nat, n: nat, refused: Session, session: Session) {
    || session.cookie.value == "" || !SameLogin(session, refused)
    || exists k: nat :: c < k < n && StoredBy(states, steps, k, session)
  }

  ghost predicate StoredBy(states: seq<State>, steps: seq<Step>, k: nat, session: Session) {
    k < |steps| && k < |states| && Stores(states[k], steps[k], session)
  }

  /** After operation `op` has cleared its refused session at step `c`, what is stored is fresh. */
  lemma {:induction false} StoredIsFresh(states: seq<State>, steps: seq<Step>, c: nat, op: nat, n: nat)
    requires Trace(states, steps) && c < n < |states|
    requires steps[c] == Act(op, ClearSession)
    requires op in states[c].ops && states[c].ops[op].phase.Refused?
    ensures Fresh(states, steps, c, n, states[c].ops[op].phase.session, states[n].session)
    decreases n
  {
    assert Follows(states, steps, n - 1);
    if n == c + 1 {
      TraceInv(states, steps, c);
      ClearForgetsRefused(states[c], op);
    } else {
      StoredIsFresh(states, steps, c, op, n - 1);
      if states[n].session != states[n - 1].session {
        OnlyTheseTouchSession(states[n - 1], steps[n - 1]);
        TraceInv(states, steps, n - 1);
        if steps[n - 1].action.StoreSession? {
          StoreStores(states[n - 1], steps[n - 1].op);
          assert StoredBy(states, steps, n - 1, states[n].session);
        } else {
          ClearForgetsRefused(states[n - 1], steps[n - 1].op);
        }
      }
    }
  }

  // ----- Which session a second sending carries -----

  /** The last clearing of a refused session by the operation among the first `n` steps. */
  function ClearedAt(steps: seq<Step>, n: nat, op: nat): Option<nat>
    requires n <= |steps|
  {
    if n == 0 then None
    else if steps[n - 1] == Act(op, ClearSession) then Some(n - 1)
    else ClearedAt(steps, n - 1, op)
  }

  /** The operation has been refused once and goes on. */
  predicate GoesOn(o: Operation) {
    !o.phase.Ended? && (o.second || (o.phase.LoggingIn? && o.phase.goal.AfterRefusal?))
  }

  predicate CarriesSession(p: Phase) {
    p.Ready? || p.Starting? || p.Sent? || p.Refused?
  }

  /** An operation that goes on after a refusal has cleared the refused session, and what it
      carries now is fresh. */
  ghost predicate WentOn(states: seq<State>, steps: seq<Step>, n: nat, op: nat)
    requires n < |states| && n <= |steps| && op in states[n].ops
  {
    var o := states[n].ops[op];
    && (CarriesSession(o.phase) ==> o.phase.session.cookie.value != "")
    && (GoesOn(o) ==>
          var c := ClearedAt(steps, n, op);
          && c.Some? && c.value < n && c.value < |steps| && steps[c.value] == Act(op, ClearSession)
          && op in states[c.value].ops && states[c.value].ops[op].phase.Refused?
          && (CarriesSession(o.phase) ==>
                Fresh(states, steps, c.value, n, states[c.value].ops[op].phase.session, o.phase.session)))
  }

  lemma FreshLater(states: seq<State>, steps: seq<Step>, c: nat, n: nat, refused: Session, session: Session)
    requires Fresh(states, steps, c, n, refused, session)
    ensures Fresh(states, steps, c, n + 1, refused, session)
  {
  }

  lemma OtherSteps(s: State, step: Step, op: nat)
    requires Enabled(s, step) && op in Next(s, step).ops && !(step.Act? && step.op == op)
    ensures op in s.ops ==> Next(s, step).ops[op] == s.ops[op]
    ensures op !in s.ops ==> !GoesOn(Next(s, step).ops[op]) && !CarriesSession(Next(s, step).ops[op].phase)
  {
  }

  /** How one action of an operation bears on what it carries. */
  lemma OwnAction(o: Operation, action: Action, op: nat, stored: Session, revision: nat, unlocked: bool, free: bool)
    requires Possible(action, o, unlocked, free, revision)
    ensures var e := EffectOf(action, op, o, stored, revision);
      var t := Operation(o.kind, e.second, e.phase);
      && (CarriesSession(t.phase) ==>
            || (CarriesSession(o.phase) && t.phase.session == o.phase.session && t.second == o.second)
            || (action.ReadSession? && t.phase.session == stored && stored.cookie.value != "" && t.second == o.second))
      && (GoesOn(t) ==> GoesOn(o) || (action.ClearSession? && o.phase.Refused? && !CarriesSession(t.phase)))
      && (action.ClearSession? ==> o.phase.Refused? && !CarriesSession(t.phase) && (o.second ==> t.phase.Ended?))
  {
    match action
    case ReadConfig =>
    case ReadSession =>
    case StoreSession =>
    case _ =>
  }

  lemma WentOnStays(states: seq<State>, steps: seq<Step>, n: nat, op: nat)
    requires Trace(states, steps) && n < |steps| && op in states[n].ops && WentOn(states, steps, n, op)
    requires op in states[n + 1].ops && states[n + 1].ops[op] == states[n].ops[op] && steps[n] != Act(op, ClearSession)
    ensures WentOn(states, steps, n + 1, op)
  {
    var o := states[n].ops[op];
    if GoesOn(o) && CarriesSession(o.phase) {
      var c := ClearedAt(steps, n, op).value;
      FreshLater(states, steps, c, n, states[c].ops[op].phase.session, o.phase.session);
    }
  }

  lemma WentOnByAction(states: seq<State>, steps: seq<Step>, n: nat, op: nat, action: Action)
    requires Trace(states, steps) && n < |steps| && op in states[n].ops && WentOn(states, steps, n, op)
    requires steps[n] == Act(op, action)
    ensures op in states[n + 1].ops && WentOn(states, steps, n + 1, op)
  {
    assert Follows(states, steps, n);
    var s, o := states[n], states[n].ops[op];
    OwnAction(o, action, op, s.session, s.revision, s.lock == None, s.login == None);
    var t := states[n + 1].ops[op];
    if GoesOn(t) && CarriesSession(t.phase) {
      var c := ClearedAt(steps, n, op).value;
      var refused := states[c].ops[op].phase.session;
      StoredIsFresh(states, steps, c, op, n);
      FreshLater(states, steps, c, n, refused, t.phase.session);
    }
  }

  lemma {:induction false} AllWentOn(states: seq<State>, steps: seq<Step>, n: nat, op: nat)
    requires Trace(states, steps) && n < |states| && op in states[n].ops
    ensures WentOn(states, steps, n, op)
  {
    assert n > 0 ==> Follows(states, steps, n - 1);
    if op in states[n - 1].ops {
      AllWentOn(states, steps, n - 1, op);
    }
    if steps[n - 1].Act? && steps[n - 1].op == op {
      WentOnByAction(states, steps, n - 1, op, steps[n - 1].action);
    } else {
      OtherSteps(states[n - 1], steps[n - 1], op);
      if op in states[n - 1].ops {
        WentOnStays(states, steps, n - 1, op);
      }
    }
  }

  /** A request that is sent a second time carries a session other than the refused one, or one
      that was stored after the refused one had been cleared. */
  lemma SecondSendingIsFresh(states: seq<State>, steps: seq<Step>, i: nat, op: nat) returns (c: nat, refused: Session)
    requires Trace(states, steps) && i < |steps| && steps[i] == Act(op, StartRequest)
    requires op in states[i].ops && states[i].ops[op].second
    ensures c < i && steps[c] == Act(op, ClearSession) && WasRefused(states[c].wire, refused)
    ensures op in states[c].ops && states[c].ops[op].phase.Refused? && states[c].ops[op].phase.session == refused
    ensures var n := |states[i].wire|;
      && |states[i + 1].wire| == n + 1 && states[i + 1].wire[..n] == states[i].wire
      && states[i + 1].wire[n].RequestSent? && states[i + 1].wire[n].op == op
      && states[i + 1].wire[n].session.cookie.value != ""
      && Fresh(states, steps, c, i, refused, states[i + 1].wire[n].session)
  {
    assert Follows(states, steps, i);
    AllWentOn(states, steps, i, op);
    c := ClearedAt(steps, i, op).value;
    refused := states[c].ops[op].phase.session;
    TraceInv(states, steps, c);
    assert OperationOk(states[c], op);
  }

  // ----- Operations come to their end -----

  ghost predicate Path(states: seq<State>, steps: seq<Step>) {
    |states| == |steps| + 1 && forall i | 0 <= i < |steps| :: Follows(states, steps, i)
  }

  /** The steps are enabled one after the other and lead from `s` to `t`. */
  ghost predicate Leads(s: State, steps: seq<Step>, t: State) {
    exists states: seq<State> :: PathTo(states, steps, s, t)
  }

  ghost predicate PathTo(states: seq<State>, steps: seq<Step>, s: State, t: State) {
    Path(states, steps) && states[0] == s && states[|steps|] == t
  }

  lemma LeadsNowhere(s: State)
    ensures Leads(s, [], s)
  {
    assert PathTo([s], [], s, s);
  }

  lemma LeadsOn(s: State, step: Step, rest: seq<Step>, t: State)
    requires Enabled(s, step) && Leads(Next(s, step), rest, t)
    ensures Leads(s, [step] + rest, t)
  {
    var more: seq<State> :| PathTo(more, rest, Next(s, step), t);
    var states, steps := [s] + more, [step] + rest;
    forall i | 0 <= i < |steps| ensures Follows(states, steps, i) {
      assert i > 0 ==> Follows(more, rest, i - 1);
    }
    assert PathTo(states, steps, s, t);
  }

  /** The state with the operation in this phase, this session stored and so much more on the wire,
      when nobody holds a lock otherwise. */
  function At(s: State, op: nat, second: bool, p: Phase, session: Session, events: seq<Event>): State
    requires op in s.ops
  {
    State(s.revision, if p.Starting? then Some(op) else None, if HoldsLogin(p) then Some(op) else None, session,
          if s.peak < session.revision then session.revision else s.peak,
          s.ops[op := Operation(s.ops[op].kind, second, p)], s.wire + events)
  }

  /** Nobody but the operation holds a lock, and stored sessions are as new as ever. */
  predicate Quiet(s: State, op: nat) {
    && op in s.ops && (s.lock == None || s.lock == Some(op)) && (s.login == None || s.login == Some(op))
    && s.session.revision <= s.peak <= s.revision
  }

  lemma ActedAt(s: State, op: nat, second: bool, p: Phase, session: Session, events: seq<Event>, e: Effect)
    requires Quiet(s, op) && (session.revision <= s.peak || e.session.revision >= session.revision)
    ensures Acted(At(s, op, second, p, session, events), op, e)
         == At(s, op, e.second, e.phase, e.session, events + e.events)
  {
    var a := At(s, op, second, p, session, events);
    assert a.ops[op := Operation(s.ops[op].kind, e.second, e.phase)]
         == s.ops[op := Operation(s.ops[op].kind, e.second, e.phase)];
    assert (s.wire + events) + e.events == s.wire + (events + e.events);
  }

  /** An action, and what follows it. */
  lemma ActOn(s: State, op: nat, action: Action, second: bool, p: Phase, session: Session, events: seq<Event>,
              e: Effect, rest: seq<Step>, t: State)
    requires Quiet(s, op) && (session.revision <= s.peak || e.session.revision >= session.revision)
    requires Possible(action, Operation(s.ops[op].kind, second, p), !p.Starting?, !HoldsLogin(p), s.revision)
    requires EffectOf(action, op, Operation(s.ops[op].kind, second, p), session, s.revision) == e
    requires Leads(At(s, op, e.second, e.phase, e.session, events + e.events), rest, t)
    ensures Leads(At(s, op, second, p, session, events), [Act(op, action)] + rest, t)
  {
    var a := At(s, op, second, p, session, events);
    ActedAt(s, op, second, p, session, events, e);
    assert Enabled(a, Act(op, action)) && Next(a, Act(op, action)) == Acted(a, op, e);
    LeadsOn(a, Act(op, action), rest, t);
  }

  lemma Nothing(events: seq<Event>)
    ensures events + [] == events
  {
  }

  /** The end of a login, from sending it on, and what follows. */
  function SendSteps(op: nat, cookie: Cookie, rest: seq<Step>): seq<Step> {
    [Act(op, SendLogin)] + ([Act(op, AnswerLogin(cookie))] + ([Act(op, ReadConfig)] + ([Act(op, StoreSession)] + rest)))
  }

  /** A login that does not find a usable session, and what follows. */
  function LoginSteps(op: nat, goal: Goal, cookie: Cookie, rest: seq<Step>): seq<Step> {
    var sending := SendSteps(op, cookie, rest);
    [Act(op, LockLogin)] + ([Act(op, ReadConfig)] + if goal.Explicit? then sending
                            else [Act(op, ReadSession)] + sending)
  }

  /** What a login leaves on the wire. */
  function LoginEvents(op: nat, config: nat, cookie: Cookie): seq<Event> {
    [LoginSent(op, config)] + [LoginAnswered(op, config, cookie)]
  }

  lemma LoginAnswers(s: State, op: nat, goal: Goal, session: Session, events: seq<Event>, cookie: Cookie,
                     rest: seq<Step>, t: State)
    requires Quiet(s, op) && cookie.value != "" && session.revision <= s.peak
    requires var out := events + LoginEvents(op, s.revision, cookie);
      Leads(At(s, op, goal.AfterRefusal?, LoggedIn(goal), Session(cookie, s.revision), out), rest, t)
    ensures Leads(At(s, op, false, LoggingIn(goal, Send(s.revision)), session, events), SendSteps(op, cookie, rest), t)
  {
    var r := s.revision;
    var sent := events + [LoginSent(op, r)];
    var out := sent + [LoginAnswered(op, r, cookie)];
    Nothing(out);
    assert out == events + LoginEvents(op, r, cookie);
    ActOn(s, op, StoreSession, false, LoggingIn(goal, Store(r, cookie)), session, out,
          Effect(goal.AfterRefusal?, LoggedIn(goal), Session(cookie, r), []), rest, t);
    ActOn(s, op, ReadConfig, false, LoggingIn(goal, Got(r, cookie)), session, out,
          Effect(false, LoggingIn(goal, Store(r, cookie)), session, []), [Act(op, StoreSession)] + rest, t);
    ActOn(s, op, AnswerLogin(cookie), false, LoggingIn(goal, Pending(r)), session, sent,
          Effect(false, LoggingIn(goal, Got(r, cookie)), session, [LoginAnswered(op, r, cookie)]),
          [Act(op, ReadConfig)] + ([Act(op, StoreSession)] + rest), t);
    ActOn(s, op, SendLogin, false, LoggingIn(goal, Send(r)), session, events,
          Effect(false, LoggingIn(goal, Pending(r)), session, [LoginSent(op, r)]),
          [Act(op, AnswerLogin(cookie))] + ([Act(op, ReadConfig)] + ([Act(op, StoreSession)] + rest)), t);
  }

  /** A login that finds no usable session gets one from the daemon and stores it. */
  lemma LoginCompletes(s: State, op: nat, goal: Goal, session: Session, events: seq<Event>, cookie: Cookie,
                       rest: seq<Step>, t: State)
    requires Quiet(s, op) && cookie.value != "" && session.revision <= s.peak
    requires goal.Explicit? || !Usable(session, s.revision)
    requires var out := events + LoginEvents(op, s.revision, cookie);
      Leads(At(s, op, goal.AfterRefusal?, LoggedIn(goal), Session(cookie, s.revision), out), rest, t)
    ensures Leads(At(s, op, false, LoggingIn(goal, Enter), session, events), LoginSteps(op, goal, cookie, rest), t)
  {
    var r := s.revision;
    var sending := SendSteps(op, cookie, rest);
    LoginAnswers(s, op, goal, session, events, cookie, rest, t);
    Nothing(events);
    if goal.Explicit? {
      ActOn(s, op, ReadConfig, false, LoggingIn(goal, Start), session, events,
            Effect(false, LoggingIn(goal, Send(r)), session, []), sending, t);
      ActOn(s, op, LockLogin, false, LoggingIn(goal, Enter), session, events,
            Effect(false, LoggingIn(goal, Start), session, []), [Act(op, ReadConfig)] + sending, t);
    } else {
      ActOn(s, op, ReadSession, false, LoggingIn(goal, Check(r)), session, events,
            Effect(false, LoggingIn(goal, Send(r)), session, []), sending, t);
      ActOn(s, op, ReadConfig, false, LoggingIn(goal, Start), session, events,
            Effect(false, LoggingIn(goal, Check(r)), session, []), [Act(op, ReadSession)] + sending, t);
      ActOn(s, op, LockLogin, false, LoggingIn(goal, Enter), session, events,
            Effect(false, LoggingIn(goal, Start), session,
                   []), [Act(op, ReadConfig)] + ([Act(op, ReadSession)] + sending), t);
    }
  }

  /** Reading configuration and session, admission for mutations, and sending. */
  function RequestSteps(op: nat, kind: Kind): seq<Step> {
    [Act(op, ReadConfig)] + ([Act(op, ReadSession)]
    + if kind.Mutation? then [Act(op, Admit)] + ([Act(op, StartRequest)] + []) else [Act(op, StartRequest)] + [])
  }

  /** The state in which the request has been sent with this session. */
  function SentAt(s: State, op: nat, second: bool, session: Session, events: seq<Event>): State
    requires op in s.ops
  {
    At(s, op, second, Sent(s.revision, session), session,
       events + [RequestSent(op, s.revision, session, s.ops[op].kind, s.revision)])
  }

  lemma ReadyIsSent(s: State, op: nat, second: bool, session: Session, events: seq<Event>)
    requires Quiet(s, op) && s.ops[op].kind != ExplicitLogin && Usable(session, s.revision)
    ensures Leads(At(s, op, second, Ready(s.revision, session), session, events),
                  if s.ops[op].kind.Mutation? then [Act(op, Admit)] + ([Act(op, StartRequest)] + [])
                  else [Act(op, StartRequest)] + [],
                  SentAt(s, op, second, session, events))
  {
    var r, t := s.revision, SentAt(s, op, second, session, events);
    var sent := Effect(second, Sent(r, session), session, [RequestSent(op, r, session, s.ops[op].kind, r)]);
    LeadsNowhere(t);
    Nothing(events);
    if s.ops[op].kind.Mutation? {
      ActOn(s, op, StartRequest, second, Starting(r, session), session, events, sent, [], t);
      ActOn(s, op, Admit, second, Ready(r, session), session, events,
            Effect(second, Starting(r, session), session, []), [Act(op, StartRequest)] + [], t);
    } else {
      ActOn(s, op, StartRequest, second, Ready(r, session), session, events, sent, [], t);
    }
  }

  /** An operation that asks anew, or rereads after a login, with a usable session stored sends
      its request with that session. */
  lemma RequestIsSent(s: State, op: nat, second: bool, p: Phase, session: Session, events: seq<Event>)
    requires Quiet(s, op) && s.ops[op].kind != ExplicitLogin && Usable(session, s.revision)
    requires p == Asking || p == Rereading
    ensures Leads(At(s, op, second, p, session, events), RequestSteps(op, s.ops[op].kind),
                  SentAt(s, op, second, session, events))
  {
    var r, t := s.revision, SentAt(s, op, second, session, events);
    var rest := if s.ops[op].kind.Mutation? then [Act(op, Admit)] + ([Act(op, StartRequest)] + [])
                else [Act(op, StartRequest)] + [];
    Nothing(events);
    ReadyIsSent(s, op, second, session, events);
    var reading := if p == Asking then Checking(r) else RereadingSession(r);
    ActOn(s, op, ReadSession, second, reading, session, events, Effect(second, Ready(r, session), session, []), rest,
          t);
    ActOn(s, op, ReadConfig, second, p, session, events, Effect(second, reading, session, []),
          [Act(op, ReadSession)] + rest, t);
  }

  lemma AtItself(s: State, op: nat)
    requires Inv(s) && op in s.ops && s.lock == None && s.login == None
    requires !s.ops[op].phase.Starting? && !HoldsLogin(s.ops[op].phase)
    ensures Quiet(s, op) && At(s, op, s.ops[op].second, s.ops[op].phase, s.session, []) == s
  {
    assert s.ops[op := s.ops[op]] == s.ops;
    assert s.wire + [] == s.wire;
  }

  /** Undisturbed, an operation without a usable session logs in and sends its request with the
      cookie it was answered; with one it sends it at once. */
  lemma FirstRequestIsSent(s: State, op: nat, cookie: Cookie) returns (steps: seq<Step>)
    requires Inv(s) && s.lock == None && s.login == None && op in s.ops &&
      s.ops[op] == Operation(s.ops[op].kind, false, Asking)
    requires s.ops[op].kind != ExplicitLogin && cookie.value != ""
    ensures Leads(s, steps, if Usable(s.session, s.revision) then SentAt(s, op, false, s.session, [])
                            else SentAt(s, op, false, Session(cookie, s.revision), LoginEvents(op, s.revision, cookie)))
  {
    AtItself(s, op);
    var r, kind := s.revision, s.ops[op].kind;
    if Usable(s.session, r) {
      RequestIsSent(s, op, false, Asking, s.session, []);
      steps := RequestSteps(op, kind);
    } else {
      var latest := Session(cookie, r);
      var t := SentAt(s, op, false, latest, LoginEvents(op, r, cookie));
      assert [] + LoginEvents(op, r, cookie) == LoginEvents(op, r, cookie);
      RequestIsSent(s, op, false, Rereading, latest, LoginEvents(op, r, cookie));
      LoginCompletes(s, op, ForSession, s.session, [], cookie, RequestSteps(op, kind), t);
      var login := LoginSteps(op, ForSession, cookie, RequestSteps(op, kind));
      Nothing([]);
      ActOn(s, op, ReadSession, false, Checking(r), s.session, [],
            Effect(false, LoggingIn(ForSession, Enter), s.session, []), login, t);
      ActOn(s, op, ReadConfig, false, Asking, s.session, [], Effect(false, Checking(r), s.session, []),
            [Act(op, ReadSession)] + login, t);
      steps := [Act(op, ReadConfig)] + ([Act(op, ReadSession)] + login);
    }
  }

  /** Undisturbed, a request that is refused the first time leads to a login and is sent again,
      with the new cookie if the refused session was the stored one and with the stored session if
      that is another and usable. */
  lemma RefusedRequestIsSentAgain(s: State, op: nat, cookie: Cookie) returns (steps: seq<Step>)
    requires Inv(s) && s.lock == None && s.login == None && op in s.ops && cookie.value != ""
    requires s.ops[op].phase.Sent? && !s.ops[op].second && s.ops[op].kind != ExplicitLogin
    ensures var refused := s.ops[op].phase.session;
      var out := [RequestRefused(op, s.ops[op].phase.config, refused)];
      Leads(s, steps,
            if Usable(s.session, s.revision) && !SameLogin(s.session, refused) then SentAt(s, op, true, s.session, out)
            else SentAt(s, op, true, Session(cookie, s.revision), out + LoginEvents(op, s.revision, cookie)))
  {
    AtItself(s, op);
    var r, kind, p := s.revision, s.ops[op].kind, s.ops[op].phase;
    var out := [RequestRefused(op, p.config, p.session)];
    var left := Cleared(s.session, p.session);
    var t, login;
    if Usable(left, r) {
      t := SentAt(s, op, true, left, out);
      login := ReusedLogin(s, op, left, out);
    } else {
      t := SentAt(s, op, true, Session(cookie, r), out + LoginEvents(op, r, cookie));
      RequestIsSent(s, op, true, Asking, Session(cookie, r), out + LoginEvents(op, r, cookie));
      LoginCompletes(s, op, AfterRefusal, left, out, cookie, RequestSteps(op, kind), t);
      login := LoginSteps(op, AfterRefusal, cookie, RequestSteps(op, kind));
    }
    Nothing(out);
    assert [] + out == out;
    ActOn(s, op, ClearSession, false, Refused(p.config, p.session), s.session, out,
          Effect(false, LoggingIn(AfterRefusal, Enter), left, []), login, t);
    ActOn(s, op, RefuseRequest, false, p, s.session, [], Effect(false, Refused(p.config, p.session), s.session, out),
          [Act(op, ClearSession)] + login, t);
    steps := [Act(op, RefuseRequest)] + ([Act(op, ClearSession)] + login);
  }

  /** A login after a refusal that finds a usable session goes on with it. */
  lemma ReusedLogin(s: State, op: nat, session: Session, events: seq<Event>) returns (steps: seq<Step>)
    requires Quiet(s, op) && s.ops[op].kind != ExplicitLogin && Usable(session, s.revision) &&
      session.revision <= s.peak
    ensures Leads(At(s, op, false, LoggingIn(AfterRefusal, Enter), session, events), steps,
                  SentAt(s, op, true, session, events))
  {
    var r, t := s.revision, SentAt(s, op, true, session, events);
    var rest := RequestSteps(op, s.ops[op].kind);
    Nothing(events);
    RequestIsSent(s, op, true, Asking, session, events);
    ActOn(s, op, ReadSession, false, LoggingIn(AfterRefusal, Check(r)), session, events,
          Effect(true, Asking, session, []), rest, t);
    ActOn(s, op, ReadConfig, false, LoggingIn(AfterRefusal, Start), session, events,
          Effect(false, LoggingIn(AfterRefusal, Check(r)), session, []), [Act(op, ReadSession)] + rest, t);
    ActOn(s, op, LockLogin, false, LoggingIn(AfterRefusal, Enter), session, events,
          Effect(false, LoggingIn(AfterRefusal, Start), session,
                 []), [Act(op, ReadConfig)] + ([Act(op, ReadSession)] + rest), t);
    steps := [Act(op, LockLogin)] + ([Act(op, ReadConfig)] + ([Act(op, ReadSession)] + rest));
  }

  /** An operation that ends gives up whatever lock it had and leaves everything else alone. */
  lemma EndReleases(s: State, op: nat)
    requires Inv(s) && op in s.ops
    ensures Enabled(s, Act(op, End))
    ensures var t := Next(s, Act(op, End));
      && t.ops == s.ops[op := s.ops[op].(phase := Ended)] && t.session == s.session && t.wire == s.wire
      && t.lock == (if s.lock == Some(op) then None else s.lock)
      && t.login == (if s.login == Some(op) then None else s.login)
  {
    assert s.wire + [] == s.wire;
  }

  lemma RefusalIs(s: State, op: nat)
    requires Inv(s) && op in s.ops && s.ops[op].phase.Sent?
    ensures Enabled(s, Act(op, RefuseRequest))
    ensures var p, t := s.ops[op].phase, Next(s, Act(op, RefuseRequest));
      && t.ops == s.ops[op := s.ops[op].(phase := Refused(p.config, p.session))] && t.session == s.session
      && t.wire == s.wire + [RequestRefused(op, p.config, p.session)]
  {
  }

  lemma LastClearIs(s: State, op: nat)
    requires op in s.ops && s.ops[op].phase.Refused? && s.ops[op].second
    ensures Enabled(s, Act(op, ClearSession))
    ensures var refused, t := s.ops[op].phase.session, Next(s, Act(op, ClearSession));
      && t.ops == s.ops[op := s.ops[op].(phase := Ended)] && t.wire == s.wire
      && t.session == (if SameLogin(s.session, refused) then NO_SESSION else s.session)
  {
    Nothing(s.wire);
  }

  /** A second refusal ends the operation; it too forgets the refused session. */
  lemma SecondRefusalEnds(s: State, op: nat) returns (t: State)
    requires Inv(s) && op in s.ops && s.ops[op].phase.Sent? && s.ops[op].second
    ensures Leads(s, [Act(op, RefuseRequest)] + [Act(op, ClearSession)], t)
    ensures var refused := s.ops[op].phase.session;
      && t.ops == s.ops[op := s.ops[op].(phase := Ended)]
      && t.wire == s.wire + [RequestRefused(op, s.ops[op].phase.config, refused)]
      && t.session == (if SameLogin(s.session, refused) then NO_SESSION else s.session)
  {
    RefusalIs(s, op);
    var m := Next(s, Act(op, RefuseRequest));
    LastClearIs(m, op);
    t := Next(m, Act(op, ClearSession));
    LeadsNowhere(t);
    LeadsOn(m, Act(op, ClearSession), [], t);
    assert [Act(op, ClearSession)] + [] == [Act(op, ClearSession)];
    LeadsOn(s, Act(op, RefuseRequest), [Act(op, ClearSession)], t);
  }

  /** A login whose configuration has changed meanwhile starts over. */
  lemma StaleLoginStartsOver(s: State, op: nat)
    requires Inv(s) && op in s.ops && s.ops[op].phase.LoggingIn? && s.ops[op].phase.stage.Got?
    ensures Enabled(s, Act(op, ReadConfig))
    ensures var p, q := s.ops[op].phase, Next(s, Act(op, ReadConfig)).ops[op].phase;
      && q.LoggingIn? && q.goal == p.goal
      && (q.stage == Start <==> s.revision != p.stage.config)
      && (s.revision == p.stage.config ==> q.stage == Store(p.stage.config, p.stage.cookie))
  {
  }

  // ----- From the start of an operation -----

  lemma Begins(s: State, op: nat, kind: Kind) returns (t: State)
    requires Inv(s) && op !in s.ops && s.lock == None && s.login == None
    ensures Enabled(s, BeginOperation(op, kind)) && t == Next(s, BeginOperation(op, kind)) && Inv(t)
    ensures t == s.(ops := t.ops) && op in t.ops && t.ops == s.ops[op := t.ops[op]]
    ensures t.ops[op] == Operation(kind, false, if kind.ExplicitLogin? then LoggingIn(Explicit, Enter) else Asking)
  {
    t := Next(s, BeginOperation(op, kind));
    StepInv(s, BeginOperation(op, kind));
  }

  /** An operation that is called sends a request of its own kind, and an explicit login always
      gets a new session, whatever is stored. */
  lemma OperationCompletes(s: State, op: nat, kind: Kind, cookie: Cookie) returns (steps: seq<Step>, m: State)
    requires Inv(s) && op !in s.ops && s.lock == None && s.login == None && cookie.value != ""
    ensures m.revision == s.revision && m.session == s.session && m.wire == s.wire && op in m.ops &&
      m.ops[op].kind == kind
    ensures var r, events := s.revision, LoginEvents(op, s.revision, cookie);
      Leads(s, [BeginOperation(op, kind)] + steps,
            if kind.ExplicitLogin? then At(m, op, false, Ended, Session(cookie, r), events)
            else if Usable(s.session, r) then SentAt(m, op, false, s.session, [])
            else SentAt(m, op, false, Session(cookie, r), events))
  {
    m := Begins(s, op, kind);
    if kind.ExplicitLogin? {
      var t := At(m, op, false, Ended, Session(cookie, s.revision), LoginEvents(op, s.revision, cookie));
      AtItself(m, op);
      assert [] + LoginEvents(op, s.revision, cookie) == LoginEvents(op, s.revision, cookie);
      LeadsNowhere(t);
      LoginCompletes(m, op, Explicit, m.session, [], cookie, [], t);
      steps := LoginSteps(op, Explicit, cookie, []);
      LeadsOn(s, BeginOperation(op, kind), steps, t);
    } else {
      steps := FirstRequestIsSent(m, op, cookie);
      LeadsOn(s, BeginOperation(op, kind), steps,
              if Usable(s.session, s.revision) then SentAt(m, op, false, s.session, [])
              else SentAt(m, op, false, Session(cookie, s.revision), LoginEvents(op, s.revision, cookie)));
    }
  }

  // ----- Revisions -----

  function Publications(steps: seq<Step>, n: nat): nat
    requires n <= |steps|
  {
    if n == 0 then 0 else Publications(steps, n - 1) + if steps[n - 1] == PublishConfig then 1 else 0
  }

  /** While no mutation is being admitted a new configuration can be published, whatever else goes
      on; it changes nothing but the revision. */
  lemma ConfigIsPublished(s: State)
    requires Inv(s)
    ensures Enabled(s, PublishConfig) <==> s.lock == None
    ensures s.lock == None ==> Next(s, PublishConfig) == s.(revision := s.revision + 1)
  {
  }

  /** The revision counts the configurations published. */
  lemma {:induction false} RevisionCounts(states: seq<State>, steps: seq<Step>, n: nat)
    requires Trace(states, steps) && n < |states|
    ensures states[n].revision == states[0].revision + Publications(steps, n)
  {
    if n > 0 {
      assert Follows(states, steps, n - 1);
      RevisionCounts(states, steps, n - 1);
    }
  }
}
