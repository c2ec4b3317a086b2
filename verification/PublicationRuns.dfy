/** Runs of refreshes and of the system handler: what a call publishes, from which commit, and
    that calls can come to their end (internal/runtime/snapshot.go,
    internal/api/system/handler.go). */
module PublicationRuns {
  import opened Options
  import opened Snapshots
  import opened Publication

  // ----- The history of commits -----

  /** The database contents committed by the first `n` steps, in order. */
  function Commits(steps: seq<Step>, n: nat): seq<Source>
    requires n <= |steps|
  {
    if n == 0 then []
    else
      match steps[n - 1]
      case WriteTitlesOrRules(content) => Commits(steps, n - 1) + [content]
      case HandlerCommit(content) => Commits(steps, n - 1) + [content]
      case _ => Commits(steps, n - 1)
  }

  /** The database holds the contents committed, oldest first. */
  lemma {:induction false} DatabaseIsCommits(states: seq<State>, steps: seq<Step>, n: nat)
    requires Run(states, steps) && n < |states|
    ensures states[n].db == states[0].db + Commits(steps, n)
  {
    if n > 0 {
      assert Follows(states, steps, n - 1);
      DatabaseIsCommits(states, steps, n - 1);
      StepCommits(states[n - 1], steps[n - 1]);
    }
  }

  lemma StepCommits(s: State, step: Step)
    requires s.db != [] && Enabled(s, step)
    ensures Next(s, step).db == match step
      case WriteTitlesOrRules(content) => s.db + [content]
      case HandlerCommit(content) => s.db + [content]
      case _ => s.db
  {
  }

  // ----- Which call a refresh belongs to -----

  /** The step calls the refresh `id`, on behalf of the handler or not. */
  predicate Calls(step: Step, id: nat) {
    (step.CallRefresh? || step.HandlerClear?) && step.id == id
  }

  /** The call that the refresh `id` in progress after `n` steps goes back to. */
  function CalledAt(steps: seq<Step>, n: nat, id: nat): Option<nat>
    requires n <= |steps|
  {
    if n == 0 then None
    else if Calls(steps[n - 1], id) then Some(n - 1)
    else CalledAt(steps, n - 1, id)
  }

  /** The refresh has the scopes of its call, and `since` is the newest version at the call. */
  ghost predicate OfCall(states: seq<State>, steps: seq<Step>, b: nat, id: nat, r: Refresh) {
    && b < |steps| && b < |states| && Calls(steps[b], id)
    && r.scopes == steps[b].scopes && states[b].db != [] && r.since == |states[b].db| - 1
  }

  lemma {:induction false} RefreshWasCalled(states: seq<State>, steps: seq<Step>, n: nat, id: nat)
    requires Run(states, steps) && n < |states| && id in states[n].refreshes
    ensures var b := CalledAt(steps, n, id);
      b.Some? && b.value < n && OfCall(states, steps, b.value, id, states[n].refreshes[id])
  {
    assert Follows(states, steps, n - 1);
    if !Calls(steps[n - 1], id) {
      SameCall(states[n - 1], steps[n - 1], id);
      RefreshWasCalled(states, steps, n - 1, id);
    }
  }

  lemma SameCall(s: State, step: Step, id: nat)
    requires s.db != [] && Enabled(s, step) && !Calls(step, id) && id in Next(s, step).refreshes
    ensures id in s.refreshes
    ensures var r, t := s.refreshes[id], Next(s, step).refreshes[id];
      t.scopes == r.scopes && t.since == r.since
  {
  }

  // ----- What a call publishes -----

  /** One version for the parts named by the scopes, the old ones for the others. */
  ghost predicate VersionsTaken(before: Versions, after: Versions, scopes: Scope, version: nat) {
    && after.system == (if Has(scopes, SYSTEM_CONFIG) then version else before.system)
    && after.radarrRules == (if Has(scopes, RADARR_RULES) then version else before.radarrRules)
    && after.radarrTitles == (if Has(scopes, RADARR_TITLES) then version else before.radarrTitles)
    && after.sonarrRules == (if Has(scopes, SONARR_RULES) then version else before.sonarrRules)
    && after.sonarrTitles == (if Has(scopes, SONARR_TITLES) then version else before.sonarrTitles)
  }

  /** What one publication did: exactly the parts named by `scopes` were taken from `version`. */
  ghost predicate Published(s: State, t: State, scopes: Scope, version: nat)
  {
    && version < |s.db| && t.db == s.db
    && VersionsTaken(s.from, t.from, scopes, version)
    && TakesScopes(s.db[version], s.published.content, t.published.content, scopes)
  }

  lemma PublishPublishes(s: State, id: nat)
    requires Inv(s) && Enabled(s, Publish(id))
    ensures var r, t := s.refreshes[id], Next(s, Publish(id));
      r.since <= r.stage.version && Published(s, t, r.scopes, r.stage.version)
  {
    assert RefreshOk(s, id);
    var r := s.refreshes[id];
    PartsByScope(s.db[r.stage.version], s.published, r.scopes);
  }

  /** A refresh that succeeds publishes exactly the scopes it was called for, and every part of
      them from one commit that was there at the call or came later. */
  lemma PublishesAfterCall(states: seq<State>, steps: seq<Step>, i: nat) returns (version: nat)
    requires Run(states, steps) && i < |steps| && steps[i].Publish?
    ensures var b := CalledAt(steps, i, steps[i].id);
      && b.Some? && b.value < i && Calls(steps[b.value], steps[i].id) && states[b.value].db != []
      && |states[b.value].db| - 1 <= version
      && Published(states[i], states[i + 1], steps[b.value].scopes, version)
  {
    RunInv(states, steps, i);
    assert Follows(states, steps, i);
    RefreshWasCalled(states, steps, i, steps[i].id);
    PublishPublishes(states[i], steps[i].id);
    version := states[i].refreshes[steps[i].id].stage.version;
  }

  // ----- The handler -----

  /** The handler's last commit among the first `n` steps. */
  function CommittedAt(steps: seq<Step>, n: nat): Option<nat>
    requires n <= |steps|
  {
    if n == 0 then None
    else if steps[n - 1].HandlerCommit? then Some(n - 1)
    else CommittedAt(steps, n - 1)
  }

  lemma {:induction false} HandlerHasCommitted(states: seq<State>, steps: seq<Step>, n: nat)
    requires Run(states, steps) && n < |states| && states[n].handler.Committed?
    ensures var k, v := CommittedAt(steps, n), states[n].handler.version;
      && k.Some? && k.value < n && steps[k.value].HandlerCommit?
      && v < |states[n].db| && states[n].db[v] == steps[k.value].content
  {
    assert Follows(states, steps, n - 1);
    if !steps[n - 1].HandlerCommit? {
      StaysCommitted(states[n - 1], steps[n - 1]);
      HandlerHasCommitted(states, steps, n - 1);
      StepCommits(states[n - 1], steps[n - 1]);
    }
  }

  lemma StaysCommitted(s: State, step: Step)
    requires s.db != [] && Enabled(s, step) && !step.HandlerCommit? && Next(s, step).handler.Committed?
    ensures s.handler == Next(s, step).handler
  {
  }

  /** When the handler publishes, it publishes the system configuration it has just committed
      and nothing else, and is free again. */
  lemma HandlerPublishesItsCommit(states: seq<State>, steps: seq<Step>, i: nat)
    requires Run(states, steps) && i < |steps| && steps[i] == PublishPrepared
    ensures var k := CommittedAt(steps, i);
      && k.Some? && k.value < i && steps[k.value].HandlerCommit?
      && TakesScopes(steps[k.value].content, states[i].published.content, states[i + 1].published.content,
                     SYSTEM_CONFIG)
      && states[i + 1].handler == Free && states[i + 1].db == states[i].db
  {
    RunInv(states, steps, i);
    assert Follows(states, steps, i);
    HandlerHasCommitted(states, steps, i);
    PartsByScope(states[i].db[states[i].handler.version], states[i].published, SYSTEM_CONFIG);
  }

  // ----- Calls come to their end -----

  /** The steps are enabled one after the other and lead from `s` to `t`. */
  ghost predicate Leads(s: State, steps: seq<Step>, t: State)
    decreases |steps|
  {
    if steps == [] then s == t else s.db != [] && Enabled(s, steps[0]) && Leads(Next(s, steps[0]), steps[1..], t)
  }

  lemma LeadsOn(s: State, step: Step, rest: seq<Step>, t: State)
    requires s.db != [] && Enabled(s, step) && Leads(Next(s, step), rest, t)
    ensures Leads(s, [step] + rest, t)
  {
    assert ([step] + rest)[1..] == rest;
  }

  /** The refresh `id` has the lock and has come to `stage`. */
  function At(s: State, id: nat, stage: Stage): State
    requires id in s.refreshes
  {
    s.(refreshes := s.refreshes[id := s.refreshes[id].(stage := stage)], lock := Some(id))
  }

  lemma StagesFollow(s: State, id: nat)
    requires s.db != [] && id in s.refreshes && s.refreshes[id].stage == Called && s.lock == None
    ensures Enabled(s, Acquire(id)) && Next(s, Acquire(id)) == At(s, id, Holding)
    ensures Enabled(At(s, id, Holding), Load(id)) && Next(At(s, id, Holding), Load(id)) == At(s, id, Loaded(Newest(s)))
    ensures Enabled(At(s, id, Loaded(Newest(s))), Prepare(id))
    ensures Next(At(s, id, Loaded(Newest(s))), Prepare(id))
         == At(s, id, Prepared(Newest(s), FromSource(s.db[Newest(s)], s.published, s.refreshes[id].scopes)))
  {
  }

  lemma LastStage(s: State, id: nat) returns (t: State)
    requires s.db != [] && id in s.refreshes
    ensures var r := s.refreshes[id];
      var last := At(s, id, Prepared(Newest(s), FromSource(s.db[Newest(s)], s.published, r.scopes)));
      Enabled(last, Publish(id)) && t == Next(last, Publish(id))
    ensures t.published == FromSource(s.db[Newest(s)], s.published, s.refreshes[id].scopes)
    ensures t.from == Bump(s.from, s.refreshes[id].scopes, Newest(s)) && t.db == s.db
    ensures t.lock == None && t.refreshes == s.refreshes - {id}
    ensures t.handler == if s.handler == Clearing(id) then Free else s.handler
  {
    t := Next(At(s, id, Prepared(Newest(s), FromSource(s.db[Newest(s)], s.published, s.refreshes[id].scopes))),
              Publish(id));
  }

  /** The steps of a refresh after its call. */
  function RefreshSteps(id: nat): seq<Step> {
    [Acquire(id)] + ([Load(id)] + ([Prepare(id)] + ([Publish(id)] + [])))
  }

  lemma StagesLead(s: State, id: nat, t: State)
    requires s.db != [] && id in s.refreshes && s.refreshes[id].stage == Called && s.lock == None
    requires var next := FromSource(s.db[Newest(s)], s.published, s.refreshes[id].scopes);
      var last := At(s, id, Prepared(Newest(s), next));
      Enabled(last, Publish(id)) && t == Next(last, Publish(id))
    ensures Leads(s, RefreshSteps(id), t)
  {
    StagesFollow(s, id);
    var next := FromSource(s.db[Newest(s)], s.published, s.refreshes[id].scopes);
    LeadsOn(At(s, id, Prepared(Newest(s), next)), Publish(id), [], t);
    LeadsOn(At(s, id, Loaded(Newest(s))), Prepare(id), [Publish(id)] + [], t);
    LeadsOn(At(s, id, Holding), Load(id), [Prepare(id)] + ([Publish(id)] + []), t);
    LeadsOn(s, Acquire(id), [Load(id)] + ([Prepare(id)] + ([Publish(id)] + [])), t);
  }

  /** From every reachable state in which the lock is free a refresh that has been called can run
      to its end, and then publishes its scopes from the newest commit. */
  lemma RefreshCompletes(s: State, id: nat) returns (t: State)
    requires Inv(s) && id in s.refreshes && s.refreshes[id].stage == Called && s.lock == None
    ensures Leads(s, RefreshSteps(id), t)
    ensures Published(s, t, s.refreshes[id].scopes, Newest(s))
    ensures t.published == FromSource(s.db[Newest(s)], s.published, s.refreshes[id].scopes)
    ensures t.lock == None && t.refreshes == s.refreshes - {id} && t.db == s.db
    ensures t.handler == if s.handler == Clearing(id) then Free else s.handler
  {
    t := LastStage(s, id);
    StagesLead(s, id, t);
    PartsByScope(s.db[Newest(s)], s.published, s.refreshes[id].scopes);
  }

  /** A refresh that fails, at whatever stage, leaves what is published and the database alone,
      gives up the lock and frees the handler that ran it. */
  lemma FailureLeavesPublished(s: State, id: nat)
    requires Inv(s) && id in s.refreshes
    ensures Enabled(s, Fail(id))
    ensures var t := Next(s, Fail(id));
      && t.published == s.published && t.from == s.from && t.db == s.db
      && t.refreshes == s.refreshes - {id} && t.lock != Some(id) && (s.lock != Some(id) ==> t.lock == s.lock)
      && t.handler == if s.handler == Clearing(id) then Free else s.handler
  {
  }

  /** An update that is undisturbed commits and publishes its configuration; one that is rejected
      leaves everything as it was. */
  lemma UpdateCompletes(s: State, content: Source) returns (t: State)
    requires Inv(s) && s.handler == Free && s.lock == None
    ensures Leads(s, [HandlerUpdate, HandlerCommit(content), PublishPrepared], t)
    ensures Leads(s, [HandlerUpdate, HandlerReject], s)
    ensures t.db == s.db + [content] && t.handler == Free && t.lock == None && t.refreshes == s.refreshes
    ensures TakesScopes(content, s.published.content, t.published.content, SYSTEM_CONFIG)
    ensures t.published == FromSource(content, s.published, SYSTEM_CONFIG)
  {
    var s1 := Next(s, HandlerUpdate);
    var s2 := Next(s1, HandlerCommit(content));
    t := Next(s2, PublishPrepared);
    LeadsOn(s2, PublishPrepared, [], t);
    LeadsOn(s1, HandlerCommit(content), [PublishPrepared] + [], t);
    LeadsOn(s, HandlerUpdate, [HandlerCommit(content)] + ([PublishPrepared] + []), t);
    LeadsOn(s1, HandlerReject, [], s);
    LeadsOn(s, HandlerUpdate, [HandlerReject] + [], s);
    assert [HandlerUpdate] + ([HandlerCommit(content)] + ([PublishPrepared] + []))
        == [HandlerUpdate, HandlerCommit(content), PublishPrepared];
    assert [HandlerUpdate] + ([HandlerReject] + []) == [HandlerUpdate, HandlerReject];
    PartsByScope(content, s.published, SYSTEM_CONFIG);
  }

  /** A refresh that is called waits without effect on what is published. */
  lemma CallsWait(s: State, step: Step)
    requires Inv(s) && Enabled(s, step) && (step.CallRefresh? || step.HandlerClear?)
    ensures var t := Next(s, step);
      && t.published == s.published && t.from == s.from && t.lock == s.lock && t.db == s.db
      && step.id in t.refreshes && t.refreshes[step.id].stage == Called
      && t.refreshes == s.refreshes[step.id := t.refreshes[step.id]]
      && t.handler == if step.HandlerClear? then Clearing(step.id) else s.handler
  {
  }

  /** New titles or rules of whatever content come to be published by a call for whatever scopes:
      the parts named by the scopes are the new ones then. */
  lemma ChangeIsPublished(s: State, content: Source, id: nat, scopes: Scope) returns (t: State)
    requires Inv(s) && s.lock == None && id !in s.refreshes && scopes != 0 && !Has(scopes, SYSTEM_CONFIG)
    requires SettingsOf(content) == SettingsOf(s.db[Newest(s)])
    ensures Leads(s, [WriteTitlesOrRules(content)] + ([CallRefresh(id, scopes)] + RefreshSteps(id)), t)
    ensures t.published == FromSource(content, s.published, scopes) && t.db == s.db + [content]
    ensures TakesScopes(content, s.published.content, t.published.content, scopes)
    ensures t.lock == None && t.refreshes == s.refreshes && t.handler == s.handler
  {
    var rest := RefreshSteps(id);
    var s1 := Next(s, WriteTitlesOrRules(content));
    StepInv(s, WriteTitlesOrRules(content));
    var s2 := Next(s1, CallRefresh(id, scopes));
    StepInv(s1, CallRefresh(id, scopes));
    t := RefreshCompletes(s2, id);
    LeadsOn(s1, CallRefresh(id, scopes), rest, t);
    LeadsOn(s, WriteTitlesOrRules(content), [CallRefresh(id, scopes)] + rest, t);
    PartsByScope(content, s.published, scopes);
    assert s2.refreshes - {id} == s.refreshes;
  }

  lemma ClearIs(s: State, id: nat, scopes: Scope) returns (t: State)
    requires Inv(s) && s.handler == Free && id !in s.refreshes && scopes != 0
    ensures Enabled(s, HandlerClear(id, scopes)) && t == Next(s, HandlerClear(id, scopes)) && Inv(t)
    ensures t.db == s.db && t.published == s.published && t.lock == s.lock && t.handler == Clearing(id)
    ensures t.refreshes == s.refreshes[id := Refresh(scopes, Newest(s), Called)]
    ensures t.refreshes - {id} == s.refreshes
  {
    t := Next(s, HandlerClear(id, scopes));
    StepInv(s, HandlerClear(id, scopes));
  }

  /** The handler's own refresh, for whatever scopes, publishes the newest version of them. */
  lemma ClearCompletes(s: State, id: nat, scopes: Scope) returns (t: State)
    requires Inv(s) && s.lock == None && s.handler == Free && id !in s.refreshes && scopes != 0
    ensures Leads(s, [HandlerClear(id, scopes)] + RefreshSteps(id), t)
    ensures t.published == FromSource(s.db[Newest(s)], s.published, scopes) && t.db == s.db
    ensures t.lock == None && t.refreshes == s.refreshes && t.handler == Free
  {
    var m := ClearIs(s, id, scopes);
    t := RefreshCompletes(m, id);
    LeadsOn(s, HandlerClear(id, scopes), RefreshSteps(id), t);
    assert m.refreshes[id].scopes == scopes && Newest(m) == Newest(s);
  }
}
