/** Publication of snapshots under concurrency (internal/runtime/snapshot.go,
    internal/api/system/handler.go, internal/store/sqlite/system_config_transaction.go):
    refreshes, the system handler and database writers interleave step by step. */
module Publication {
  import opened Options
  import opened Snapshots

  /** For each part of the published content, the database version it was loaded from. */
  datatype Versions = Versions(system: nat, radarrRules: nat, radarrTitles: nat, sonarrRules: nat, sonarrTitles: nat)

  function Bump(v: Versions, scopes: Scope, version: nat): Versions {
    Versions(if Has(scopes, SYSTEM_CONFIG) then version else v.system,
             if Has(scopes, RADARR_RULES) then version else v.radarrRules,
             if Has(scopes, RADARR_TITLES) then version else v.radarrTitles,
             if Has(scopes, SONARR_RULES) then version else v.sonarrRules,
             if Has(scopes, SONARR_TITLES) then version else v.sonarrTitles)
  }

  predicate NotOlder(a: Versions, b: Versions) {
    && a.system <= b.system && a.radarrRules <= b.radarrRules && a.radarrTitles <= b.radarrTitles
    && a.sonarrRules <= b.sonarrRules && a.sonarrTitles <= b.sonarrTitles
  }

  /** How far a call of `Refresh` has come. `Holding` and later own the publication lock. */
  datatype Stage =
    | Called
    | Holding
    | Loaded(version: nat)
    | Prepared(version: nat, next: Snapshot)

  /** A running `Refresh`; `since` is the newest database version when it was called. */
  datatype Refresh = Refresh(scopes: Scope, since: nat, stage: Stage)

  /** The system handler, one request at a time under its mutex. */
  datatype Handler =
    | Free
    | Updating
    | Committed(version: nat)
    | Clearing(refresh: nat)

  /** `db` lists the committed database contents, oldest first; `from` says where the
      published parts come from; `lock` is the refresh that owns the publication lock. */
  datatype State = State(db: seq<Source>, published: Snapshot, from: Versions,
                         refreshes: map<nat, Refresh>, lock: Option<nat>, handler: Handler)

  datatype Step =
    | WriteTitlesOrRules(content: Source)
    | CallRefresh(id: nat, scopes: Scope)
    | HandlerUpdate
    | HandlerReject
    | HandlerCommit(content: Source)
    | PublishPrepared
    | HandlerClear(id: nat, scopes: Scope)
    | Acquire(id: nat)
    | Load(id: nat)
    | Prepare(id: nat)
    | Publish(id: nat)
    | Fail(id: nat)

  predicate Init(s: State) {
    && |s.db| > 0 && s.published.content == s.db[|s.db| - 1]
    && s.from == Bump(Versions(0, 0, 0, 0, 0), ALL_SCOPES, |s.db| - 1)
    && s.refreshes == map[] && s.lock == None && s.handler == Free
  }

  function Newest(s: State): nat
    requires s.db != []
  {
    |s.db| - 1
  }

  function SetStage(s: State, id: nat, stage: Stage): State
    requires id in s.refreshes
  {
    s.(refreshes := s.refreshes[id := s.refreshes[id].(stage := stage)])
  }

  /** A refresh ends: it gives up the lock if it had it, and the handler that ran it returns. */
  function Ended(s: State, id: nat): State {
    s.(refreshes := s.refreshes - {id},
       lock := if s.lock == Some(id) then None else s.lock,
       handler := if s.handler == Clearing(id) then Free else s.handler)
  }

  predicate Enabled(s: State, step: Step)
    requires s.db != []
  {
    match step
    // Other writers leave the system configuration alone.
    case WriteTitlesOrRules(content) => SettingsOf(content) == SettingsOf(s.db[Newest(s)])
    // Only the system handler refreshes the system configuration.
    case CallRefresh(id, scopes) => id !in s.refreshes && scopes != 0 && !Has(scopes, SYSTEM_CONFIG)
    case HandlerUpdate => s.handler == Free
    case HandlerReject => s.handler == Updating
    case HandlerCommit(_) => s.handler == Updating
    case PublishPrepared => s.handler.Committed? && s.lock == None
    case HandlerClear(id, scopes) => s.handler == Free && id !in s.refreshes && scopes != 0
    case Acquire(id) => id in s.refreshes && s.refreshes[id].stage == Called && s.lock == None
    case Load(id) => id in s.refreshes && s.refreshes[id].stage == Holding
    case Prepare(id) => id in s.refreshes && s.refreshes[id].stage.Loaded?
    case Publish(id) => id in s.refreshes && s.refreshes[id].stage.Prepared?
    case Fail(id) => id in s.refreshes
  }

  function Next(s: State, step: Step): State
    requires s.db != [] && Enabled(s, step)
  {
    match step
    case WriteTitlesOrRules(content) => s.(db := s.db + [content])
    case CallRefresh(id, scopes) => s.(refreshes := s.refreshes[id := Refresh(scopes, Newest(s), Called)])
    case HandlerUpdate => s.(handler := Updating)
    case HandlerReject => s.(handler := Free)
    // One transaction: the rows are written, loaded and committed together.
    case HandlerCommit(content) => s.(db := s.db + [content], handler := Committed(|s.db|))
    case PublishPrepared =>
      var version := s.handler.version;
      if version < |s.db| then
        s.(published := FromSource(s.db[version], s.published, SYSTEM_CONFIG),
           from := Bump(s.from, SYSTEM_CONFIG, version), handler := Free)
      else s
    case HandlerClear(id, scopes) => s.(refreshes := s.refreshes[id := Refresh(scopes, Newest(s), Called)],
                                        handler := Clearing(id))
    case Acquire(id) => SetStage(s, id, Holding).(lock := Some(id))
    case Load(id) => SetStage(s, id, Loaded(Newest(s)))
    case Prepare(id) =>
      var version := s.refreshes[id].stage.version;
      if version < |s.db|
      then SetStage(s, id, Prepared(version, FromSource(s.db[version], s.published, s.refreshes[id].scopes)))
      else s
    case Publish(id) =>
      var r := s.refreshes[id];
      Ended(s.(published := r.stage.next, from := Bump(s.from, r.scopes, r.stage.version)), id)
    case Fail(id) => Ended(s, id)
  }

  // ----- What every reachable state satisfies -----

  ghost predicate Owns(s: State, id: nat) {
    id in s.refreshes && s.refreshes[id].stage != Called
  }

  /** A refresh past loading read a version no older than its call and than all that is published. */
  ghost predicate RefreshOk(s: State, id: nat)
    requires id in s.refreshes
  {
    var r := s.refreshes[id];
    && r.since < |s.db|
    && (Has(r.scopes, SYSTEM_CONFIG) ==> s.handler == Clearing(id))
    && (Owns(s, id) <==> s.lock == Some(id))
    && (r.stage.Loaded? || r.stage.Prepared? ==>
          r.since <= r.stage.version < |s.db| && NotOlder(s.from, Bump(s.from, ALL_SCOPES, r.stage.version)))
    && (r.stage.Prepared? ==> r.stage.next == FromSource(s.db[r.stage.version], s.published, r.scopes))
  }

  /** Every published part is the one of the version it is said to come from. */
  ghost predicate PartsFrom(s: State) {
    var v, c := s.from, s.published.content;
    && v.system < |s.db| && SettingsOf(c) == SettingsOf(s.db[v.system])
    && v.radarrRules < |s.db| && c.radarr.rules == s.db[v.radarrRules].radarr.rules
    && v.radarrTitles < |s.db| && RadarrTitlesOf(c) == RadarrTitlesOf(s.db[v.radarrTitles])
    && v.sonarrRules < |s.db| && c.sonarr.rules == s.db[v.sonarrRules].sonarr.rules
    && v.sonarrTitles < |s.db| && SonarrTitlesOf(c) == SonarrTitlesOf(s.db[v.sonarrTitles])
  }

  /** Since version `v` nobody has changed the system configuration. */
  ghost predicate SettledSince(s: State, v: nat) {
    forall i | v <= i < |s.db| :: SettingsOf(s.db[i]) == SettingsOf(s.db[|s.db| - 1])
  }

  ghost predicate Inv(s: State) {
    && s.db != [] && PartsFrom(s)
    && (forall id | id in s.refreshes :: RefreshOk(s, id))
    && (s.lock.Some? ==> s.lock.value in s.refreshes)
    && (s.handler.Clearing? ==> s.handler.refresh in s.refreshes)
    && (s.handler.Committed? ==> s.from.system <= s.handler.version < |s.db| && SettledSince(s, s.handler.version))
    && (!s.handler.Committed? ==> SettledSince(s, s.from.system))
  }

  lemma InitInv(s: State)
    requires Init(s)
    ensures Inv(s)
  {
    AllHasEach();
  }

  lemma BumpTakesScopes(s: State, scopes: Scope, version: nat)
    requires PartsFrom(s) && version < |s.db|
    ensures PartsFrom(s.(published := FromSource(s.db[version], s.published, scopes),
                         from := Bump(s.from, scopes, version)))
  {
    PartsByScope(s.db[version], s.published, scopes);
  }

  lemma NotOlderBump(from: Versions, scopes: Scope, version: nat)
    requires NotOlder(from, Bump(from, ALL_SCOPES, version))
    ensures NotOlder(from, Bump(from, scopes, version))
  {
    AllHasEach();
  }

  lemma PublishedParts(s: State, id: nat)
    requires Inv(s) && Enabled(s, Publish(id))
    ensures PartsFrom(Next(s, Publish(id)))
  {
    var r := s.refreshes[id];
    assert RefreshOk(s, id);
    BumpTakesScopes(s, r.scopes, r.stage.version);
  }

  /** While a refresh publishes, the others have not got the lock. */
  lemma PublishedOthers(s: State, id: nat, k: nat)
    requires Inv(s) && Enabled(s, Publish(id)) && k in s.refreshes && k != id
    ensures RefreshOk(Next(s, Publish(id)), k)
  {
    assert RefreshOk(s, id) && RefreshOk(s, k);
  }

  lemma PublishInv(s: State, id: nat)
    requires Inv(s) && Enabled(s, Publish(id))
    ensures Inv(Next(s, Publish(id)))
  {
    assert RefreshOk(s, id);
    PublishedParts(s, id);
    var t := Next(s, Publish(id));
    forall k | k in t.refreshes ensures RefreshOk(t, k) {
      PublishedOthers(s, id, k);
    }
    PublishedSettled(s, id);
  }

  lemma PublishedSettled(s: State, id: nat)
    requires Inv(s) && Enabled(s, Publish(id))
    ensures var t := Next(s, Publish(id));
      && (t.handler.Clearing? ==> t.handler.refresh in t.refreshes)
      && (t.handler.Committed? ==> t.from.system <= t.handler.version < |t.db| && SettledSince(t, t.handler.version))
      && (!t.handler.Committed? ==> SettledSince(t, t.from.system))
  {
    assert RefreshOk(s, id);
    AllHasEach();
  }

  lemma WriteInv(s: State, content: Source)
    requires Inv(s) && Enabled(s, WriteTitlesOrRules(content))
    ensures Inv(Next(s, WriteTitlesOrRules(content)))
  {
    var t := Next(s, WriteTitlesOrRules(content));
    forall k | k in t.refreshes ensures RefreshOk(t, k) {
      assert RefreshOk(s, k);
    }
  }

  lemma CommitInv(s: State, content: Source)
    requires Inv(s) && Enabled(s, HandlerCommit(content))
    ensures Inv(Next(s, HandlerCommit(content)))
  {
    var t := Next(s, HandlerCommit(content));
    forall k | k in t.refreshes ensures RefreshOk(t, k) {
      assert RefreshOk(s, k);
    }
  }

  lemma PublishPreparedInv(s: State)
    requires Inv(s) && Enabled(s, PublishPrepared)
    ensures Inv(Next(s, PublishPrepared))
  {
    var t := Next(s, PublishPrepared);
    BumpTakesScopes(s, SYSTEM_CONFIG, s.handler.version);
    forall k | k in t.refreshes ensures RefreshOk(t, k) {
      assert RefreshOk(s, k);
    }
  }

  lemma HandlerMovesInv(s: State, step: Step)
    requires Inv(s) && Enabled(s, step) && (step == HandlerUpdate || step == HandlerReject)
    ensures Inv(Next(s, step))
  {
    var t := Next(s, step);
    forall k | k in t.refreshes ensures RefreshOk(t, k) {
      assert RefreshOk(s, k);
    }
  }

  lemma CallInv(s: State, id: nat, scopes: Scope)
    requires Inv(s) && Enabled(s, CallRefresh(id, scopes))
    ensures Inv(Next(s, CallRefresh(id, scopes)))
  {
    var t := Next(s, CallRefresh(id, scopes));
    forall k | k in t.refreshes ensures RefreshOk(t, k) {
      if k in s.refreshes {
        assert RefreshOk(s, k);
      }
    }
  }

  lemma ClearInv(s: State, id: nat, scopes: Scope)
    requires Inv(s) && Enabled(s, HandlerClear(id, scopes))
    ensures Inv(Next(s, HandlerClear(id, scopes)))
  {
    var t := Next(s, HandlerClear(id, scopes));
    forall k | k in t.refreshes ensures RefreshOk(t, k) {
      if k in s.refreshes {
        assert RefreshOk(s, k);
      }
    }
  }

  lemma AcquireInv(s: State, id: nat)
    requires Inv(s) && Enabled(s, Acquire(id))
    ensures Inv(Next(s, Acquire(id)))
  {
    var t := Next(s, Acquire(id));
    forall k | k in t.refreshes ensures RefreshOk(t, k) {
      assert RefreshOk(s, k);
    }
  }

  lemma LoadInv(s: State, id: nat)
    requires Inv(s) && Enabled(s, Load(id))
    ensures Inv(Next(s, Load(id)))
  {
    var t := Next(s, Load(id));
    AllHasEach();
    forall k | k in t.refreshes ensures RefreshOk(t, k) {
      assert RefreshOk(s, k);
    }
  }

  lemma PrepareInv(s: State, id: nat)
    requires Inv(s) && Enabled(s, Prepare(id))
    ensures Inv(Next(s, Prepare(id)))
  {
    var t := Next(s, Prepare(id));
    forall k | k in t.refreshes ensures RefreshOk(t, k) {
      assert RefreshOk(s, k);
    }
  }

  lemma FailInv(s: State, id: nat)
    requires Inv(s) && Enabled(s, Fail(id))
    ensures Inv(Next(s, Fail(id)))
  {
    var t := Next(s, Fail(id));
    forall k | k in t.refreshes ensures RefreshOk(t, k) {
      assert RefreshOk(s, k);
    }
  }

  lemma StepInv(s: State, step: Step)
    requires Inv(s) && Enabled(s, step)
    ensures Inv(Next(s, step))
  {
    match step
    case WriteTitlesOrRules(content) => WriteInv(s, content);
    case CallRefresh(id, scopes) => CallInv(s, id, scopes);
    case HandlerUpdate => HandlerMovesInv(s, step);
    case HandlerReject => HandlerMovesInv(s, step);
    case HandlerCommit(content) => CommitInv(s, content);
    case PublishPrepared => PublishPreparedInv(s);
    case HandlerClear(id, scopes) => ClearInv(s, id, scopes);
    case Acquire(id) => AcquireInv(s, id);
    case Load(id) => LoadInv(s, id);
    case Prepare(id) => PrepareInv(s, id);
    case Publish(id) => PublishInv(s, id);
    case Fail(id) => FailInv(s, id);
  }

  /** A run: `states[i + 1]` follows from `states[i]` by `steps[i]`. */
  ghost predicate Run(states: seq<State>, steps: seq<Step>) {
    && |states| == |steps| + 1 && Init(states[0])
    && forall i | 0 <= i < |steps| :: Follows(states, steps, i)
  }

  ghost predicate Follows(states: seq<State>, steps: seq<Step>, i: nat)
    requires i < |steps| && |states| == |steps| + 1
  {
    states[i].db != [] && Enabled(states[i], steps[i]) && states[i + 1] == Next(states[i], steps[i])
  }

  lemma {:induction false} RunInv(states: seq<State>, steps: seq<Step>, i: nat)
    requires Run(states, steps) && i < |states|
    ensures Inv(states[i])
  {
    if i == 0 {
      InitInv(states[0]);
    } else {
      RunInv(states, steps, i - 1);
      assert Follows(states, steps, i - 1);
      StepInv(states[i - 1], steps[i - 1]);
    }
  }

  /** In one step no published part is replaced by an older one. */
  lemma StepNeverOlder(s: State, step: Step)
    requires Inv(s) && Enabled(s, step)
    ensures NotOlder(s.from, Next(s, step).from)
  {
    if step.Publish? {
      assert RefreshOk(s, step.id);
      NotOlderBump(s.from, s.refreshes[step.id].scopes, s.refreshes[step.id].stage.version);
    } else if step.PublishPrepared? {
      assert !Has(SYSTEM_CONFIG, RADARR_RULES) && !Has(SYSTEM_CONFIG, RADARR_TITLES);
      assert !Has(SYSTEM_CONFIG, SONARR_RULES) && !Has(SYSTEM_CONFIG, SONARR_TITLES);
    }
  }

  /** The version published for each scope never goes backwards. */
  lemma {:induction false} NeverOlder(states: seq<State>, steps: seq<Step>, i: nat, j: nat)
    requires Run(states, steps) && i <= j < |states|
    ensures NotOlder(states[i].from, states[j].from)
    decreases j
  {
    if i < j {
      NeverOlder(states, steps, i, j - 1);
      RunInv(states, steps, j - 1);
      assert Follows(states, steps, j - 1);
      StepNeverOlder(states[j - 1], steps[j - 1]);
    }
  }

  /** Whenever no handler stands between commit and publication, and so whenever none is in
      progress, the published system configuration is the last one committed. */
  lemma SystemConfigIsFresh(states: seq<State>, steps: seq<Step>, i: nat)
    requires Run(states, steps) && i < |states| && !states[i].handler.Committed?
    ensures states[i].db != [] && SettingsOf(states[i].published.content)
         == SettingsOf(states[i].db[|states[i].db| - 1])
  {
    RunInv(states, steps, i);
  }

  /** Every change of the published snapshot is one application of `FromSource` to it. */
  lemma PublicationsAreRefreshes(states: seq<State>, steps: seq<Step>, i: nat) returns (source: Source, scopes: Scope)
    requires Run(states, steps) && i < |steps| && states[i + 1].published != states[i].published
    ensures states[i + 1].published == FromSource(source, states[i].published, scopes)
  {
    RunInv(states, steps, i);
    assert Follows(states, steps, i);
    var s := states[i];
    if steps[i].Publish? {
      assert RefreshOk(s, steps[i].id);
      var r := s.refreshes[steps[i].id];
      source, scopes := s.db[r.stage.version], r.scopes;
    } else {
      source, scopes := s.db[s.handler.version], SYSTEM_CONFIG;
    }
  }
}
