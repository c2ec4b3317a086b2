/** Named invalidation of runtime caches (internal/runtime/registry.go). */
module Registry {
  import opened Options
  import opened Snapshots
  import opened Text
  import opened TtlCache
  import G = SyncGate

  /** What a cache name stands for. */
  datatype Target = Part(scope: Scope) | Results | Offsets | Marker

  const SYSTEM := "system_config"
  const SONARR_SEARCH := "sonarr_search_title"
  const SONARR_RESULT := "sonarr_result_title"
  const RADARR_SEARCH := "radarr_search_title"
  const RADARR_RESULT := "radarr_result_title"
  const SONARR_RULE := "sonarr_rule"
  const RADARR_RULE := "radarr_rule"
  const INDEXER_RESULT := "indexer_result"
  const INDEXER_OFFSET := "indexer_search_offset"
  const SONARR_SYNC := "sonarr_title_sync_interval"
  const TMDB_SYNC := "tmdb_title_sync_interval"
  const RADARR_SYNC := "radarr_title_sync_interval"

  function TargetOf(name: string): Option<Target> {
    if name == SYSTEM then Some(Part(SYSTEM_CONFIG))
    else if name == SONARR_SEARCH || name == SONARR_RESULT then Some(Part(SONARR_TITLES))
    else if name == RADARR_SEARCH || name == RADARR_RESULT then Some(Part(RADARR_TITLES))
    else if name == SONARR_RULE then Some(Part(SONARR_RULES))
    else if name == RADARR_RULE then Some(Part(RADARR_RULES))
    else if name == INDEXER_RESULT then Some(Results)
    else if name == INDEXER_OFFSET then Some(Offsets)
    else if name == SONARR_SYNC || name == TMDB_SYNC || name == RADARR_SYNC then Some(Marker)
    else None
  }

  /** The scope mask is kept as the set of its flags. */
  datatype Plan = Plan(scopes: set<Scope>, clearResults: bool, clearOffsets: bool, markers: seq<string>)

  /** The mask `Refresh` is called with. */
  function Mask(scopes: set<Scope>): Scope {
    (if SYSTEM_CONFIG in scopes then SYSTEM_CONFIG else 0) | (if SONARR_RULES in scopes then SONARR_RULES else 0)
    | (if SONARR_TITLES in scopes then SONARR_TITLES else 0) | (if RADARR_RULES in scopes then RADARR_RULES else 0)
    | (if RADARR_TITLES in scopes then RADARR_TITLES else 0)
  }

  lemma MaskHasFlags(scopes: set<Scope>, flag: Scope)
    requires flag == SYSTEM_CONFIG || flag == SONARR_RULES || flag == SONARR_TITLES || flag == RADARR_RULES ||
      flag == RADARR_TITLES
    ensures Has(Mask(scopes), flag) <==> flag in scopes
  {
  }

  /** How names are read. */
  datatype Names = Names(trim: string -> string, target: string -> Option<Target>)

  /** The source's way: `TargetOf` after `strings.TrimSpace`. */
  const SOURCE := Names(s => TrimSpace(s), name => TargetOf(name))

  /** Some name, trimmed, is `name` and stands for `t`. */
  ghost predicate Asks(n: Names, names: seq<string>, name: string, t: Target) {
    exists i :: 0 <= i < |names| && n.trim(names[i]) == name && name != "" && n.target(name) == Some(t)
  }

  ghost predicate AsksFor(n: Names, names: seq<string>, t: Target) {
    exists name :: Asks(n, names, name, t)
  }

  predicate Known(n: Names, name: string) {
    n.trim(name) != "" && n.target(n.trim(name)).Some?
  }

  /** The plan does exactly what some name asks for, each marker once. */
  ghost predicate Fits(n: Names, names: seq<string>, p: Plan) {
    && FitsScopes(n, names, p.scopes)
    && (p.clearResults <==> AsksFor(n, names, Results))
    && (p.clearOffsets <==> AsksFor(n, names, Offsets))
    && FitsMarkers(n, names, p.markers)
  }

  ghost predicate FitsScopes(n: Names, names: seq<string>, scopes: set<Scope>) {
    forall scope :: scope in scopes <==> AsksFor(n, names, Part(scope))
  }

  ghost predicate FitsMarkers(n: Names, names: seq<string>, markers: seq<string>) {
    Distinct(markers) && forall name :: name in markers <==> Asks(n, names, name, Marker)
  }

  lemma AsksMore(n: Names, names: seq<string>, last: string, name: string, t: Target)
    ensures Asks(n, names + [last], name, t) <==>
      Asks(n, names, name, t) || (n.trim(last) == name && name != "" && n.target(name) == Some(t))
  {
    var more := names + [last];
    if i :| 0 <= i < |names| && n.trim(names[i]) == name && name != "" && n.target(name) == Some(t) {
      assert n.trim(more[i]) == name;
    }
    if n.trim(last) == name && name != "" && n.target(name) == Some(t) {
      assert n.trim(more[|names|]) == name;
    }
  }

  lemma AsksForMore(n: Names, names: seq<string>, last: string, t: Target)
    requires Known(n, last)
    ensures AsksFor(n, names + [last], t) <==> AsksFor(n, names, t) || n.target(n.trim(last)) == Some(t)
  {
    if name :| Asks(n, names, name, t) {
      AsksMore(n, names, last, name, t);
    }
    if name :| Asks(n, names + [last], name, t) {
      AsksMore(n, names, last, name, t);
    }
    AsksMore(n, names, last, n.trim(last), t);
  }

  function Extended(p: Plan, name: string, t: Target): Plan {
    match t
    case Part(scope) => p.(scopes := p.scopes + {scope})
    case Results => p.(clearResults := true)
    case Offsets => p.(clearOffsets := true)
    case Marker => p.(markers := p.markers + [name])
  }

  lemma ScopesMore(n: Names, names: seq<string>, last: string, scopes: set<Scope>)
    requires Known(n, last) && FitsScopes(n, names, scopes)
    ensures var t := n.target(n.trim(last)).value;
      FitsScopes(n, names + [last], if t.Part? then scopes + {t.scope} else scopes)
  {
    forall scope ensures AsksFor(n, names + [last], Part(scope)) <==>
        AsksFor(n, names, Part(scope)) || n.target(n.trim(last)) == Some(Part(scope))
    {
      AsksForMore(n, names, last, Part(scope));
    }
  }

  lemma MarkersMore(n: Names, names: seq<string>, last: string, markers: seq<string>)
    requires Known(n, last) && FitsMarkers(n, names, markers) && !Asks(n, names, n.trim(last), Marker)
    ensures FitsMarkers(n, names + [last],
                        if n.target(n.trim(last)).value.Marker? then markers + [n.trim(last)] else markers)
  {
    forall x ensures Asks(n, names + [last], x, Marker) <==>
        Asks(n, names, x, Marker) || (n.trim(last) == x && n.target(x) == Some(Marker))
    {
      AsksMore(n, names, last, x, Marker);
    }
  }

  lemma FitsMore(n: Names, names: seq<string>, last: string, p: Plan)
    requires Known(n, last) && Fits(n, names, p) && !Asks(n, names, n.trim(last), Marker)
    ensures Fits(n, names + [last], Extended(p, n.trim(last), n.target(n.trim(last)).value))
  {
    ScopesMore(n, names, last, p.scopes);
    AsksForMore(n, names, last, Results);
    AsksForMore(n, names, last, Offsets);
    MarkersMore(n, names, last, p.markers);
  }

  /** A name seen before asks for nothing new. */
  lemma FitsAgain(n: Names, names: seq<string>, last: string, p: Plan)
    requires Known(n, last) && Fits(n, names, p) && Asks(n, names, n.trim(last), n.target(n.trim(last)).value)
    ensures Fits(n, names + [last], p)
  {
    var t := n.target(n.trim(last)).value;
    assert AsksFor(n, names, t);
    forall scope ensures AsksFor(n, names, Part(scope)) <==> AsksFor(n, names + [last], Part(scope)) {
      AsksForMore(n, names, last, Part(scope));
    }
    AsksForMore(n, names, last, Results);
    AsksForMore(n, names, last, Offsets);
    forall x ensures Asks(n, names, x, Marker) <==> Asks(n, names + [last], x, Marker) {
      AsksMore(n, names, last, x, Marker);
    }
  }

  method CollectPlan(n: Names, names: seq<string>) returns (r: Option<Plan>)
    ensures r.Some? <==> forall i | 0 <= i < |names| :: Known(n, names[i])
    ensures r.Some? ==> Fits(n, names, r.value)
  {
    var seen: set<string> := {};
    var result := Plan({}, false, false, []);
    for i := 0 to |names|
      invariant forall j | 0 <= j < i :: Known(n, names[j])
      invariant forall x :: x in seen <==> exists j :: 0 <= j < i && n.trim(names[j]) == x
      invariant Fits(n, names[..i], result)
    {
      assert names[..i + 1] == names[..i] + [names[i]];
      var name := n.trim(names[i]);
      if name == "" {
        assert !Known(n, names[i]);
        return None;
      }
      if name in seen {
        var j :| 0 <= j < i && n.trim(names[j]) == name;
        assert n.trim(names[..i][j]) == name && Known(n, names[j]);
        FitsAgain(n, names[..i], names[i], result);
        continue;
      }
      seen := seen + {name};
      var t := n.target(name);
      if t.None? {
        assert !Known(n, names[i]);
        return None;
      }
      FitsMore(n, names[..i], names[i], result);
      result := Extended(result, name, t.value);
    }
    assert names[..|names|] == names;
    r := Some(result);
  }

  // ----- What the source's names ask for -----

  /** Some name is this one with white space around it. */
  ghost predicate Named(names: seq<string>, name: string) {
    exists i :: 0 <= i < |names| && TrimSpace(names[i]) == name
  }

  lemma AsksIs(names: seq<string>, name: string, t: Target)
    ensures Asks(SOURCE, names, name, t) <==> Named(names, name) && TargetOf(name) == Some(t)
  {
    assert SOURCE.target(name) == TargetOf(name);
    assert TargetOf("") == None;
    if i :| 0 <= i < |names| && TrimSpace(names[i]) == name && TargetOf(name) == Some(t) {
      assert SOURCE.trim(names[i]) == name;
    }
    if i :| 0 <= i < |names| && SOURCE.trim(names[i]) == name && TargetOf(name) == Some(t) {
      assert TrimSpace(names[i]) == name;
    }
  }

  /** What is asked for by one of two names. */
  lemma AsksForIs(names: seq<string>, t: Target, a: string, b: string)
    requires forall name :: TargetOf(name) == Some(t) <==> name == a || name == b
    ensures AsksFor(SOURCE, names, t) <==> Named(names, a) || Named(names, b)
  {
    AsksIs(names, a, t);
    AsksIs(names, b, t);
    if name :| Asks(SOURCE, names, name, t) {
      AsksIs(names, name, t);
    }
  }

  /** The mask holds the flags of the names, and the other names ask for the rest. */
  ghost predicate DoesWhatNamed(names: seq<string>, p: Plan) {
    && ScopesNamed(names, p.scopes) && MarkersNamed(names, p.markers)
    && (p.clearResults <==> Named(names, INDEXER_RESULT))
    && (p.clearOffsets <==> Named(names, INDEXER_OFFSET))
  }

  ghost predicate ScopesNamed(names: seq<string>, scopes: set<Scope>) {
    && (SYSTEM_CONFIG in scopes <==> Named(names, SYSTEM))
    && (SONARR_TITLES in scopes <==> Named(names, SONARR_SEARCH) || Named(names, SONARR_RESULT))
    && (RADARR_TITLES in scopes <==> Named(names, RADARR_SEARCH) || Named(names, RADARR_RESULT))
    && (SONARR_RULES in scopes <==> Named(names, SONARR_RULE))
    && (RADARR_RULES in scopes <==> Named(names, RADARR_RULE))
  }

  ghost predicate MarkersNamed(names: seq<string>, markers: seq<string>) {
    Distinct(markers) && forall x :: x in markers <==> Named(names, x) && IsSyncName(x)
  }

  predicate IsSyncName(name: string) {
    name == SONARR_SYNC || name == TMDB_SYNC || name == RADARR_SYNC
  }

  lemma SyncNamesAreMarkers(name: string)
    ensures TargetOf(name) == Some(Marker) <==> IsSyncName(name)
  {
  }

  lemma ScopesOfNames(names: seq<string>, scopes: set<Scope>)
    requires FitsScopes(SOURCE, names, scopes)
    ensures ScopesNamed(names, scopes)
  {
    AsksForIs(names, Part(SYSTEM_CONFIG), SYSTEM, SYSTEM);
    AsksForIs(names, Part(SONARR_TITLES), SONARR_SEARCH, SONARR_RESULT);
    AsksForIs(names, Part(RADARR_TITLES), RADARR_SEARCH, RADARR_RESULT);
    AsksForIs(names, Part(SONARR_RULES), SONARR_RULE, SONARR_RULE);
    AsksForIs(names, Part(RADARR_RULES), RADARR_RULE, RADARR_RULE);
  }

  lemma MarkersOfNames(names: seq<string>, markers: seq<string>)
    requires FitsMarkers(SOURCE, names, markers)
    ensures MarkersNamed(names, markers)
  {
    forall x ensures x in markers <==> Named(names, x) && IsSyncName(x) {
      AsksIs(names, x, Marker);
      SyncNamesAreMarkers(x);
    }
  }

  /** The plan for the source's names, name by name. */
  lemma PlanOfNames(names: seq<string>, p: Plan)
    requires Fits(SOURCE, names, p)
    ensures DoesWhatNamed(names, p)
  {
    ScopesOfNames(names, p.scopes);
    MarkersOfNames(names, p.markers);
    AsksForIs(names, Results, INDEXER_RESULT, INDEXER_RESULT);
    AsksForIs(names, Offsets, INDEXER_OFFSET, INDEXER_OFFSET);
  }

  /** The name, trimmed, is one of the source's names. */
  predicate Registered(name: string) {
    TargetOf(TrimSpace(name)).Some?
  }

  lemma KnownIsRegistered(name: string)
    ensures Known(SOURCE, name) <==> Registered(name)
  {
    assert SOURCE.trim(name) == TrimSpace(name) && SOURCE.target(TrimSpace(name)) == TargetOf(TrimSpace(name));
    assert TargetOf("") == None;
  }

  method InvalidationPlan(names: seq<string>) returns (r: Option<Plan>)
    ensures r.Some? <==> forall i | 0 <= i < |names| :: Registered(names[i])
    ensures r.Some? ==> Fits(SOURCE, names, r.value) && DoesWhatNamed(names, r.value)
  {
    r := CollectPlan(SOURCE, names);
    forall i | 0 <= i < |names| ensures Known(SOURCE, names[i]) <==> Registered(names[i]) {
      KnownIsRegistered(names[i]);
    }
    if r.Some? {
      PlanOfNames(names, r.value);
    }
  }

  // ----- Plans do not depend on order or repetition -----

  /** Every trimmed name of `a` is one of `b`. */
  ghost predicate Within(n: Names, a: seq<string>, b: seq<string>) {
    forall i | 0 <= i < |a| :: exists j :: 0 <= j < |b| && n.trim(b[j]) == n.trim(a[i])
  }

  lemma AsksWithin(n: Names, a: seq<string>, b: seq<string>, name: string, t: Target)
    requires Within(n, a, b) && Asks(n, a, name, t)
    ensures Asks(n, b, name, t)
  {
  }

  lemma AsksForWithin(n: Names, a: seq<string>, b: seq<string>, t: Target)
    requires Within(n, a, b) && AsksFor(n, a, t)
    ensures AsksFor(n, b, t)
  {
    var name :| Asks(n, a, name, t);
    AsksWithin(n, a, b, name, t);
  }

  lemma SameTargets(n: Names, a: seq<string>, b: seq<string>, t: Target)
    requires Within(n, a, b) && Within(n, b, a)
    ensures AsksFor(n, a, t) <==> AsksFor(n, b, t)
  {
    if AsksFor(n, a, t) {
      AsksForWithin(n, a, b, t);
    }
    if AsksFor(n, b, t) {
      AsksForWithin(n, b, a, t);
    }
  }

  lemma SameScopes(n: Names, a: seq<string>, b: seq<string>, p: Plan, q: Plan)
    requires Within(n, a, b) && Within(n, b, a) && Fits(n, a, p) && Fits(n, b, q)
    ensures p.scopes == q.scopes
  {
    forall scope ensures scope in p.scopes <==> scope in q.scopes {
      SameTargets(n, a, b, Part(scope));
    }
  }

  lemma SameMarker(n: Names, a: seq<string>, b: seq<string>, p: Plan, q: Plan, name: string)
    requires Within(n, a, b) && Within(n, b, a) && Fits(n, a, p) && Fits(n, b, q)
    ensures name in p.markers <==> name in q.markers
  {
    if Asks(n, a, name, Marker) {
      AsksWithin(n, a, b, name, Marker);
    }
    if Asks(n, b, name, Marker) {
      AsksWithin(n, b, a, name, Marker);
    }
  }

  lemma SameCounts(a: seq<string>, b: seq<string>)
    requires Distinct(a) && Distinct(b) && forall x :: x in a <==> x in b
    ensures multiset(a) == multiset(b)
  {
    DistinctCounts(a);
    DistinctCounts(b);
  }

  /** Order, repetition and padding of the names change nothing but the order in which the
      markers are listed. */
  lemma PlanDependsOnNames(n: Names, a: seq<string>, b: seq<string>, p: Plan, q: Plan)
    requires Within(n, a, b) && Within(n, b, a) && Fits(n, a, p) && Fits(n, b, q)
    ensures p.scopes == q.scopes && p.clearResults == q.clearResults && p.clearOffsets == q.clearOffsets
    ensures multiset(p.markers) == multiset(q.markers)
  {
    SameScopes(n, a, b, p, q);
    SameTargets(n, a, b, Results);
    SameTargets(n, a, b, Offsets);
    forall name ensures name in p.markers <==> name in q.markers {
      SameMarker(n, a, b, p, q, name);
    }
    SameCounts(p.markers, q.markers);
  }

  lemma {:induction false} DistinctCounts(keys: seq<string>)
    requires Distinct(keys)
    ensures forall k :: multiset(keys)[k] == if k in keys then 1 else 0
  {
    if keys != [] {
      DistinctCounts(keys[1..]);
      assert keys == [keys[0]] + keys[1..];
    }
  }

  // ----- Applying a plan -----

  function AfterDeletes<T>(s: State<T>, keys: seq<string>): State<T> {
    if keys == [] then s else AfterDelete(AfterDeletes(s, keys[..|keys| - 1]), keys[|keys| - 1])
  }

  /** The caches, the gate and what their owner invalidates. */
  class Caches<R, O, M> {
    const results: Cache<R>
    const offsets: Cache<O>
    const markers: Cache<M>
    const gate: G.TitleSyncGate

    constructor (results: Cache<R>, offsets: Cache<O>, markers: Cache<M>, gate: G.TitleSyncGate)
      ensures this.results == results && this.offsets == offsets && this.markers == markers && this.gate == gate
    {
      this.results, this.offsets, this.markers, this.gate := results, offsets, markers, gate;
    }

    ghost predicate Valid()
      reads this, results, offsets, markers, gate
    {
      && results.Valid() && offsets.Valid() && markers.Valid()
      && results as object != offsets && results as object != markers && offsets as object != markers
    }

    method ClearMarkers(names: seq<string>)
      requires markers.Valid()
      modifies markers, gate
      ensures markers.Valid()
      ensures markers.Contents() == AfterDeletes(old(markers.Contents()), names)
      ensures gate.Contents() == G.AfterClears(old(gate.Contents()), names)
    {
      for i := 0 to |names|
        invariant markers.Valid()
        invariant markers.Contents() == AfterDeletes(old(markers.Contents()), names[..i])
        invariant gate.Contents() == G.AfterClears(old(gate.Contents()), names[..i])
      {
        assert names[..i + 1][..i] == names[..i];
        markers.Delete(names[i]);
        gate.Clear(names[i]);
      }
      assert names[..|names|] == names;
    }

    method Apply(p: Plan)
      requires Valid()
      modifies results, offsets, markers, gate
      ensures Valid()
      ensures results.Contents() == if p.clearResults then State(map[], []) else old(results.Contents())
      ensures offsets.Contents() == if p.clearOffsets then State(map[], []) else old(offsets.Contents())
      ensures markers.Contents() == AfterDeletes(old(markers.Contents()), p.markers)
      ensures gate.Contents() == G.AfterClears(old(gate.Contents()), p.markers)
    {
      if p.clearResults {
        results.Clear();
      }
      if p.clearOffsets {
        offsets.Clear();
      }
      ClearMarkers(p.markers);
    }

    /** `refresh` says whether the provider publishes the scopes. An unknown or blank name,
        or a failed refresh, leaves everything as it was. */
    method Invalidate(names: seq<string>, refresh: Scope -> bool) returns (ok: bool, plan: Plan)
      requires Valid()
      modifies results, offsets, markers, gate
      ensures Valid()
      ensures ok ==> forall i | 0 <= i < |names| :: Registered(names[i])
      ensures ok ==> DoesWhatNamed(names, plan) && refresh(Mask(plan.scopes))
      ensures ok ==> markers.Contents() == AfterDeletes(old(markers.Contents()), plan.markers)
      ensures ok ==> gate.Contents() == G.AfterClears(old(gate.Contents()), plan.markers)
      ensures ok ==> results.Contents() == if plan.clearResults then State(map[], []) else old(results.Contents())
      ensures ok ==> offsets.Contents() == if plan.clearOffsets then State(map[], []) else old(offsets.Contents())
      ensures !ok ==> unchanged(results, offsets, markers, gate)
      ensures !ok ==>
        || (exists i :: 0 <= i < |names| && !Registered(names[i]))
        || (DoesWhatNamed(names, plan) && !refresh(Mask(plan.scopes)))
    {
      plan := Plan({}, false, false, []);
      var r := InvalidationPlan(names);
      if r.None? {
        return false, plan;
      }
      plan := r.value;
      if !refresh(Mask(plan.scopes)) {
        return false, plan;
      }
      Apply(plan);
      ok := true;
    }
  }

  /** Clearing distinct markers clears each once, whatever the order. */
  lemma {:induction false} ClearsByMarker(g: G.Gate, markers: seq<string>, marker: string)
    requires Distinct(markers)
    ensures var h := G.AfterClears(g, markers);
      && h.nextID == g.nextID && (marker in h.states <==> marker in g.states || marker in markers)
      && (marker in h.states ==>
            h.states[marker] == (if marker in markers then G.AfterClear(g, marker) else g).states[marker])
  {
    if markers != [] {
      var before, last := markers[..|markers| - 1], markers[|markers| - 1];
      ClearsByMarker(g, before, marker);
      assert markers == before + [last];
      assert last !in before;
    }
  }

  /** Two ways of naming the same things leave the gate alike. */
  lemma SameClears(g: G.Gate, a: seq<string>, b: seq<string>)
    requires Distinct(a) && Distinct(b) && forall x :: x in a <==> x in b
    ensures G.AfterClears(g, a) == G.AfterClears(g, b)
  {
    forall marker ensures marker in G.AfterClears(g, a).states <==> marker in G.AfterClears(g, b).states {
      ClearsByMarker(g, a, marker);
      ClearsByMarker(g, b, marker);
    }
    forall marker | marker in G.AfterClears(g, a).states
      ensures G.AfterClears(g, a).states[marker] == G.AfterClears(g, b).states[marker]
    {
      ClearsByMarker(g, a, marker);
      ClearsByMarker(g, b, marker);
    }
    ClearsByMarker(g, a, "");
    ClearsByMarker(g, b, "");
    assert G.AfterClears(g, a).states == G.AfterClears(g, b).states;
  }
}
