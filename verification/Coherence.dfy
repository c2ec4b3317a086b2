/** Coherence of the result cache and of the offset cache (internal/proxy/server.go): the
    revision in front of a key is what keeps an entry from outliving its configuration. */
module Coherence {
  import opened Options
  import opened Candidates
  import opened CacheKeys
  import opened Snapshots

  // ----- Publications, requests and caches -----

  datatype Request = Request(kind: Kind, path: string, query: string, offsetQuery: string, snapshot: Snapshot)

  /** What an entry of the result cache was made for and from. */
  datatype Result = Result(kind: Kind, path: string, query: string, made: Inputs)

  /** The two indexer addresses. */
  datatype Addresses = Addresses(jackett: string, prowlarr: string)

  function AddressesOf(c: Source): Addresses {
    Addresses(c.jackettUrl, c.prowlarrUrl)
  }

  /** An offset vector, the candidates that fixed its title list, and the indexers whose
      answers it counts. */
  datatype Vector = Vector(kind: Kind, candidates: seq<Candidate>, addresses: Addresses, offsets: seq<int>)

  /** `published` lists every snapshot ever published, the current one last. */
  datatype State = State(published: seq<Snapshot>, inFlight: map<nat, Request>,
                         results: map<string, Result>, offsets: map<string, Vector>)

  datatype Step =
    | PublishStep(source: Source, scopes: Scope)
    | Begin(id: nat, kind: Kind, path: string, query: string, offsetQuery: string)
    | StoreVector(id: nat, offsets: seq<int>)
    | StoreResult(id: nat)
    | Finish(id: nat)
    | DropResult(key: string)
    | DropVector(key: string)

  predicate Init(s: State) {
    |s.published| == 1 && s.inFlight == map[] && s.results == map[] && s.offsets == map[]
  }

  function ResultKey(r: Request): string {
    CacheKey(RevisionOf(r.kind, r.snapshot), r.path, r.query)
  }

  function VectorKey(r: Request): string {
    OffsetKey(SearchRevisionOf(r.kind, r.snapshot), r.path, r.offsetQuery)
  }

  function ResultFor(r: Request): Result {
    Result(r.kind, r.path, r.query, InputsOf(r.kind, r.snapshot))
  }

  function VectorFor(r: Request, offsets: seq<int>): Vector {
    Vector(r.kind, CandidatesOf(r.kind, r.snapshot), AddressesOf(r.snapshot.content), offsets)
  }

  predicate Enabled(s: State, step: Step) {
    match step
    case PublishStep(_, _) => s.published != []
    case Begin(id, kind, path, _, _) => s.published != [] && id !in s.inFlight && Routed(kind, path)
    case StoreVector(id, _) => id in s.inFlight
    case StoreResult(id) => id in s.inFlight
    case Finish(id) => id in s.inFlight
    case DropResult(_) => true
    case DropVector(_) => true
  }

  function Next(s: State, step: Step): State
    requires Enabled(s, step)
  {
    match step
    case PublishStep(source, scopes) =>
      s.(published := s.published + [FromSource(source, s.published[|s.published| - 1], scopes)])
    case Begin(id, kind, path, query, offsetQuery) =>
      s.(inFlight := s.inFlight[id := Request(kind, path, query, offsetQuery, s.published[|s.published| - 1])])
    case StoreVector(id, offsets) =>
      var r := s.inFlight[id];
      s.(offsets := s.offsets[VectorKey(r) := VectorFor(r, offsets)])
    case StoreResult(id) =>
      var r := s.inFlight[id];
      s.(results := s.results[ResultKey(r) := ResultFor(r)])
    case Finish(id) => s.(inFlight := s.inFlight - {id})
    case DropResult(key) => s.(results := s.results - {key})
    case DropVector(key) => s.(offsets := s.offsets - {key})
  }

  /** Throughout the run a revision stands for one content. */
  ghost predicate RevisionsDetermine(published: seq<Snapshot>) {
    forall i, j, kind | 0 <= i <= j < |published| :: Ordered(published[i], published[j], kind)
  }

  ghost predicate Ordered(a: Snapshot, b: Snapshot, kind: Kind) {
    && RevisionOf(kind, a) <= RevisionOf(kind, b)
    && SearchRevisionOf(kind, a) <= SearchRevisionOf(kind, b)
    && (RevisionOf(kind, a) == RevisionOf(kind, b) ==> InputsOf(kind, a) == InputsOf(kind, b))
    && (SearchRevisionOf(kind, a) == SearchRevisionOf(kind, b) ==> CandidatesOf(kind, a) == CandidatesOf(kind, b))
  }

  /** The entry under `key` was stored by some request of the run. */
  ghost predicate ResultOf(s: State, key: string, e: Result, r: Request) {
    r.snapshot in s.published && Routed(r.kind, r.path)
    && key == ResultKey(r) && e == ResultFor(r)
  }

  ghost predicate VectorOf(s: State, key: string, v: Vector, r: Request) {
    r.snapshot in s.published && Routed(r.kind, r.path)
    && key == VectorKey(r) && v == VectorFor(r, v.offsets)
  }

  ghost predicate Inv(s: State) {
    && s.published != [] && RevisionsDetermine(s.published)
    && (forall id | id in s.inFlight ::
          s.inFlight[id].snapshot in s.published && Routed(s.inFlight[id].kind, s.inFlight[id].path))
    && (forall key | key in s.results :: exists r :: ResultOf(s, key, s.results[key], r))
    && (forall key | key in s.offsets :: exists r :: VectorOf(s, key, s.offsets[key], r))
  }

  lemma PublishOrdered(published: seq<Snapshot>, source: Source, scopes: Scope)
    requires published != [] && RevisionsDetermine(published)
    ensures RevisionsDetermine(published + [FromSource(source, published[|published| - 1], scopes)])
  {
    var last := published[|published| - 1];
    var next := FromSource(source, last, scopes);
    var all := published + [next];
    forall i, j, kind | 0 <= i <= j < |all| ensures Ordered(all[i], all[j], kind) {
      if j < |published| {
        assert Ordered(published[i], published[j], kind);
      } else if i < |published| {
        assert Ordered(published[i], last, kind);
        RevisionsGuardContent(source, last, scopes, kind);
      }
    }
  }

  lemma StepResults(s: State, step: Step)
    requires Inv(s) && Enabled(s, step)
    ensures forall key | key in Next(s, step).results ::
      exists r :: ResultOf(Next(s, step), key, Next(s, step).results[key], r)
  {
    var t := Next(s, step);
    forall key | key in t.results ensures exists r :: ResultOf(t, key, t.results[key], r) {
      if step.StoreResult? && key == ResultKey(s.inFlight[step.id]) {
        assert ResultOf(t, key, t.results[key], s.inFlight[step.id]);
      } else {
        var r :| ResultOf(s, key, s.results[key], r);
        assert ResultOf(t, key, t.results[key], r);
      }
    }
  }

  lemma StepVectors(s: State, step: Step)
    requires Inv(s) && Enabled(s, step)
    ensures forall key | key in Next(s, step).offsets ::
      exists r :: VectorOf(Next(s, step), key, Next(s, step).offsets[key], r)
  {
    var t := Next(s, step);
    forall key | key in t.offsets ensures exists r :: VectorOf(t, key, t.offsets[key], r) {
      if step.StoreVector? && key == VectorKey(s.inFlight[step.id]) {
        assert VectorOf(t, key, t.offsets[key], s.inFlight[step.id]);
      } else {
        var r :| VectorOf(s, key, s.offsets[key], r);
        assert VectorOf(t, key, t.offsets[key], r);
      }
    }
  }

  lemma StepInv(s: State, step: Step)
    requires Inv(s) && Enabled(s, step)
    ensures Inv(Next(s, step))
  {
    if step.PublishStep? {
      PublishOrdered(s.published, step.source, step.scopes);
    }
    StepResults(s, step);
    StepVectors(s, step);
  }

  ghost predicate Run(states: seq<State>, steps: seq<Step>) {
    && |states| == |steps| + 1 && Init(states[0])
    && forall i | 0 <= i < |steps| :: Follows(states, steps, i)
  }

  ghost predicate Follows(states: seq<State>, steps: seq<Step>, i: nat)
    requires i < |steps| && |states| == |steps| + 1
  {
    Enabled(states[i], steps[i]) && states[i + 1] == Next(states[i], steps[i])
  }

  lemma {:induction false} RunInv(states: seq<State>, steps: seq<Step>, i: nat)
    requires Run(states, steps) && i < |states|
    ensures Inv(states[i])
  {
    if i > 0 {
      RunInv(states, steps, i - 1);
      assert Follows(states, steps, i - 1);
      StepInv(states[i - 1], steps[i - 1]);
    }
  }

  lemma SameRevisionSameInputs(published: seq<Snapshot>, a: Snapshot, b: Snapshot, kind: Kind)
    requires RevisionsDetermine(published) && a in published && b in published
    ensures RevisionOf(kind, a) == RevisionOf(kind, b) ==> InputsOf(kind, a) == InputsOf(kind, b)
    ensures SearchRevisionOf(kind, a) == SearchRevisionOf(kind, b) ==> CandidatesOf(kind, a) == CandidatesOf(kind, b)
  {
    var i :| 0 <= i < |published| && published[i] == a;
    var j :| 0 <= j < |published| && published[j] == b;
    assert Ordered(published[if i <= j then i else j], published[if i <= j then j else i], kind);
  }

  /** A hit returns an entry made for the request's kind from exactly the formatter
      configuration, candidates and indexer addresses of the request's own snapshot. It was
      made for the same address, or for one that the request's continues or that continues
      it; between paths without a question mark it is the request's own result. */
  lemma HitIsCoherent(states: seq<State>, steps: seq<Step>, i: nat, id: nat)
    requires Run(states, steps) && i < |states|
    requires id in states[i].inFlight && ResultKey(states[i].inFlight[id]) in states[i].results
    ensures var r := states[i].inFlight[id];
      var e := states[i].results[ResultKey(r)];
      && e.kind == r.kind && e.made == InputsOf(r.kind, r.snapshot)
      && SameAddress(r.path, r.query, e.path, e.query)
      && ('?' !in r.path && '?' !in e.path ==> e == ResultFor(r))
  {
    RunInv(states, steps, i);
    var s := states[i];
    var r := s.inFlight[id];
    var key := ResultKey(r);
    var maker :| ResultOf(s, key, s.results[key], maker);
    KeysSeparate(RevisionOf(r.kind, r.snapshot), r.path, r.query, r.kind,
                 RevisionOf(maker.kind, maker.snapshot), maker.path, maker.query, maker.kind);
    KeysCoincideExactly(RevisionOf(r.kind, r.snapshot), r.path, r.query,
                        RevisionOf(maker.kind, maker.snapshot), maker.path, maker.query);
    SameRevisionSameInputs(s.published, r.snapshot, maker.snapshot, r.kind);
    if '?' !in r.path && '?' !in maker.path {
      PlainAddress(r.path, r.query, maker.path, maker.query);
    }
  }

  /** A cached offset vector counts the titles that the request's own candidates yield. */
  lemma VectorIsCoherent(states: seq<State>, steps: seq<Step>, i: nat, id: nat)
    requires Run(states, steps) && i < |states|
    requires id in states[i].inFlight && VectorKey(states[i].inFlight[id]) in states[i].offsets
    ensures var r := states[i].inFlight[id];
      var v := states[i].offsets[VectorKey(r)];
      v.kind == r.kind && v.candidates == CandidatesOf(r.kind, r.snapshot)
  {
    RunInv(states, steps, i);
    var s := states[i];
    var r := s.inFlight[id];
    var key := VectorKey(r);
    var maker :| VectorOf(s, key, s.offsets[key], maker);
    KeysSeparate(SearchRevisionOf(r.kind, r.snapshot), r.path, r.offsetQuery, r.kind,
                 SearchRevisionOf(maker.kind, maker.snapshot), maker.path, maker.offsetQuery, maker.kind);
    SameRevisionSameInputs(s.published, r.snapshot, maker.snapshot, r.kind);
  }

  // ----- Vectors and indexer addresses -----

  /** A refresh moves the search revision exactly with the titles of the kind, the indexer
      addresses exactly with the system configuration. */
  lemma SearchRevisionMovesWithTitles(source: Source, previous: Snapshot, scopes: Scope, kind: Kind)
    ensures var next := FromSource(source, previous, scopes);
      && SearchRevisionOf(kind, next)
         == SearchRevisionOf(kind, previous) + (if Has(scopes, TitlesScope(kind)) then 1 else 0)
      && AddressesOf(next.content) == AddressesOf(if Has(scopes, SYSTEM_CONFIG) then source else previous.content)
  {
    AllHasEach();
  }

  /** The request `id` stores its vector, a refresh is published, and the same request comes
      again as `again`. */
  function StoreRefreshAskAgain(s: State, id: nat, offsets: seq<int>, source: Source, scopes: Scope,
                                again: nat): (t: State)
    requires Inv(s) && id in s.inFlight && again !in s.inFlight
    ensures again in t.inFlight
  {
    var r := s.inFlight[id];
    var stored := Next(s, StoreVector(id, offsets));
    var refreshed := Next(stored, PublishStep(source, scopes));
    Next(refreshed, Begin(again, r.kind, r.path, r.query, r.offsetQuery))
  }

  lemma AskedAgain(s: State, id: nat, offsets: seq<int>, source: Source, scopes: Scope, again: nat)
    requires Inv(s) && id in s.inFlight && again !in s.inFlight
    requires s.inFlight[id].snapshot == s.published[|s.published| - 1]
    ensures var r, t := s.inFlight[id], StoreRefreshAskAgain(s, id, offsets, source, scopes, again);
      && t.inFlight[again] == r.(snapshot := FromSource(source, r.snapshot, scopes))
      && t.offsets == s.offsets[VectorKey(r) := VectorFor(r, offsets)]
  {
  }

  /** Whether the vector is found: `next` is the request with a later snapshot. */
  lemma FoundUnlessNewer(s: State, r: Request, offsets: seq<int>, next: Request)
    requires Inv(s) && r.snapshot == s.published[|s.published| - 1] && Routed(r.kind, r.path)
    requires next == r.(snapshot := next.snapshot)
    requires SearchRevisionOf(r.kind, next.snapshot) >= SearchRevisionOf(r.kind, r.snapshot)
    ensures var found := s.offsets[VectorKey(r) := VectorFor(r, offsets)];
      if SearchRevisionOf(r.kind, next.snapshot) == SearchRevisionOf(r.kind, r.snapshot)
      then VectorKey(next) in found && found[VectorKey(next)] == VectorFor(r, offsets)
      else VectorKey(next) !in found
  {
    if SearchRevisionOf(r.kind, next.snapshot) > SearchRevisionOf(r.kind, r.snapshot) {
      NewerThanAll(s, r, next);
      if VectorKey(next) in s.offsets {
        var maker :| VectorOf(s, VectorKey(next), s.offsets[VectorKey(next)], maker);
        NewerThanAll(s, maker, next);
      }
    }
  }

  /** After a refresh a request finds a vector counted against other indexer addresses than
      its own exactly when the refresh took new addresses with the system configuration
      without taking the titles of the kind. */
  lemma VectorAfterOneRefresh(s: State, id: nat, offsets: seq<int>, source: Source, scopes: Scope, again: nat)
    requires Inv(s) && id in s.inFlight && again !in s.inFlight
    requires s.inFlight[id].snapshot == s.published[|s.published| - 1]
    ensures var r, t := s.inFlight[id], StoreRefreshAskAgain(s, id, offsets, source, scopes, again);
      var next := t.inFlight[again];
      (VectorKey(next) in t.offsets && t.offsets[VectorKey(next)].addresses != AddressesOf(next.snapshot.content)) <==>
        Has(scopes, SYSTEM_CONFIG) && !Has(scopes, TitlesScope(r.kind)) &&
          AddressesOf(source) != AddressesOf(r.snapshot.content)
  {
    var r := s.inFlight[id];
    var after := FromSource(source, r.snapshot, scopes);
    SearchRevisionMovesWithTitles(source, r.snapshot, scopes, r.kind);
    AskedAgain(s, id, offsets, source, scopes, again);
    FoundUnlessNewer(s, r, offsets, r.(snapshot := after));
    AddressesDiffer(r, offsets, source, after, scopes);
  }

  lemma AddressesDiffer(r: Request, offsets: seq<int>, source: Source, after: Snapshot, scopes: Scope)
    requires AddressesOf(after.content)
          == AddressesOf(if Has(scopes, SYSTEM_CONFIG) then source else r.snapshot.content)
    ensures VectorFor(r, offsets).addresses != AddressesOf(after.content) <==>
      Has(scopes, SYSTEM_CONFIG) && AddressesOf(source) != AddressesOf(r.snapshot.content)
  {
  }

  /** No vector is stored under a search revision that is not published yet. */
  lemma NewerThanAll(s: State, maker: Request, next: Request)
    requires Inv(s) && maker.snapshot in s.published && Routed(maker.kind, maker.path) && Routed(next.kind, next.path)
    requires SearchRevisionOf(next.kind, next.snapshot) > SearchRevisionOf(next.kind, s.published[|s.published| - 1])
    ensures VectorKey(maker) != VectorKey(next)
  {
    var i :| 0 <= i < |s.published| && s.published[i] == maker.snapshot;
    assert Ordered(s.published[i], s.published[|s.published| - 1], next.kind);
    if VectorKey(maker) == VectorKey(next) {
      KeysSeparate(SearchRevisionOf(maker.kind, maker.snapshot), maker.path, maker.offsetQuery, maker.kind,
                   SearchRevisionOf(next.kind, next.snapshot), next.path, next.offsetQuery, next.kind);
    }
  }

  // ----- The same over any run -----

  function Current(s: State): Snapshot
    requires s.published != []
  {
    s.published[|s.published| - 1]
  }

  /** The step that began the request which is in flight as `id` after `n` steps. */
  function BegunAt(steps: seq<Step>, n: nat, id: nat): Option<nat>
    requires n <= |steps|
  {
    if n == 0 then None
    else if steps[n - 1].Begin? && steps[n - 1].id == id then Some(n - 1)
    else BegunAt(steps, n - 1, id)
  }

  /** The request was begun by step `b`, with the snapshot that was current then. */
  ghost predicate Began(states: seq<State>, steps: seq<Step>, b: nat, id: nat, r: Request) {
    && b < |steps| && b < |states| && states[b].published != []
    && steps[b] == Begin(id, r.kind, r.path, r.query, r.offsetQuery) && r.snapshot == Current(states[b])
  }

  lemma {:induction false} InFlightBegan(states: seq<State>, steps: seq<Step>, n: nat, id: nat)
    requires Run(states, steps) && n < |states| && id in states[n].inFlight
    ensures var b := BegunAt(steps, n, id);
      b.Some? && b.value < n && Began(states, steps, b.value, id, states[n].inFlight[id])
  {
    assert Follows(states, steps, n - 1);
    if !(steps[n - 1].Begin? && steps[n - 1].id == id) {
      InFlightBegan(states, steps, n - 1, id);
    }
  }

  /** The step that stored the vector which is cached under `key` after `n` steps. */
  function StoredAt(states: seq<State>, steps: seq<Step>, n: nat, key: string): Option<nat>
    requires n <= |steps| < |states|
  {
    if n == 0 then None
    else if Stores(states[n - 1], steps[n - 1], key) then Some(n - 1)
    else if steps[n - 1] == DropVector(key) then None
    else StoredAt(states, steps, n - 1, key)
  }

  predicate Stores(s: State, step: Step, key: string) {
    step.StoreVector? && step.id in s.inFlight && VectorKey(s.inFlight[step.id]) == key
  }

  /** The vector is the one that step `k` stored. */
  ghost predicate StoredBy(states: seq<State>, steps: seq<Step>, k: nat, key: string, v: Vector) {
    && k < |steps| && k < |states| && Stores(states[k], steps[k], key)
    && v == VectorFor(states[k].inFlight[steps[k].id], steps[k].offsets)
  }

  /** What the cache holds is what the run stored last under the key. */
  lemma {:induction false} VectorsAreLastStored(states: seq<State>, steps: seq<Step>, n: nat, key: string)
    requires Run(states, steps) && n < |states|
    ensures var k := StoredAt(states, steps, n, key);
      && (key in states[n].offsets <==> k.Some?)
      && (k.Some? ==> k.value < n && StoredBy(states, steps, k.value, key, states[n].offsets[key]))
  {
    if n > 0 {
      assert Follows(states, steps, n - 1);
      VectorsAreLastStored(states, steps, n - 1, key);
      KeptOrStored(states[n - 1], steps[n - 1], key);
    }
  }

  lemma KeptOrStored(s: State, step: Step, key: string)
    requires Enabled(s, step)
    ensures var t := Next(s, step);
      if Stores(s, step, key) then key in t.offsets && t.offsets[key] == VectorFor(s.inFlight[step.id], step.offsets)
      else if step == DropVector(key) then key !in t.offsets
      else (key in t.offsets <==> key in s.offsets) && (key in t.offsets ==> t.offsets[key] == s.offsets[key])
  {
  }

  /** How often the first `n` steps published the titles of the kind anew. */
  function TitleRefreshes(steps: seq<Step>, n: nat, kind: Kind): nat
    requires n <= |steps|
  {
    if n == 0 then 0
    else
      TitleRefreshes(steps, n - 1, kind)
      + if steps[n - 1].PublishStep? && Has(steps[n - 1].scopes, TitlesScope(kind)) then 1 else 0
  }

  lemma {:induction false} RevisionCountsRefreshes(states: seq<State>, steps: seq<Step>, n: nat, kind: Kind)
    requires Run(states, steps) && n < |states|
    ensures states[0].published != [] && states[n].published != []
    ensures SearchRevisionOf(kind, Current(states[n]))
         == SearchRevisionOf(kind, Current(states[0])) + TitleRefreshes(steps, n, kind)
  {
    if n > 0 {
      assert Follows(states, steps, n - 1);
      RevisionCountsRefreshes(states, steps, n - 1, kind);
      if steps[n - 1].PublishStep? {
        SearchRevisionMovesWithTitles(steps[n - 1].source, Current(states[n - 1]), steps[n - 1].scopes, kind);
      }
    }
  }

  /** Step `k` stored a vector before step `i`. */
  predicate MadeBy(states: seq<State>, steps: seq<Step>, i: nat, k: nat) {
    && k < i && k < |steps| && k < |states|
    && steps[k].StoreVector? && steps[k].id in states[k].inFlight
  }

  function MakerAt(states: seq<State>, steps: seq<Step>, k: nat): Request
    requires MadeBy(states, steps, k + 1, k)
  {
    states[k].inFlight[steps[k].id]
  }

  /** The maker's request and the one that finds its vector ask for the same titles, and the
      titles were published as often before the one began as before the other. */
  ghost predicate FoundFrom(states: seq<State>, steps: seq<Step>, i: nat, id: nat, k: nat)
    requires i < |states| == |steps| + 1 && id in states[i].inFlight && MadeBy(states, steps, i, k)
  {
    var maker, r := MakerAt(states, steps, k), states[i].inFlight[id];
    var a, b := BegunAt(steps, k, steps[k].id), BegunAt(steps, i, id);
    && maker.kind == r.kind && VectorKey(maker) == VectorKey(r)
    && a.Some? && b.Some? && Began(states, steps, a.value, steps[k].id, maker) && Began(states, steps, b.value, id, r)
    && TitleRefreshes(steps, a.value, r.kind) == TitleRefreshes(steps, b.value, r.kind)
  }

  lemma FoundIsOfSameTitles(states: seq<State>, steps: seq<Step>, i: nat, id: nat, k: nat)
    requires Run(states, steps) && i < |states| && id in states[i].inFlight
    requires StoredAt(states, steps, i, VectorKey(states[i].inFlight[id])) == Some(k) && MadeBy(states, steps, i, k)
    requires VectorKey(MakerAt(states, steps, k)) == VectorKey(states[i].inFlight[id])
    ensures FoundFrom(states, steps, i, id, k)
  {
    var maker, r := MakerAt(states, steps, k), states[i].inFlight[id];
    RunInv(states, steps, i);
    RunInv(states, steps, k);
    InFlightBegan(states, steps, i, id);
    InFlightBegan(states, steps, k, steps[k].id);
    KeysSeparate(SearchRevisionOf(r.kind, r.snapshot), r.path, r.offsetQuery, r.kind,
                 SearchRevisionOf(maker.kind, maker.snapshot), maker.path, maker.offsetQuery, maker.kind);
    RevisionCountsRefreshes(states, steps, BegunAt(steps, i, id).value, r.kind);
    RevisionCountsRefreshes(states, steps, BegunAt(steps, k, steps[k].id).value, r.kind);
  }

  /** The request finds a vector that was counted against other addresses than its own. */
  predicate FindsForeign(s: State, id: nat)
    requires id in s.inFlight
  {
    var r := s.inFlight[id];
    VectorKey(r) in s.offsets && s.offsets[VectorKey(r)].addresses != AddressesOf(r.snapshot.content)
  }

  /** Over any run a request finds a vector counted against other indexer addresses exactly
      when a vector is stored under its key and not dropped since, and the addresses current
      when the last such maker began differ from those current when the request began. The
      titles were then not published anew in between. */
  lemma VectorOutlivesAddresses(states: seq<State>, steps: seq<Step>, i: nat, id: nat)
    requires Run(states, steps) && i < |states| && id in states[i].inFlight
    ensures var r := states[i].inFlight[id];
      var k := StoredAt(states, steps, i, VectorKey(r));
      && (k.Some? ==> MadeBy(states, steps, i, k.value) && FoundFrom(states, steps, i, id, k.value))
      && (FindsForeign(states[i], id) <==>
            k.Some? && AddressesOf(MakerAt(states, steps, k.value).snapshot.content) != AddressesOf(r.snapshot.content))
  {
    var r := states[i].inFlight[id];
    VectorsAreLastStored(states, steps, i, VectorKey(r));
    var k := StoredAt(states, steps, i, VectorKey(r));
    if k.Some? {
      FoundIsOfSameTitles(states, steps, i, id, k.value);
    }
  }

  // ----- What stays cached and in flight -----

  predicate StoresResult(s: State, step: Step, key: string) {
    step.StoreResult? && step.id in s.inFlight && ResultKey(s.inFlight[step.id]) == key
  }

  /** The step that stored the result which is cached under `key` after `n` steps. */
  function ResultStoredAt(states: seq<State>, steps: seq<Step>, n: nat, key: string): Option<nat>
    requires n <= |steps| < |states|
  {
    if n == 0 then None
    else if StoresResult(states[n - 1], steps[n - 1], key) then Some(n - 1)
    else if steps[n - 1] == DropResult(key) then None
    else ResultStoredAt(states, steps, n - 1, key)
  }

  ghost predicate ResultStoredBy(states: seq<State>, steps: seq<Step>, k: nat, key: string, e: Result) {
    && k < |steps| && k < |states| && StoresResult(states[k], steps[k], key)
    && e == ResultFor(states[k].inFlight[steps[k].id])
  }

  /** The result cache holds what the run stored last under a key and did not drop since, so a
      request for a key stored and not dropped is answered from it. */
  lemma {:induction false} ResultsAreLastStored(states: seq<State>, steps: seq<Step>, n: nat, key: string)
    requires Run(states, steps) && n < |states|
    ensures var k := ResultStoredAt(states, steps, n, key);
      && (key in states[n].results <==> k.Some?)
      && (k.Some? ==> k.value < n && ResultStoredBy(states, steps, k.value, key, states[n].results[key]))
  {
    if n > 0 {
      assert Follows(states, steps, n - 1);
      ResultsAreLastStored(states, steps, n - 1, key);
      ResultKeptOrStored(states[n - 1], steps[n - 1], key);
    }
  }

  lemma ResultKeptOrStored(s: State, step: Step, key: string)
    requires Enabled(s, step)
    ensures var t := Next(s, step);
      if StoresResult(s, step, key) then key in t.results && t.results[key] == ResultFor(s.inFlight[step.id])
      else if step == DropResult(key) then key !in t.results
      else (key in t.results <==> key in s.results) && (key in t.results ==> t.results[key] == s.results[key])
  {
  }

  /** The request has begun and not finished since. */
  predicate Open(steps: seq<Step>, n: nat, id: nat)
    requires n <= |steps|
  {
    n > 0 && ((steps[n - 1].Begin? && steps[n - 1].id == id) || (steps[n - 1] != Finish(id) && Open(steps, n - 1, id)))
  }

  lemma {:induction false} InFlightIsOpen(states: seq<State>, steps: seq<Step>, n: nat, id: nat)
    requires Run(states, steps) && n < |states|
    ensures id in states[n].inFlight <==> Open(steps, n, id)
  {
    if n > 0 {
      assert Follows(states, steps, n - 1);
      InFlightIsOpen(states, steps, n - 1, id);
      OpenStep(states[n - 1], steps[n - 1], id);
    }
  }

  lemma OpenStep(s: State, step: Step, id: nat)
    requires Enabled(s, step)
    ensures id in Next(s, step).inFlight <==> (step.Begin? && step.id == id) || (step != Finish(id) && id in s.inFlight)
  {
  }

  /** Every step a request can want to take is open to it, whatever else is going on. */
  lemma RequestsAreFree(s: State, id: nat, kind: Kind, path: string, query: string, offsetQuery: string,
                        offsets: seq<int>)
    requires Inv(s) && id !in s.inFlight && Routed(kind, path)
    ensures Enabled(s, Begin(id, kind, path, query, offsetQuery))
    ensures var t := Next(s, Begin(id, kind, path, query, offsetQuery));
      && id in t.inFlight && t.inFlight[id].snapshot == Current(s)
      && Enabled(t, StoreVector(id, offsets)) && Enabled(t, StoreResult(id)) && Enabled(t, Finish(id))
      && Next(t, Finish(id)) == s
  {
  }
}
