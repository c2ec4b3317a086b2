# Models of a search proxy in front of indexers

The proxy answers a media manager's searches by asking several indexers, merging and trimming
their feeds and rewriting titles in them. Its configuration reloads while requests are in flight,
a scheduler runs its jobs, and two downloader clients rename what was fetched. This project models
the logic of it that does not depend on HTTP or SQL, and proves what that logic is for.

## How the parts are modelled

- **Feeds and paging** (`Text`, `Feed`, `Paging`, `PagingProofs`, `PagingRuns`, `PagingFeeds`,
  `CacheKeys`, `PagingKeys`). Feeds are strings, cut and joined at tags as the proxy does. A feed
  is also rendered from a list of items, and the string operations are proved to be list
  operations on that list. The search loop works on the offset vector in place, as an array shared
  with the cache, which keeps one vector per offset key; the key is the query without offset and
  API key, so the page size stays in it. Indexers are functions from the forwarded limit and a
  query to a feed. The exactness of pages assumes what the proxy assumes of indexers: a fixed item
  list per title, slices of at least the limit forwarded with the query (100 if the client sends
  none), and well-formed feeds whose gaps between items close every tag they open, with
  `</channel>` in the footer only. Vectors stay cached while one client pages through.
- **Snapshots, publication and caches** (`Snapshots`, `Publication`, `PublicationRuns`,
  `Coherence`, `TtlCache`, `Registry`). The database is a list of committed versions. Refreshes,
  handlers and requests are processes whose steps interleave in any order that the locks allow.
  The cache is a class over a map and an order list; its histories interleave the two locked
  sections of `Get`.
- **Protocols** (`Scheduler`, `SchedulerRuns`, `SyncGate`, `SyncCallers`, `QBittorrent`,
  `QBittorrentRuns`, `Transmission`, `TransmissionRuns`). Each goroutine or operation is a process
  with a phase; a run is any sequence of enabled steps. What goes over the wire is recorded as a
  list of events, and the properties are about that list. Beside what every run keeps, the modules
  of runs say what is brought about: which steps lead from any reachable state to which other one.
- **The title rewriter** (`SonarrXml`, `SonarrXmlTree`). Token streams come from a decoder that
  delivers well-nested streams only. The two loops are methods; the tree map is a recursive
  function on forests.
- **Deterministic parts** (`Decimal`, `TitleIds`, `TitleRows`, `Candidates`, `CandidateRows`,
  `Expansion`, `Rules`, `RuleTexts`, `Paths`, `MediaNames`, `MediaPatterns`, `FilePlans`,
  `RenamePlan`, `Schedule`, `Endpoint`, `EndpointUrl`). Regular expressions are parameters, except
  the media-extension pattern, the token pattern and the pattern that offset keys leave out, which
  are modelled with their leftmost-match semantics.

Revisions, generations and attempt ids are naturals, times are integers. Where the code can fail
through I/O, cancellation or a malformed answer, the processes may end at that point.

## What turned out to hold only under a condition

- Two cache keys coincide exactly when the revisions are equal and path and remaining query agree
  or one decoded path continues the other with a question mark (`CacheKeys.KeysCoincideExactly`).
  So keys of plain paths are faithful (`CacheKeys.KeysOfPlainPaths`), and every path with a
  question mark collides with the path cut before it (`CacheKeys.MarkedPathsCollide`).
- A run of pages is exact for every indexer and every leftover cache exactly when the queries
  that ask for items agree in all but offset and API key (`PagingKeys.ExactExactlyWhenQueriesAgree`).
  A page of another size finds no vector and shows the last title's list at the client's position
  (`PagingKeys.FreshKeyAsksLastTitle`, `PagingKeys.SecondSizeFindsNothing`); a first page without
  an offset parameter has another key than the pages after it (`CacheKeys.AddedOffsetChangesKey`).
- An offset vector is found by requests with the same candidates, but it can have been counted
  against other indexer addresses: over any run exactly when the addresses current when its maker
  began differ from those current when the request began, with no publication of the titles in
  between (`Coherence.VectorOutlivesAddresses`); across one refresh, exactly when that refresh took
  new addresses without the titles (`Coherence.VectorAfterOneRefresh`).
- The normal form of an accepted Transmission endpoint is accepted again exactly when it is no
  longer than the longest value allowed (`EndpointUrl.StoredEndpointIsStable`). An update of the
  configuration parses it again before it commits, so the longest endpoints pass the check of
  their own value and are then rolled back (`EndpointUrl.LongestNormalFormIsRefused`).
- What the rewriter returns has every title formatted from its own text, whatever the formatter,
  exactly when in no channel item a title comes behind one with text, because the gathered text is
  reset only at the end of the item (`SonarrXmlTree.OwnTitlesExactlyWhenClean`,
  `SonarrXmlTree.SecondTitleTakesBoth`).
- `Wait` returns with nothing left running when it is called after `Start`
  (`Scheduler.WaitIsComplete`); it can return while a loop is active exactly when it is called
  before `Start` and there is a job (`Scheduler.EarlyReturnExactly`).
- Ids of two different series or movies collide exactly when one external id continues the other
  with the digits that start the other's position (`TitleIds.CollisionsAreShifts`).
- Two renamed files share a path exactly when they have the same middle directories and are two
  videos with one extension, or two files of one name that are no media files
  (`RenamePlan.PathsMeetExactly`, `RenamePlan.VideosMeet`, `RenamePlan.TwoVideosOnePath`).
- Merging keeps what stands between the last item and the end of the first feed's channel; the
  merged feed is a rendering of both item lists whose first new gap holds that text
  (`Feed.MergeRefinesAppend`).

## Model

| member | source | states |
|---|---|---|
| Feed.TrimXmlItems | internal/proxy/xml.go:39-58 | The cutting loops return what the recursive specification keeps, for any text and limit. |
| Feed.SkipOccurrences | internal/proxy/xml.go:43-52 | The search loop finds the occurrence after the first `n`, or none. |
| Feed.ReadBack | internal/proxy/xml.go:11-16 | Counting the item tags of a rendered feed gives its number of items, and reading between them gives back the bodies. |
| Feed.TrimRefinesTake | internal/proxy/xml.go:39-58 | Trimming the rendering of a feed to `n` items is the rendering of its first `n` items with the footer behind them. |
| Feed.TrimKeepsWf | internal/proxy/xml.go:39-58 | A trimmed feed is well formed again, so it can be merged and counted. |
| Feed.MergeRefinesAppend | internal/proxy/xml.go:18-37 | Merging two non-empty feeds renders the two item lists one after the other, and the result is well formed. |
| Feed.NoTagAcrossClosedGap | internal/proxy/xml.go:39-58 | No item tag arises where a trimmed gap meets the footer. |
| Text.NoTagAcrossSeam | internal/proxy/xml.go:18-37 | A tag cannot arise across the place where two texts without it are joined, if the first leaves no tag open. |
| Feed.NoChannelCloseInItems | internal/proxy/xml.go:18-37 | The end of the channel is not found among the items. |
| Feed.RssIsDistinct | internal/proxy/xml.go:5-9 | The tags of the source meet the conditions under which the feed results hold. |
| Feed.MergingWithoutItems | internal/proxy/xml.go:18-37 | Joining any texts: empty ones and ones without items give way, and a first feed whose channel is not closed stays as it is. |
| Paging.CalculateCurrentIndex | internal/proxy/server.go:187-197 | The loop returns the first position whose cumulative offset reaches the request's, or the last. |
| Paging.ExpandedSearch.constructor | internal/proxy/server.go:94-142 | A new search has no vector cached. |
| Paging.ExpandedSearch.StartVector | internal/proxy/server.go:104-110 | The slice cached under the key if it fits the titles, and a new one of zeros if not. |
| Paging.ExpandedSearch.SearchTitles | internal/proxy/server.go:112-142 | The loop over titles gives the outcome of the specification; its slice ends up under the key exactly when some answer was taken. |
| Paging.ExpandedSearch.Execute | internal/proxy/server.go:94-142 | The search returns the page of the specification, made from the vector under its own key and the page's own limit, and changes the cached vector of that key only, although slices are shared with the cache while they change. |
| PagingProofs.SurgeryRefinesLists | internal/proxy/server.go:124-139 | Counting, trimming and merging answers are taking and appending on item lists. |
| PagingProofs.SliceOfTitle | internal/proxy/server.go:112-139 | What one title yields at its local offset is the next slice of the concatenated lists. |
| PagingProofs.TurnExact | internal/proxy/server.go:112-139 | One turn of the loop adds the next items of the concatenated lists to the page, never more than the limit, and keeps the vector cumulative. |
| PagingProofs.SearchExact | internal/proxy/server.go:112-142 | The whole loop adds exactly the next items of the concatenated lists: as many as asked for, or all that are left. |
| PagingProofs.ResumesInside | internal/proxy/server.go:187-197 | The index a page resumes with is a title the client has reached. |
| PagingProofs.PageIsSlice | internal/proxy/server.go:94-142 | A page asked for at the client's position is the slice of the concatenated lists at that position, and the client stays in step with the vector. |
| PagingRuns.SearchServes | internal/proxy/server.go:94-142 | The search hands every client in step its slice, whatever limit each page asks for and forwards. |
| PagingRuns.AgreeingRunExact | internal/proxy/server.go:94-142 | Pages under one key are exact one after the other, for any service that keeps clients in step and a cache by keys. |
| PagingRuns.PagingExact | internal/proxy/server.go:94-142 | From offset 0, with any leftover cache, every page of a run under one offset key is the slice at the client's position. |
| PagingRuns.ExactRunJoins | internal/proxy/server.go:94-142 | The pages of an exact run join without gap or repeat. |
| PagingRuns.PagesFormPrefix | internal/proxy/server.go:94-142 | The pages of a run under one key form a prefix of the concatenated lists; the last of more than two titles counts with its widened list exactly when those before it total less than MinCount. |
| PagingFeeds.PageIsFeed | internal/proxy/server.go:94-142 | For an honest indexer, from any vector and at any position, a page that asks for items is a well-formed feed of at most that many, never empty text, also when nothing is found. |
| PagingFeeds.PagesAreFeeds | internal/proxy/server.go:94-142 | The same for every page of every run, whatever keys and limits it has. |
| PagingFeeds.SearchOkExactly | internal/proxy/server.go:112-142 | A search succeeds exactly when every query it sends is answered, and its vector is cached exactly when one was. |
| PagingKeys.FreshKeyAsksLastTitle | internal/proxy/server.go:104-142 | Behind the first page a request whose key has no vector shows the last title's list at its position, which is right exactly when that is the slice of all lists. |
| PagingKeys.WorldIsHonest | internal/proxy/server.go:94-142 | Any lists of items without tags have an indexer that answers every query as assumed. |
| PagingKeys.OtherKeyFails | internal/proxy/server.go:104-142 | Where pages without a vector come out empty, a run fails at its first page of another key while items are left. |
| PagingKeys.ExactExactlyWhenKeysAgree | internal/proxy/server.go:94-142 | A run is exact for every honest indexer and every leftover cache exactly when all its pages that ask for items have one offset key. |
| PagingKeys.ExactExactlyWhenQueriesAgree | internal/proxy/server.go:217-220 | In terms of queries: exactly when they agree in all but offset and API key. |
| PagingKeys.SecondSizeFindsNothing | internal/proxy/server.go:94-142 | Over the lists a, b and c the page limit=2&offset=1 after limit=1&offset=0 is empty instead of b, c. |
| PagingProofs.LocalOffsetsNonNegative | internal/proxy/server.go:111-117 | In any state no title after the first is asked for a negative offset. |
| TtlCache.Cache.constructor | internal/cache/cache.go:21-26 | A new cache is empty, with at least one place. |
| TtlCache.Cache.Get | internal/cache/cache.go:28-43 | A live entry is returned and nothing changes; an expired one is deleted; otherwise nothing happens. |
| TtlCache.Cache.Set | internal/cache/cache.go:45-57 | The state after a set: a known key keeps its place, a new one goes last after expired entries and, if still full, the oldest have left; the eviction loop ends. |
| TtlCache.Cache.Clear | internal/cache/cache.go:59-65 | Map and list become empty together. |
| TtlCache.Cache.Delete | internal/cache/cache.go:67-71 | The key leaves map and list. |
| TtlCache.Cache.RemoveExpired | internal/cache/cache.go:73-87 | Exactly the expired entries leave map and list; the others keep their order. |
| TtlCache.Cache.EvictOldest | internal/cache/cache.go:89-98 | Keys leave the list up to the first that was in the map, which leaves it as well. |
| TtlCache.Cache.DeleteKey | internal/cache/cache.go:100-108 | The loop removes the key from the list where it stands. |
| TtlCache.StepsKeepValid | internal/cache/cache.go:45-108 | Every operation keeps the list duplicate-free, equal to the map's keys and within the bound. |
| TtlCache.SetDropsOnlyOldest | internal/cache/cache.go:45-57 | A set drops at most one live entry, only from a full cache, and it is the oldest. |
| TtlCache.EntriesAreLatest | internal/cache/cache.go:28-108 | In every history of locked sections, `Get`'s two included, an entry holds the latest value set since its last delete or clear, and its deadline is the time of that set plus the ttl. |
| TtlCache.EventOnKey | internal/cache/cache.go:45-108 | For each event and key: the entry is there afterwards exactly when it was set, or was there and was neither removed nor the oldest one that a new key makes leave. |
| TtlCache.EntryLasts | internal/cache/cache.go:45-108 | After a set, while nobody sets or removes the key, its entry is there exactly unless a new key has made it leave. |
| TtlCache.GetAfterSet | internal/cache/cache.go:28-57 | After a set at t, with no other event on the key, a `Get` at t' returns the value exactly when t' is at most t plus the ttl and no new key has made the entry leave. |
| TtlCache.OrderIsByAge | internal/cache/cache.go:45-108 | In every history the list runs from the oldest inserted entry to the newest. |
| Snapshots.PartsByScope | internal/runtime/snapshot.go:144-197 | For every mask each part of the content comes from the source exactly when its own bit is set; the branch for all scopes adds nothing. |
| Snapshots.RefreshesCompose | internal/runtime/snapshot.go:144-197 | Refreshing two masks in turn gives the content of one refresh with their union. |
| Snapshots.RevisionsGuardContent | internal/runtime/snapshot.go:144-197 | No refresh lowers a revision, and an unchanged revision means unchanged content of its kind. |
| Snapshots.RevisionsMoveExactly | internal/runtime/snapshot.go:144-197 | When each revision moves and by how much: those of the downloaders with the system configuration, that of a kind once for it and once for its rules or titles, its search revision with its titles; other scopes leave it alone. |
| Publication.StepInv | internal/runtime/snapshot.go:108-142 | Every step of refreshes, handlers and commits keeps the published parts equal to recorded database versions. |
| Publication.NeverOlder | internal/runtime/snapshot.go:108-142 | Over every run the version published for each scope never goes backwards. |
| Publication.SystemConfigIsFresh | internal/api/system/handler.go:104-161 | Whenever no handler stands between its commit and its publication the published system configuration is the last one committed. |
| Publication.PublicationsAreRefreshes | internal/runtime/snapshot.go:124-141 | Every change of the published snapshot is one scoped refresh of the snapshot before it, from one database version. |
| PublicationRuns.DatabaseIsCommits | internal/store/sqlite/system_config_transaction.go:12-44 | The database versions are what the steps of the run have committed, in order. |
| PublicationRuns.RefreshWasCalled | internal/runtime/snapshot.go:108-123 | Over every run a refresh in progress goes back to the last call of it and has the scopes of that call. |
| PublicationRuns.PublishesAfterCall | internal/runtime/snapshot.go:108-134 | A refresh that publishes has a last call before it: exactly the parts that this call named are taken, all from one version that is no older than the newest one at the call. |
| PublicationRuns.HandlerPublishesItsCommit | internal/api/system/handler.go:104-161 | When the handler publishes, it is exactly the system configuration of its last commit. |
| PublicationRuns.RefreshCompletes | internal/runtime/snapshot.go:108-142 | From every reachable state with the lock free a called refresh can run to its end, and then the newest version of its scopes is published. |
| PublicationRuns.ChangeIsPublished | internal/runtime/snapshot.go:108-142 | Titles or rules of whatever content, committed and followed by a call for whatever scopes, come to be published. |
| PublicationRuns.ClearCompletes | internal/api/system/handler.go:136-161 | So does the newest version of whatever scopes the handler clears. |
| PublicationRuns.UpdateCompletes | internal/api/system/handler.go:104-161 | An undisturbed update commits and publishes its configuration, and a rejected one changes nothing. |
| PublicationRuns.FailureLeavesPublished | internal/runtime/snapshot.go:108-134 | A refresh that fails at any stage leaves database and publication alone and gives up the lock. |
| CacheKeys.KeysSeparate | internal/proxy/server.go:213-220 | Equal keys have the same revision and the same kind. |
| CacheKeys.KeysCoincideExactly | internal/proxy/server.go:213-220 | Keys are equal exactly when the revisions are and either path and remaining query agree or one path continues the other with a question mark. |
| CacheKeys.KeysOfPlainPaths | internal/proxy/server.go:213-220 | For paths without a question mark, keys are equal exactly when revision, path and remaining query are. |
| CacheKeys.MarkedPathsCollide | internal/proxy/server.go:213-220 | Every request whose decoded path holds a question mark shares its key with the one whose path ends before the mark. |
| CacheKeys.OffsetKeysAgree | internal/proxy/server.go:217-220 | For one revision and path, offset keys are equal exactly when the stripped queries are. |
| CacheKeys.StripByParameter | internal/proxy/server.go:218-218 | Each parameter is stripped on its own, and the separators stay. |
| CacheKeys.OffsetIsForgotten | internal/proxy/server.go:218-218 | A client that changes only the number of its offset parameter keeps its key, wherever the parameter stands. |
| CacheKeys.ApiKeyIsForgotten | internal/proxy/server.go:218-218 | Clients with different API keys have one key, wherever the parameter stands. |
| CacheKeys.NoNumberStays | internal/proxy/server.go:218-218 | An offset parameter without a number stays in the key. |
| CacheKeys.AddedOffsetChangesKey | internal/proxy/server.go:218-218 | Adding an offset parameter to a query without one changes the key. |
| CacheKeys.LimitStaysInKey | internal/proxy/server.go:218-218 | Two pages share an offset key exactly when their limits are equal. |
| Coherence.StepInv | internal/proxy/server.go:58-92 | Every step of publications and requests keeps each cache entry tied to a request that made it and revisions tied to content. |
| Coherence.HitIsCoherent | internal/proxy/server.go:58-92 | Over every interleaving a hit is an entry made for the request's kind from exactly the formatter configuration, candidates and indexer addresses of its own snapshot, by a request for the same address; between paths without a question mark it is the result the request would make itself. |
| Coherence.VectorIsCoherent | internal/proxy/server.go:104-110 | A cached offset vector belongs to exactly the candidates of the request's own snapshot. |
| Coherence.ResultsAreLastStored | internal/proxy/server.go:58-92 | Over any run the result cache holds what was stored last under a key and not dropped since. |
| Coherence.InFlightIsOpen | internal/proxy/server.go:58-92 | A request is in flight exactly from its beginning to its end. |
| Coherence.SearchRevisionMovesWithTitles | internal/runtime/snapshot.go:144-197 | A refresh moves the search revision exactly with the titles of the kind, and the indexer addresses exactly with the system configuration. |
| Coherence.VectorsAreLastStored | internal/proxy/server.go:104-139 | Over any run the offset cache holds what was stored last under a key and not dropped since. |
| Coherence.VectorOutlivesAddresses | internal/proxy/server.go:104-139 | Over any run a request finds a vector counted against other indexer addresses exactly when one is stored under its key and the addresses current when its maker began differ from those current when the request began; the titles were published as often before the one as before the other. |
| Coherence.VectorAfterOneRefresh | internal/proxy/server.go:104-110 | Across one refresh exactly when the refresh took new addresses without the titles of the kind. |
| Registry.CollectPlan | internal/runtime/registry.go:104-138 | The loop succeeds exactly when every name, trimmed, is known, and then the plan does exactly what some name asks for, each marker once. |
| Registry.InvalidationPlan | internal/runtime/registry.go:104-138 | With the source's names and white space: a plan exists exactly when every trimmed name is one of the twelve, and each scope, each clearing and each marker is in it exactly when one of its own names was given. |
| Registry.PlanOfNames | internal/runtime/registry.go:118-134 | What each name stands for, for every list of names. |
| Registry.PlanDependsOnNames | internal/runtime/registry.go:104-138 | Order, repetition and padding of the names change neither scopes nor flags nor the markers. |
| Registry.MaskHasFlags | internal/runtime/registry.go:116-126 | The scope mask has exactly the flags that were collected. |
| Registry.Caches.Apply | internal/runtime/registry.go:140-151 | Exactly the planned caches are cleared and the planned markers are deleted and cleared at the gate. |
| Registry.Caches.Invalidate | internal/runtime/registry.go:44-54 | On success what the source's names ask for takes effect; an unknown or blank name or a failed refresh leaves everything as it was. |
| Registry.ClearsByMarker | internal/runtime/registry.go:147-150 | Clearing distinct markers clears each of them once and no other. |
| Registry.SameClears | internal/runtime/registry.go:147-150 | Two duplicate-free lists of the same markers leave the gate alike. |
| Scheduler.ActionOk | internal/tasks/scheduler.go:152-206 | Every action of a run agrees with the flags of its job and moves the semaphore by what its phase says. |
| Scheduler.ActionEpisode | internal/tasks/scheduler.go:184-199 | The failure flag says whether the last counted outcome is a failure. |
| Scheduler.StepInv | internal/tasks/scheduler.go:106-206 | Every step of loops, runs, cancellation and waiting keeps flags, semaphore and wait groups in agreement. |
| Scheduler.NoOverlap | internal/tasks/scheduler.go:152-206 | Of the runs of one job at most one is queued or executing, and callbacks executing at once never exceed the limit. |
| Scheduler.SlotsAreReturned | internal/tasks/scheduler.go:162-196 | The semaphore counts exactly the runs holding a slot, so every acquired slot is released. |
| Scheduler.NoStartAfterCancel | internal/tasks/scheduler.go:162-181 | No callback executes whose slot was acquired after the cancellation. |
| Scheduler.WaitIsComplete | internal/tasks/scheduler.go:120-123 | A wait called after the start returns only when no loop and no run is left. |
| Scheduler.EarlyWait | internal/tasks/scheduler.go:106-123 | From every state before the start a wait can run to its end with all loops active. |
| Scheduler.EarlyReturnExactly | internal/tasks/scheduler.go:106-123 | In every reachable state a wait called now can return while a loop is active exactly when the start has not come and there is a job. |
| Scheduler.WaitBeforeStartIsNot | internal/tasks/scheduler.go:106-123 | Such a run for one job. |
| Scheduler.ReportsAreSeparated | internal/tasks/scheduler.go:184-199 | Between two reported failures of a job one of its runs succeeded. |
| SchedulerRuns.TraceMeans | internal/tasks/scheduler.go:152-206 | In every reachable state a flag of a job is set only while a run of it, or a tick on its way to one, accounts for it. |
| SchedulerRuns.TickStartsRunUnlessBusy | internal/tasks/scheduler.go:137-170 | In every reachable state a tick of a waiting loop is skipped exactly when a run of that job is queued or executing, however many slots are free; otherwise it leads to a queued run and changes nothing else. |
| SchedulerRuns.QueuedComesToExecute | internal/tasks/scheduler.go:160-181 | A queued run that finds a slot free comes to execute while nothing is cancelled. |
| SchedulerRuns.LateIsRemembered | internal/tasks/scheduler.go:160-181 | Over every run the slot of an executing callback was acquired at a step before which nobody had cancelled. |
| SchedulerRuns.ExecutingComesToEnd | internal/tasks/scheduler.go:181-206 | An executing run ends with its flags and its slot given back and its outcome recorded by what the callback returned. |
| SchedulerRuns.CancelledRunRecordsNothing | internal/tasks/scheduler.go:181-206 | A callback that ends after the cancellation records nothing, whatever it returned. |
| SchedulerRuns.QueuedGivesUp | internal/tasks/scheduler.go:160-175 | A run that is still queued at the cancellation ends without executing. |
| SchedulerRuns.CancelledExactly | internal/tasks/scheduler.go:106-118 | The context is cancelled exactly when somebody has cancelled it. |
| SchedulerRuns.NothingGivesUpBefore | internal/tasks/scheduler.go:125-175 | Until then no loop exits and no queued run gives up. |
| SchedulerRuns.EverythingEnds | internal/tasks/scheduler.go:106-206 | After the cancellation steps lead from every reachable state to one with no loop active and no run left. |
| SchedulerRuns.WaitCanReturn | internal/tasks/scheduler.go:120-123 | Then a wait after the start can return. |
| SyncGate.TitleSyncGate.constructor | internal/runtime/title_sync_gate.go:30-36 | A new gate knows its markers, none in flight. |
| SyncGate.TitleSyncGate.Begin | internal/runtime/title_sync_gate.go:38-53 | An attempt is handed out exactly when the marker is known, idle and without a retained success, and it is then the current one. |
| SyncGate.TitleSyncGate.Finish | internal/runtime/title_sync_gate.go:55-67 | The state after a finish; only the current attempt has an effect, and its outcome is kept only in its own generation. |
| SyncGate.TitleSyncGate.Clear | internal/runtime/title_sync_gate.go:69-76 | The state after a clear; an unknown marker becomes known by it. |
| SyncGate.TitleSyncGate.ClearAll | internal/runtime/title_sync_gate.go:78-82 | All markers are cleared in turn. |
| SyncGate.GateAgrees | internal/runtime/title_sync_gate.go:38-76 | After every history of calls the gate's fields say what the history says: unfinished attempts, successes since the latest clear, known markers. |
| SyncGate.OneOpenAttempt | internal/runtime/title_sync_gate.go:38-67 | A marker has at most one unfinished attempt and is in flight exactly while it has one. |
| SyncGate.AdmissionIsHistory | internal/runtime/title_sync_gate.go:38-53 | A begin succeeds exactly when the marker is known, nothing is unfinished, and no attempt begun since the latest clear has succeeded. |
| SyncGate.StaleFinishIsIdle | internal/runtime/title_sync_gate.go:55-61 | Finishing an attempt that is not open changes nothing. |
| SyncCallers.StepInv | internal/app/task_sync.go:69-107 | Every step of callers and clears keeps the attempts held by callers and the attempts in flight the same. |
| SyncCallers.InFlightIffSyncing | internal/api/title/sync.go:21-73 | Over every interleaving a marker is in flight exactly while one caller, and one only, syncs it. |
| SyncCallers.IdleAdmission | internal/app/task_sync.go:69-101 | While nobody syncs a marker a call is admitted exactly when it is known and nothing begun since its latest clear has succeeded. |
| SyncCallers.AskDecides | internal/app/task_sync.go:69-80 | A caller that asks syncs under a current attempt exactly when the gate admits its marker, and is otherwise over. |
| SyncCallers.ReportDecidesAdmission | internal/api/title/sync.go:21-73 | After a report the marker is admitted again exactly when the sync did not succeed or the marker was cleared while it ran; only a failed request goes on to delete it. |
| SyncCallers.SuccessIsRetained | internal/app/task_sync.go:69-101 | After a success without a clear meanwhile the marker is not admitted until it is cleared. |
| SyncCallers.ClearAdmits | internal/api/title/sync.go:59-73 | After a clear, of anyone or of a failed request, the marker is admitted exactly when nobody syncs it. |
| SyncCallers.CallEnds | internal/api/title/sync.go:21-73 | A caller that syncs can report any outcome and then delete its marker if it has to; nothing else is recorded. |
| QBittorrent.StepInv | internal/downloader/qbittorrent/client.go:84-162 | Every step of logins, requests and configuration changes keeps cookies, locks and traffic in order. |
| QBittorrent.CookiesStayWithTheirRevision | internal/downloader/qbittorrent/mutation.go:25-93 | Every authenticated request carries a cookie that its own configuration's daemon handed out, and a mutation starts only while the provider holds that revision. |
| QBittorrent.AtMostTwoSendings | internal/downloader/qbittorrent/mutation.go:25-59 | A request is sent at most twice, the second time only after a refusal. |
| QBittorrent.SessionNeverOlder | internal/downloader/qbittorrent/client.go:113-162 | A stored session is never followed by one of an older revision, not even when it was cleared in between, and none is newer than the provider. |
| QBittorrent.DroppedOnlyWhenRefused | internal/downloader/qbittorrent/mutation.go:42-47 | A stored session is dropped only when a request with its cookie value under its revision was refused. |
| QBittorrent.OneLoginAtATime | internal/downloader/qbittorrent/client.go:95-97 | At most one operation is past the login mutex. |
| QBittorrentRuns.ClearForgetsRefused | internal/downloader/qbittorrent/mutation.go:42-52 | After a refusal the stored session is not the refused one: that one is dropped, and any other stays. |
| QBittorrentRuns.StoredIsFresh | internal/downloader/qbittorrent/client.go:113-162 | Over every run, what is stored after an operation has cleared its refused session is another session or one stored since. |
| QBittorrentRuns.SecondSendingIsFresh | internal/downloader/qbittorrent/mutation.go:42-59 | A request that is sent a second time carries a session other than the refused one, or one stored after that was cleared. |
| QBittorrentRuns.OperationCompletes | internal/downloader/qbittorrent/mutation.go:25-59 | An undisturbed operation without a usable session logs in and sends its request with the cookie it got, and with a usable one it sends at once; an explicit login always logs in. |
| QBittorrentRuns.RefusedRequestIsSentAgain | internal/downloader/qbittorrent/mutation.go:42-59 | An undisturbed request that is refused once is sent again with the cookie of a new login. |
| QBittorrentRuns.SecondRefusalEnds | internal/downloader/qbittorrent/mutation.go:42-59 | A second refusal ends the operation; it too drops the refused session. |
| QBittorrentRuns.ReusedLogin | internal/downloader/qbittorrent/client.go:95-111 | A login after a refusal that finds a usable session goes on with it. |
| QBittorrentRuns.StaleLoginStartsOver | internal/downloader/qbittorrent/client.go:113-162 | A login is stored exactly when its configuration is still the current one, and starts over otherwise. |
| QBittorrentRuns.EndReleases | internal/downloader/qbittorrent/client.go:84-162 | An operation can end at any point; it gives up its locks and leaves everything else alone. |
| QBittorrentRuns.RevisionCounts | internal/downloader/qbittorrent/client.go:84-162 | The revision counts the configurations published. |
| Transmission.StepInv | internal/downloader/transmission/mutation.go:18-93 | Every step of lookups, renames, challenges and configuration changes keeps sessions, lock and traffic in order. |
| Transmission.RenamesAreAdmitted | internal/downloader/transmission/operations.go:151-197 | A rename carries a torrent id that the daemon of its own revision answered to this operation, and starts only while the provider is still at that revision. |
| Transmission.SessionsStayWithTheirRevision | internal/downloader/transmission/client.go:66-127 | No request carries a session id that another revision's daemon issued. |
| Transmission.AtMostTwoSendings | internal/downloader/transmission/mutation.go:18-59 | A rename reaches the wire at most twice, the second time only after a challenge. |
| Transmission.SessionNeverOlder | internal/downloader/transmission/client.go:112-127 | The revision of the stored session never decreases. |
| TransmissionRuns.RetryCarriesChallenge | internal/downloader/transmission/client.go:66-127 | In every run a request sent again after a refusal, a lookup or a rename, is the same one under the challenge of that refusal. |
| TransmissionRuns.ChallengeIsStored | internal/downloader/transmission/client.go:112-127 | The stored session changes exactly when a retry takes the challenge, and then only if it is still the challenged one or older. |
| TransmissionRuns.RetriedLookupIsConfirmed | internal/downloader/transmission/client.go:66-111 | A lookup is sent again only after the provider was seen to hold the revision it began with. |
| TransmissionRuns.OperationCompletes | internal/downloader/transmission/mutation.go:18-93 | An undisturbed operation looks its torrent up and renames it under the revision it finds, with the stored session if it is of that revision. |
| TransmissionRuns.ChallengedRenameCompletes | internal/downloader/transmission/mutation.go:18-59 | Challenged in the lookup and again in the rename, it repeats both under the challenges, and the last one ends up stored. |
| TransmissionRuns.EndReleases | internal/downloader/transmission/mutation.go:18-93 | An operation can end at any point; it gives up the lock and leaves everything else alone. |
| SonarrXml.ReadItems | internal/format/sonarr_xml.go:99-144 | On every well-nested stream the first pass collects one description per channel item and never takes an element off an empty stack. |
| SonarrXml.ReadTokens | internal/format/sonarr_xml.go:99-144 | The loop itself: one step of the specification per token, with every index in range. |
| SonarrXml.RewriteTitles | internal/format/sonarr_xml.go:12-97 | On every well-nested stream the second pass stays aligned with the first and returns the rewritten stream, or the input if no title changed. |
| SonarrXml.WriteTokens | internal/format/sonarr_xml.go:29-97 | The loop itself: one step of the specification per token, with every index in range. |
| SonarrXmlTree.ReadDocument | internal/format/sonarr_xml.go:99-144 | The first pass yields the descriptions of the tree's channel items in order. |
| SonarrXmlTree.WriteDocument | internal/format/sonarr_xml.go:29-97 | The second pass emits the tokens of the mapped tree. |
| SonarrXmlTree.StreamingRefinesTree | internal/format/sonarr_xml.go:12-144 | On the stream of a document the rewriter is the map over the tree that formats direct titles of channel items with their own description. |
| SonarrXmlTree.TokensAreNested | internal/format/sonarr_xml.go:29-97 | The stream of every tree is well nested. |
| SonarrXmlTree.CleanTitlesAreOwn | internal/format/sonarr_xml.go:64-90 | If no text is gathered before a title of an item, every title is formatted from its own text and the item changes exactly when one of its own titles does. |
| SonarrXmlTree.CleanRewritesOwn | internal/format/sonarr_xml.go:12-144 | On the stream of a document in which no title comes behind one with text the rewriter is the map that takes each title for itself. |
| SonarrXmlTree.OwnTitlesAreClean | internal/format/sonarr_xml.go:64-90 | The converse for an item and a formatter that marks every title, and so changes what is returned. |
| SonarrXmlTree.MarksShowMixing | internal/format/sonarr_xml.go:12-144 | The converse on the output: if a marking formatter's result has each title with its own text, no title comes behind one with text. |
| SonarrXmlTree.OwnTitlesExactlyWhenClean | internal/format/sonarr_xml.go:12-144 | For every document: what the rewriter returns is, for every formatter, the result of taking each title for itself exactly when in no channel item a title comes behind one with text; also when asked only where something changes. |
| SonarrXmlTree.SecondTitleTakesBoth | internal/format/sonarr_xml.go:12-144 | The document returned for a channel with one item of two titles: the second is formatted from both texts. |
| Decimal.ValueOfFormat | internal/sync/title/id.go:14-14 | Reading a written number gives it back. |
| Decimal.NumeralsBeforeSeparator | internal/proxy/server.go:213-215 | A number written before a separator can be told from what follows. |
| TitleIds.IdIsPositional | internal/sync/title/id.go:10-19 | The id is e * 10^digits(s) + s, and exists exactly when e is positive, s is not negative and the value fits in 32 bits. |
| TitleIds.InjectiveInPosition | internal/sync/title/id.go:10-19 | For one external id different positions have different ids. |
| TitleIds.CollisionsAreShifts | internal/sync/title/id.go:10-19 | Two external ids share an id exactly when one continues the other with digits that start the other's position. |
| TitleIds.CollisionExists | internal/sync/title/id.go:10-19 | 1 at position 11 and 11 at position 1 both get 111. |
| TitleIds.MapSonarr | internal/sync/title/sonarr_mapper.go:8-48 | Mapping succeeds exactly when every series is complete, every candidate has an id and no two series share one; there is then one row per candidate, in order. Repeats can only be between different series. |
| TitleIds.MappedIdsAreDistinct | internal/sync/title/sonarr_mapper.go:8-48 | Whenever mapping succeeds all ids are distinct. |
| TitleIds.MappedRowsSay | internal/sync/title/sonarr_mapper.go:8-48 | Which series and which of its titles each position of the mapped rows carries, with title, clean title, season and id. |
| TitleRows.MappableExactly | internal/sync/title/sonarr_mapper.go:8-48 | In terms of the series alone: mapping succeeds exactly when every id, title and slug is there, every e * 10^digits(s) + s fits in 32 bits, and no two series share one. |
| TitleRows.StorableExactly | internal/store/sqlite/repository_transaction.go:98-111 | Mapped rows can all be stored exactly when the own ids of the series and the seasons of the alternates fit in 32 bits; the other fields fit because the row ids do. |
| TitleIds.Transaction.UpsertSonarrTitles | internal/store/sqlite/repository_transaction.go:98-111 | The loop over chunks upserts every row in order, or fails at the first row that is out of range. |
| TitleIds.Transaction.ReplaceSonarrTitles | internal/store/sqlite/repository_transaction.go:123-128 | The table holds the batch alone. |
| TitleIds.Store.Replace | internal/store/sqlite/repository_transaction.go:45-65 | A failed replacement leaves the table as it was. |
| TitleIds.Store.Sync | internal/sync/title/service.go:57-74 | A sync replaces the table with the mapped rows or leaves it as it was, and succeeds exactly when the series can be mapped and stored. |
| TitleIds.NothingIsOverwritten | internal/store/sqlite/repository_transaction.go:98-128 | After a replacement with mapped titles the table holds each mapped row under its id and nothing else. |
| Candidates.SonarrOrder | internal/search/candidate.go:89-109 | The comparator is a total order that tells all row fields apart. |
| Candidates.RadarrOrder | internal/search/candidate.go:111-134 | The comparator is a total order that tells all row fields apart. |
| Candidates.LongerTitlesFirst | internal/search/candidate.go:89-98 | In sorted rows monitored ones come first, and then longer titles. |
| CandidateRows.SonarrRowsInOrder | internal/search/candidate.go:89-109 | What the comparator says of two rows: monitored, longer title, then the fields as texts. |
| CandidateRows.RadarrRowsInOrder | internal/search/candidate.go:111-134 | The same: monitored, number and position, then the fields as texts. |
| Candidates.SonarrCandidates | internal/search/candidate.go:41-58 | Whatever way the rows are sorted, the loop returns the first candidate of each query. |
| Candidates.RadarrCandidates | internal/search/candidate.go:62-79 | The same with the year-qualified query before its base title. |
| Candidates.AppendCandidate | internal/search/candidate.go:81-87 | A candidate is added exactly when its query is new. |
| Candidates.RowOrderIsIrrelevant | internal/search/candidate.go:41-79 | Permuted rows give the same candidates, however an unstable sort arranges them. |
| Candidates.FirstOfEachQuerySpec | internal/search/candidate.go:45-56 | The result keeps the order of what was emitted, takes the first of each query and loses no query. |
| CandidateRows.SonarrCandidatesAre | internal/search/candidate.go:41-58 | The row behind each candidate: it has the query as its trimmed title, no row before it has, and no trimmed title is missing. |
| CandidateRows.RadarrCandidatesAre | internal/search/candidate.go:60-79 | The same, where a row also answers its title with its year, before the title, unless it ends in the year. |
| Expansion.UniqueNonEmpty | internal/proxy/format.go:18-30 | The loop keeps the first of each trimmed, non-empty string. |
| Expansion.TrimSpaceIsSound | internal/proxy/format.go:22-22 | Trimming white space meets the condition under which the results on expanded lists hold. |
| Expansion.ExactCandidate | internal/proxy/search_expansion.go:61-68 | The first candidate with the query. |
| Expansion.FirstExactIs | internal/proxy/search_expansion.go:61-68 | An exact candidate is one of the candidates and answers the query in a fitting year; there is none exactly when no candidate does. |
| Expansion.RadarrAnchorIs | internal/proxy/search_expansion.go:70-86 | The anchor by positions alone: the first pair of a query and a candidate with it in a fitting year, else the first candidate that agrees without years, else none. |
| Expansion.SonarrAnchorIs | internal/proxy/search_expansion.go:61-68 | The first candidate of the query, and none exactly when there is none. |
| Expansion.RadarrAnchor | internal/proxy/search_expansion.go:70-86 | The first exact candidate of the first query that has one in a fitting year; failing that the first that agrees without years. |
| Expansion.SonarrSearchTitles | internal/proxy/search_expansion.go:19-38 | The expanded list of the specification, with its season filter. |
| Expansion.RadarrSearchTitles | internal/proxy/search_expansion.go:40-59 | The expanded list of the specification, with its year filter. |
| Expansion.ExpansionExtends | internal/proxy/search_expansion.go:11-59 | The expanded list has no duplicate and begins with the plain search titles. |
| Expansion.ExpandedMembers | internal/proxy/search_expansion.go:19-59 | A title is in the expanded list exactly when it is searched for anyway or is the query of a candidate related to the anchor. |
| Expansion.SonarrMembers | internal/proxy/search_expansion.go:27-38 | The season filter: candidates of the anchor's main title count with its season and with season -1, and all if it has none. |
| Expansion.RadarrMembers | internal/proxy/search_expansion.go:48-59 | The year filter: candidates of the anchor's main title count with its year and with none, and all if it has none. |
| Expansion.NothingToExpand | internal/proxy/search_expansion.go:19-59 | Without candidates, anchor or main title nothing is added. |
| Expansion.BasicTitlesAre | internal/proxy/search_expansion.go:11-17 | What is searched without expansion: the key without its episode, or the key and then the key without its year. |
| Expansion.ExpandedKeepsOrder | internal/proxy/search_expansion.go:19-59 | Behind the plain titles the related queries come in the order of the candidates, each where it first comes up. |
| Expansion.ExpansionIgnoresRowOrder | internal/proxy/search_expansion.go:11-38 | The expanded Sonarr list does not depend on the order of the database rows or on how they were sorted. |
| Expansion.RadarrExpansionIgnoresRowOrder | internal/proxy/search_expansion.go:11-59 | The same for Radarr. |
| Rules.RulesByToken | internal/format/radarr.go:171-185 | Every token with an enabled rule gets its rules, stably sorted by priority. |
| Rules.ChosenRuleIsLeast | internal/format/radarr.go:129-138 | The first match in a sorted group is the enabled matching rule of least priority and, among equals, earliest declaration; there is none exactly when no enabled rule matches. |
| Rules.BestIsLeast | internal/format/radarr.go:171-185 | The rule that the specification selects has least priority and then least position among the eligible ones. |
| Rules.FormatTokens | internal/format/sonarr.go:29-45 | Every token takes the value of its least matching rule; the text itself is returned if the episode stays open, and otherwise what is left without its tokens, trimmed. |
| RuleTexts.TokensAre | internal/format/sonarr.go:32-32 | The tokens of a template from left to right: each goes on to the next closing brace. |
| RuleTexts.ReplacingIs | internal/format/radarr.go:65-67 | The first occurrence of a token gives way to the value, and the same happens to the text behind it. |
| RuleTexts.OneTokenFilled | internal/format/sonarr.go:29-41 | A template of one token becomes the replacement of the least matching rule, with its number shifted, in place of the token. |
| Rules.RemovalIsComplete | internal/format/radarr.go:69-69 | Removal leaves no token, is idempotent, and changes a text exactly when it has a token. |
| Rules.RemovalCutsTokens | internal/format/radarr.go:69-69 | Exactly the tokens go; the text around them stays. |
| MediaNames.MatchFrom | internal/tasks/rename/plan.go:15-15 | The leftmost position from which the pattern matches to the end. |
| MediaNames.MediaIsValid | internal/tasks/rename/plan.go:15-16 | The source's extensions are words, and none is both video and subtitle. |
| MediaNames.VideoExtensionIs | internal/tasks/rename/plan.go:15-15 | Behind any text a video extension is recognised as it was written. |
| MediaNames.SubtitleExtensionIs | internal/tasks/rename/plan.go:15-15 | A subtitle extension with its language part is recognised as it was written when a number stands before it. |
| MediaPatterns.MatchesExactly | internal/tasks/rename/plan.go:15-15 | The pattern spelled out: a dot and an extension in any case, or a dot, a tag of two to five letters, hyphens and underscores, a dot and a subtitle extension. |
| MediaPatterns.EndsInSubtitleExactly | internal/tasks/rename/plan.go:16-16 | The second pattern likewise. |
| Paths.JoinIsValid | internal/tasks/rename/plan.go:110-120 | Joining proper segments gives a valid path that splits into them again. |
| Paths.ValidSplits | internal/tasks/rename/plan.go:110-120 | A valid path splits into proper segments that join to it again. |
| Paths.ValidExactly | internal/tasks/rename/plan.go:110-120 | A path is valid exactly when it is made of allowed segments, without dot segments, slashes, backslashes and control characters, with slashes between them. |
| FilePlans.PlanFiles | internal/tasks/rename/plan.go:37-71 | The loops return the outcome of the specification for any way of naming files. |
| FilePlans.JoinNewPath | internal/tasks/rename/plan.go:53-63 | The new path is the title, the middle directories and the name, joined. |
| FilePlans.PlanIs | internal/tasks/rename/plan.go:37-71 | With a naming that keeps names good, planning never fails on valid input: no plan if a file lies in place, else one rename per file in order. |
| FilePlans.ReplanningIsIdle | internal/tasks/rename/plan.go:37-71 | With a stable naming, planning on the new paths gives no plan or keeps every path. |
| RenamePlan.PlanRadarrFiles | internal/tasks/rename/plan.go:25-29 | Planning with the Radarr naming. |
| RenamePlan.RadarrPlanIs | internal/tasks/rename/plan.go:37-84 | On a valid title and valid paths a Radarr plan never fails, keeps length, order and middle directories, and its paths are valid. |
| RenamePlan.SubtitlesAreNumbered | internal/tasks/rename/plan.go:73-84 | Subtitles are numbered from 1 in the order of the files, without gaps. |
| RenamePlan.StemIs | internal/tasks/rename/plan.go:102-108 | What stands before the extension: the title, and once more its part from the first bracket behind a space on. |
| RenamePlan.PathsMeetExactly | internal/tasks/rename/plan.go:37-84 | In every plan returned: exactly when two files get the same new path; subtitles never do. |
| RenamePlan.VideosMeet | internal/tasks/rename/plan.go:37-84 | The plan for two videos of one extension in one directory: both get one new path, whatever they are called; there is none exactly when the directory is named like the title. |
| RenamePlan.TwoVideosOnePath | internal/tasks/rename/plan.go:37-84 | For every title but d the plan gives d/a.mkv and d/b.mkv one new path. |
| RenamePlan.RadarrReplanningIsIdle | internal/tasks/rename/plan.go:37-84 | Planning again on the new paths gives no plan or one that changes nothing. |
| Schedule.NextMatching | internal/tasks/schedule.go:99-109 | In any zone the loop ends with the least matching whole second after the instant, or beyond the search limit if there is none. |
| Schedule.Next | internal/tasks/schedule.go:77-97 | The same for the four kinds of schedule. |
| Schedule.OccurrencesArePeriodic | internal/tasks/schedule.go:58-97 | In a zone of fixed offset the occurrences are one remainder class modulo the period, because the intervals divide 60. |
| Schedule.NextWithinPeriod | internal/tasks/schedule.go:77-109 | The next occurrence matches and lies within one period, so the limit of 72 hours is never reached. |
| Schedule.NextAdvancesOnePeriod | internal/tasks/schedule.go:77-109 | Asking again from an occurrence advances exactly one period. |
| Endpoint.NormalizingTwice | internal/transmissionconfig/transmissionconfig.go:89-103 | Every path is normalised to one that ends in /transmission/rpc and is its own normal form. |
| Endpoint.NormalizingKeepsSafe | internal/transmissionconfig/transmissionconfig.go:65-103 | The normal form of a safe path is safe. |
| Endpoint.NormalFormOfKnown | internal/transmissionconfig/transmissionconfig.go:89-103 | A path that goes on with the web or the rpc path goes on with the rpc path in its normal form, without a slash at the end. |
| Endpoint.NormalFormOfOther | internal/transmissionconfig/transmissionconfig.go:89-103 | Any other path is followed by the rpc path. |
| Endpoint.SafeExactly | internal/transmissionconfig/transmissionconfig.go:65-87 | Which paths are safe: printed as they were read, without backslash, double slash or dot segment, and with a segment that ends in /transmission only before a final web or rpc. |
| EndpointUrl.EscapeRoundTrip | internal/transmissionconfig/transmissionconfig.go:26-30 | A printed path is read back as it was. |
| EndpointUrl.AcceptedIsEscaped | internal/transmissionconfig/transmissionconfig.go:34-46 | Accepted text is the escaped form of a safe path with at most an empty fragment behind it, so it holds no control character, backslash or query. |
| EndpointUrl.AcceptedExactly | internal/transmissionconfig/transmissionconfig.go:34-46 | Exactly the texts within the length limit are accepted that have an accepted origin and are the escaped form of a safe path, with at most an empty fragment behind it. |
| EndpointUrl.StoredEndpointIsStable | internal/transmissionconfig/transmissionconfig.go:34-103 | The normal form of an accepted endpoint ends in the rpc path, is at most that much longer than what was entered, and is parsed to itself again exactly when it is within the length limit. |
| EndpointUrl.LongestNormalFormIsRefused | internal/store/sqlite/sqlite.go:162-165 | The longest value allowed is accepted, and its normal form is refused when it is parsed again, as an update does before it commits. |

## Left out

- HTTP, JSON, SQL and file access: only their outcomes are inputs of the models.
- RadarrXML and the Radarr title match: the token loop around them has no item state; the rule choice they share is in `Rules`.
- MapRadarr: assigns ids by the loop of MapSonarr to four fixed candidates and the alternate titles; its path title needs a regular expression.
- PlanSonarrFiles: the naming depends on formatting by regular expressions; `FilePlans` covers the loop for any naming that keeps names good and stable.
- CleanTitle, the adjacent-word comparison and the number offsets of rules: library regular expressions, parameters of the models.
- `path.Clean` in the path check: every relative path it would change has an improper segment, which the check rejects as well.
- Encoding of tokens and namespaces: the rewriter starts and ends with tokens.
- Which of several cookies a login keeps: any non-empty one.
- Sharing of the cached offset slice between two requests at the same time: paging is modelled for one client after the other.
- An offset vector evicted between two pages: the next page is then one that finds no vector (`PagingKeys.FreshKeyAsksLastTitle`).
- An indexer that returns an empty body.
- A `Wait` while `Start` is adding the loops one by one: `Start` is one step.
- The splitting of an endpoint URL into scheme, host and path, and the tests on scheme, host and user: the library's, a parameter of `EndpointUrl`; the host counts as printed the way it was read.
- Daylight saving: minimality holds for any zone, the period only for a fixed offset.
- Wrap-around of 64-bit revisions, generations and attempt ids.
- A sync that panics or never returns: its marker stays in flight, as no caller finishes it.
- InvalidateAll and the deletion of all markers after a configuration change: the cases of `Registry` for every name.
- The order of log lines and the texts of errors.
- Creation and update times of table rows.
