/** Runs of pages over the offset cache (internal/proxy/server.go): paging is exact for every
    indexer exactly when all pages have the same offset key. */
module PagingRuns {
  import opened Options
  import opened Text
  import opened Feed
  import opened Paging
  import opened PagingProofs
  import opened CacheKeys

  /** The cached offset vectors by key. */
  type Vectors = map<string, seq<int>>

  /** A page of some size, requested under an offset key. */
  datatype Ask = Ask(key: string, limit: int)

  /** What a page leaves, given the vector it found, its position and its size. */
  type Service = (Option<seq<int>>, nat, int) -> Outcome

  function ServiceOf(ops: FeedOps, indexer: Indexer, minCount: int, titles: nat): Service
    requires titles > 0
  {
    (entry, offset, limit) => PageOf(ops, indexer(limit), minCount, titles, entry, offset, limit)
  }

  // ----- Runs -----

  /** Every page succeeds and shows exactly the slice asked for at the client's position,
      which moves on by the items received. */
  ghost predicate RunExact(all: seq<string>, read: string -> seq<string>, page: Service, cache: Vectors, n: nat,
                           asks: seq<Ask>)
    decreases |asks|
  {
    asks == [] ||
    (var o := page(Lookup(cache, asks[0].key), n, asks[0].limit);
     var got := Slice(all, n, asks[0].limit);
     o.ok && read(o.merged) == got && RunExact(all, read, page, Stored(cache, asks[0].key, o), n + |got|, asks[1..]))
  }

  /** The pages a client gets that counts the items it has read. */
  function Pages(read: string -> seq<string>, page: Service, cache: Vectors, n: nat, asks: seq<Ask>): seq<string>
    decreases |asks|
  {
    if asks == [] then []
    else
      var o := page(Lookup(cache, asks[0].key), n, asks[0].limit);
      [o.merged] + Pages(read, page, Stored(cache, asks[0].key, o), n + |read(o.merged)|, asks[1..])
  }

  /** The items a client reads off a sequence of pages. */
  function ItemsOn(read: string -> seq<string>, pages: seq<string>): seq<string> {
    if pages == [] then [] else read(pages[0]) + ItemsOn(read, pages[1..])
  }

  /** The pages of an exact run join up to the items from its start on, without gap or repeat. */
  lemma {:induction false} ExactRunJoins(all: seq<string>, read: string -> seq<string>, page: Service,
                                         cache: Vectors, n: nat, asks: seq<Ask>)
    returns (upTo: nat)
    requires RunExact(all, read, page, cache, n, asks) && n <= |all|
    ensures n <= upTo <= |all| && ItemsOn(read, Pages(read, page, cache, n, asks)) == all[n..upTo]
    decreases |asks|
  {
    upTo := n;
    if asks != [] {
      var o := page(Lookup(cache, asks[0].key), n, asks[0].limit);
      var got := Slice(all, n, asks[0].limit);
      upTo := ExactRunJoins(all, read, page, Stored(cache, asks[0].key, o), n + |got|, asks[1..]);
      FirstPage(read, page, cache, n, asks);
      SliceJoins(all, n, asks[0].limit, upTo);
    }
  }

  lemma FirstPage(read: string -> seq<string>, page: Service, cache: Vectors, n: nat, asks: seq<Ask>)
    requires asks != []
    ensures var o := page(Lookup(cache, asks[0].key), n, asks[0].limit);
      ItemsOn(read, Pages(read, page, cache, n, asks))
      == read(o.merged) + ItemsOn(read, Pages(read, page, Stored(cache, asks[0].key, o), n + |read(o.merged)|,
                                              asks[1..]))
  {
    var o := page(Lookup(cache, asks[0].key), n, asks[0].limit);
    var rest := Pages(read, page, Stored(cache, asks[0].key, o), n + |read(o.merged)|, asks[1..]);
    assert ([o.merged] + rest)[1..] == rest;
  }

  lemma SliceJoins(items: seq<string>, n: nat, limit: int, upTo: nat)
    requires n <= |items| && n + |Slice(items, n, limit)| <= upTo <= |items|
    ensures Slice(items, n, limit) + items[n + |Slice(items, n, limit)|..upTo] == items[n..upTo]
  {
    var k := n + |Slice(items, n, limit)|;
    assert Slice(items, n, limit) == items[n..k];
  }

  // ----- Pages under one key -----

  /** Whether a vector is in step with a client that has received so many items. */
  type InStep = (Option<seq<int>>, nat) -> bool

  ghost function InStepWith(l: Lists): InStep {
    (entry: Option<seq<int>>, n: nat) => Tracks(l, Start(entry, |l.plain|), n)
  }

  /** The page shows the slice asked for, and the vector it leaves is in step with a client
      that has received it. */
  ghost predicate Served(all: seq<string>, inStep: InStep, read: string -> seq<string>, o: Outcome,
                         entry: Option<seq<int>>, n: nat, limit: int) {
    var got := Slice(all, n, limit);
    o.ok && read(o.merged) == got && inStep(Kept(entry, o), n + |got|)
  }

  /** The service hands a client in step the slice asked for and stays in step with it. */
  ghost predicate ServesSlice(all: seq<string>, inStep: InStep, read: string -> seq<string>, page: Service,
                              entry: Option<seq<int>>, n: nat, limit: int) {
    n <= |all| && inStep(entry, n) ==> Served(all, inStep, read, page(entry, n, limit), entry, n, limit)
  }

  ghost predicate Serves(all: seq<string>, inStep: InStep, read: string -> seq<string>, page: Service) {
    forall entry, n, limit :: ServesSlice(all, inStep, read, page, entry, n, limit)
  }

  ghost predicate KeysAgree(asks: seq<Ask>) {
    forall i, j | 0 <= i < |asks| && 0 <= j < |asks| :: asks[i].key == asks[j].key
  }

  /** One page of a client in step: what `ServesSlice` says of it. */
  lemma PageServed(all: seq<string>, inStep: InStep, read: string -> seq<string>, page: Service, cache: Vectors,
                   n: nat, a: Ask)
    returns (o: Outcome, next: Vectors)
    requires Serves(all, inStep, read, page) && n <= |all| && inStep(Lookup(cache, a.key), n)
    ensures o == page(Lookup(cache, a.key), n, a.limit) && next == Stored(cache, a.key, o)
    ensures o.ok && read(o.merged) == Slice(all, n, a.limit) && n + |Slice(all, n, a.limit)| <= |all|
    ensures inStep(Lookup(next, a.key), n + |Slice(all, n, a.limit)|)
  {
    o := page(Lookup(cache, a.key), n, a.limit);
    next := Stored(cache, a.key, o);
    assert ServesSlice(all, inStep, read, page, Lookup(cache, a.key), n, a.limit);
    assert Kept(Lookup(cache, a.key), o) == Lookup(next, a.key);
  }

  /** Pages of any sizes under one key are exact, for a client in step at the start. */
  lemma {:induction false} AgreeingRunExact(all: seq<string>, inStep: InStep, read: string -> seq<string>,
                                            page: Service, cache: Vectors, n: nat, asks: seq<Ask>)
    requires Serves(all, inStep, read, page) && KeysAgree(asks) && n <= |all|
    requires asks != [] ==> inStep(Lookup(cache, asks[0].key), n)
    ensures RunExact(all, read, page, cache, n, asks)
    decreases |asks|
  {
    if asks != [] {
      var o, next := PageServed(all, inStep, read, page, cache, n, asks[0]);
      if |asks| > 1 {
        assert asks[1].key == asks[0].key;
      }
      AgreeingRunExact(all, inStep, read, page, next, n + |Slice(all, n, asks[0].limit)|, asks[1..]);
    }
  }

  // ----- Indexers -----

  /** Item lists and an indexer that answers from them: to queries that carry `limit` it
      returns up to `cap(limit)` items, `limit` at least. */
  datatype World = World(lists: Lists, indexer: Indexer, answers: int -> (Request -> Feed), cap: int -> nat)

  ghost predicate HonestFor(m: Markup, w: World, limit: int) {
    limit <= w.cap(limit) && Honours(m, w.indexer(limit), w.answers(limit), w.lists, w.cap(limit))
  }

  ghost predicate Honest(m: Markup, w: World) {
    |w.lists.plain| > 0 && forall limit :: HonestFor(m, w, limit)
  }

  function AllItems(w: World): seq<string> {
    Joined(w.lists, |w.lists.plain|)
  }

  function SearchOf(m: Markup, w: World): Service
    requires m.itemOpen != "" && |w.lists.plain| > 0
  {
    ServiceOf(OpsOf(m), w.indexer, w.lists.minCount, |w.lists.plain|)
  }

  lemma PageServes(m: Markup, ops: FeedOps, l: Lists, up: Upstream, answer: Request -> Feed, cap: nat,
                   entry: Option<seq<int>>, n: nat, limit: int)
    requires m.Distinct() && RefinesLists(ops, m) && Honours(m, up, answer, l, cap) && |l.plain| > 0
    requires limit <= cap && n <= |Joined(l, |l.plain|)| && InStepWith(l)(entry, n)
    ensures Served(Joined(l, |l.plain|), InStepWith(l), Reading(m),
                   PageOf(ops, up, l.minCount, |l.plain|, entry, n, limit), entry, n, limit)
  {
    var page := PageIsSlice(m, ops, l, up, answer, cap, entry, n, limit, "");
    var o := PageOf(ops, up, l.minCount, |l.plain|, entry, n, limit);
    ReadsPage(m, l, o, entry, n, limit, page, Joined(l, |l.plain|));
  }

  lemma ReadsPage(m: Markup, l: Lists, o: Outcome, entry: Option<seq<int>>, n: nat, limit: int, page: Option<Feed>,
                  all: seq<string>)
    requires m.Distinct() && PageIs(m, l, o, entry, n, page, Slice(all, n, limit))
    ensures Served(all, InStepWith(l), Reading(m), o, entry, n, limit)
  {
    ReadsBodies(m, o.merged, page);
  }

  lemma SearchServesSlice(m: Markup, w: World, entry: Option<seq<int>>, n: nat, limit: int)
    requires m.Distinct() && |w.lists.plain| > 0 && HonestFor(m, w, limit) && RefinesLists(OpsOf(m), m)
    ensures ServesSlice(AllItems(w), InStepWith(w.lists), Reading(m), SearchOf(m, w), entry, n, limit)
  {
    if n <= |AllItems(w)| && InStepWith(w.lists)(entry, n) {
      PageServes(m, OpsOf(m), w.lists, w.indexer(limit), w.answers(limit), w.cap(limit), entry, n, limit);
    }
  }

  /** The expanded search serves every client in step, whatever the page size. */
  lemma SearchServes(m: Markup, w: World)
    requires m.Distinct() && Honest(m, w)
    ensures Serves(AllItems(w), InStepWith(w.lists), Reading(m), SearchOf(m, w))
  {
    SurgeryRefinesLists(m);
    forall entry: Option<seq<int>>, n: nat, limit: int
      ensures ServesSlice(AllItems(w), InStepWith(w.lists), Reading(m), SearchOf(m, w), entry, n, limit)
    {
      assert HonestFor(m, w, limit);
      SearchServesSlice(m, w, entry, n, limit);
    }
  }

  lemma StartsInStep(l: Lists, entry: Option<seq<int>>)
    ensures InStepWith(l)(entry, 0)
  {
    assert |Start(entry, |l.plain|)| == |l.plain|;
  }

  /** Pages of one key from offset 0 on, with any leftover vectors in the cache, are exact. */
  ghost predicate ExactIn(m: Markup, w: World, leftover: Vectors, asks: seq<Ask>)
    requires m.itemOpen != "" && |w.lists.plain| > 0
  {
    RunExact(AllItems(w), Reading(m), SearchOf(m, w), leftover, 0, asks)
  }

  lemma PagingExact(m: Markup, w: World, leftover: Vectors, asks: seq<Ask>)
    requires m.Distinct() && Honest(m, w) && KeysAgree(asks)
    ensures ExactIn(m, w, leftover, asks)
  {
    SearchServes(m, w);
    if asks != [] {
      StartsInStep(w.lists, Lookup(leftover, asks[0].key));
    }
    AgreeingRunExact(AllItems(w), InStepWith(w.lists), Reading(m), SearchOf(m, w), leftover, 0, asks);
  }

  /** So they join up to a prefix of the concatenated lists. */
  lemma PagesFormPrefix(m: Markup, w: World, leftover: Vectors, asks: seq<Ask>)
    requires m.Distinct() && Honest(m, w) && KeysAgree(asks)
    ensures ItemsOn(Reading(m), Pages(Reading(m), SearchOf(m, w), leftover, 0, asks)) <= AllItems(w)
  {
    PagingExact(m, w, leftover, asks);
    var upTo := ExactRunJoins(AllItems(w), Reading(m), SearchOf(m, w), leftover, 0, asks);
  }
}
