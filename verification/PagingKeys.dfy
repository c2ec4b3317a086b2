/** Runs whose pages do not share one offset key: what a page without a vector shows, and
    that pages agreeing in their keys are the only ones that every indexer serves exactly
    (internal/proxy/server.go, executeExpandedSearch and makeOffsetKey). */
module PagingKeys {
  import opened Options
  import opened Text
  import opened Feed
  import opened Paging
  import opened PagingProofs
  import opened PagingRuns
  import opened CacheKeys
  import opened Decimal

  // ----- A page that finds no vector -----

  /** The list a page behind the first asks when it finds no vector: the last title's. */
  function LastList(l: Lists): seq<string>
    requires |l.plain| > 0
  {
    ListOf(l, |l.plain| - 1, |l.plain| > 2 && l.minCount > 0)
  }

  lemma FreshRequest(minCount: int, titles: nat, n: nat)
    requires titles > 0 && n > 0
    ensures Start(None, titles)[..] == seq(titles, _ => 0) && CurrentIndex(n, Start(None, titles)) == titles - 1
    ensures RequestFor(minCount, titles - 1, Start(None, titles), n)
         == Request(titles - 1, titles > 2 && minCount > 0, n)
  {
  }

  lemma TakenSlice(list: seq<string>, n: nat, limit: int, cap: nat)
    requires 0 < limit <= cap
    ensures var page := Slice(list, n, cap);
      page[..if |page| <= limit then |page| else limit] == Slice(list, n, limit)
  {
  }

  /** The client's position is counted from the start of the last title, whatever the titles
      before it hold. */
  lemma FreshPage(m: Markup, ops: FeedOps, l: Lists, up: Upstream, answer: Request -> Feed, cap: nat, n: nat,
                  limit: int)
    requires m.Distinct() && RefinesLists(ops, m) && Honours(m, up, answer, l, cap) && |l.plain| > 0
    requires 0 < limit <= cap && n > 0
    ensures var o := PageOf(ops, up, l.minCount, |l.plain|, None, n, limit);
      o.ok && Reading(m)(o.merged) == Slice(LastList(l), n, limit)
  {
    var titles := |l.plain|;
    var start := Start(None, titles);
    FreshRequest(l.minCount, titles, n);
    var r := RequestFor(l.minCount, titles - 1, start, n);
    assert AnswersSlice(m, up, answer, l, cap, r);
    assert TakeRefines(ops, m, answer(r), limit);
    var kept :| TakeYields(ops, m, answer(r), limit, kept);
    var k := |kept.items|;
    SearchUnfolds(ops, up, l.minCount, start, titles - 1, n, limit, "", false, answer(r).Render(m), k, kept.Render(m));
    var joined, next := PageGrows(m, ops, "", None, kept);
    SearchEnds(ops, up, l.minCount, start[titles - 1 := n + k], titles, n + k, limit - k, joined, true);
    ReadsBodies(m, joined, next);
    TakenSlice(LastList(l), n, limit, cap);
  }

  /** Behind the first page a request whose key has no vector shows the items at its position
      in the last title's list alone; it is the page asked for exactly when these agree. */
  lemma FreshKeyAsksLastTitle(m: Markup, w: World, cache: Vectors, n: nat, a: Ask)
    requires m.Distinct() && Honest(m, w) && n > 0 && a.limit > 0 && a.key !in cache
    ensures var o := SearchOf(m, w)(Lookup(cache, a.key), n, a.limit);
      && o.ok && Reading(m)(o.merged) == Slice(LastList(w.lists), n, a.limit)
      && (RunExact(AllItems(w), Reading(m), SearchOf(m, w), cache, n, [a])
          <==> Slice(LastList(w.lists), n, a.limit) == Slice(AllItems(w), n, a.limit))
  {
    SurgeryRefinesLists(m);
    assert HonestFor(m, w, a.limit);
    FreshPage(m, OpsOf(m), w.lists, w.indexer(a.limit), w.answers(a.limit), w.cap(a.limit), n, a.limit);
    var o := SearchOf(m, w)(Lookup(cache, a.key), n, a.limit);
    assert RunExact(AllItems(w), Reading(m), SearchOf(m, w), Stored(cache, a.key, o),
                    n + |Slice(AllItems(w), n, a.limit)|, [a][1..]);
  }

  // ----- An indexer for any lists -----

  function Bare(bodies: seq<string>): (items: seq<Item>)
    ensures |items| == |bodies|
  {
    seq(|bodies|, i requires 0 <= i < |bodies| => Item("", bodies[i]))
  }

  lemma {:induction false} BareBodies(bodies: seq<string>)
    ensures BodiesOf(Bare(bodies)) == bodies
  {
    if bodies != [] {
      assert Bare(bodies)[1..] == Bare(bodies[1..]);
      BareBodies(bodies[1..]);
    }
  }

  ghost predicate CleanBodies(m: Markup, bodies: seq<string>) {
    forall b | b in bodies :: CleanItem(m, Item("", b))
  }

  ghost predicate CleanLists(m: Markup, l: Lists) {
    CleanBodies(m, l.wide) && forall i | 0 <= i < |l.plain| :: CleanBodies(m, l.plain[i])
  }

  lemma OtherTag(tag: string, other: string, j: nat)
    requires IsTag(tag) && IsTag(other) && 0 < j < |tag| && j < |other| && tag[j] != other[j]
    ensures Lacks(tag, other)
  {
    forall i ensures !MatchAt(tag, other, i) {
      assert MatchAt(tag, other, i) ==> Same(tag, other, i, 0);
      assert MatchAt(tag, other, i) ==> Same(tag, other, i, j);
    }
  }

  lemma ContainsItself(s: string)
    ensures Contains(s, s)
  {
    forall k | 0 <= k < |s| ensures Same(s, s, 0, k) {
    }
    assert MatchAt(s, s, 0);
  }

  lemma BareFeedIsWf(m: Markup, bodies: seq<string>)
    requires m.Distinct() && CleanBodies(m, bodies)
    ensures var f := Feed(Bare(bodies), m.channelClose); f.Wf(m) && f.GapsClosed() && f.Bodies() == bodies
  {
    BareBodies(bodies);
    OtherTag(m.channelClose, m.itemOpen, 1);
    OtherTag(m.channelClose, m.itemClose, 2);
    ContainsItself(m.channelClose);
    forall it | it in Bare(bodies) ensures CleanItem(m, it) {
      assert it.body in bodies;
    }
  }

  function Capped(limit: int): nat {
    if limit > 0 then limit else 0
  }

  function AnswerOf(m: Markup, l: Lists, cap: nat, r: Request): Feed {
    var asked := r.index < |l.plain| && r.offset >= 0;
    Feed(if asked then Bare(Slice(ListOf(l, r.index, r.widened), r.offset, cap)) else [], m.channelClose)
  }

  /** The indexer that gives each query as many items as it asks for. */
  function WorldOf(m: Markup, l: Lists): World {
    World(l, limit => r => Some(AnswerOf(m, l, Capped(limit), r).Render(m)),
          limit => r => AnswerOf(m, l, Capped(limit), r), Capped)
  }

  lemma SliceIsClean(m: Markup, list: seq<string>, offset: nat, cap: nat)
    requires CleanBodies(m, list)
    ensures CleanBodies(m, Slice(list, offset, cap))
  {
    forall b | b in Slice(list, offset, cap) ensures CleanItem(m, Item("", b)) {
      assert b in list;
    }
  }

  /** Any lists of items without tags have an indexer that honours every query. */
  lemma WorldIsHonest(m: Markup, l: Lists)
    requires m.Distinct() && CleanLists(m, l) && |l.plain| > 0
    ensures Honest(m, WorldOf(m, l))
  {
    var w := WorldOf(m, l);
    forall limit ensures HonestFor(m, w, limit) {
      forall r ensures AnswersSlice(m, w.indexer(limit), w.answers(limit), l, w.cap(limit), r) {
        if r.index < |l.plain| && r.offset >= 0 {
          SliceIsClean(m, ListOf(l, r.index, r.widened), r.offset, Capped(limit));
          BareFeedIsWf(m, Slice(ListOf(l, r.index, r.widened), r.offset, Capped(limit)));
        }
      }
    }
  }

  // ----- Pages that ask for nothing -----

  /** The pages that ask for at least one item. */
  function Sized(asks: seq<Ask>): seq<Ask> {
    if asks == [] then []
    else if asks[0].limit > 0 then [asks[0]] + Sized(asks[1..])
    else Sized(asks[1..])
  }

  lemma {:induction false} SizedAre(asks: seq<Ask>)
    ensures forall a :: a in Sized(asks) <==> a in asks && a.limit > 0
  {
    if asks != [] {
      SizedAre(asks[1..]);
    }
  }

  /** The service shows nothing and stores nothing for a page of no items. */
  ghost predicate IdlesOnNothing(read: string -> seq<string>, page: Service) {
    forall entry, n: nat, limit: int | limit <= 0 :: Idles(read, page(entry, n, limit))
  }

  ghost predicate Idles(read: string -> seq<string>, o: Outcome) {
    o.ok && !o.cached && read(o.merged) == []
  }

  lemma SearchIdles(m: Markup, w: World)
    requires m.Distinct() && |w.lists.plain| > 0
    ensures IdlesOnNothing(Reading(m), SearchOf(m, w))
  {
    ReadsBodies(m, "", None);
    forall entry, n: nat, limit: int | limit <= 0 ensures Idles(Reading(m), SearchOf(m, w)(entry, n, limit)) {
      var titles := |w.lists.plain|;
      var start := Start(entry, titles);
      SearchEnds(OpsOf(m), w.indexer(limit), w.lists.minCount, start, CurrentIndex(n, start), n, limit, "", false);
    }
  }

  /** Such pages change nothing about a run. */
  lemma {:induction false} OnlySizedPagesMatter(all: seq<string>, read: string -> seq<string>, page: Service,
                                                cache: Vectors, n: nat, asks: seq<Ask>)
    requires IdlesOnNothing(read, page)
    ensures RunExact(all, read, page, cache, n, asks) <==> RunExact(all, read, page, cache, n, Sized(asks))
    decreases |asks|
  {
    if asks != [] && asks[0].limit > 0 {
      var o := page(Lookup(cache, asks[0].key), n, asks[0].limit);
      OnlySizedPagesMatter(all, read, page, Stored(cache, asks[0].key, o), n + |Slice(all, n, asks[0].limit)|,
                           asks[1..]);
      SizedFirst(asks);
      SameTail(all, read, page, cache, n, asks, Sized(asks));
    } else if asks != [] {
      OnlySizedPagesMatter(all, read, page, cache, n, asks[1..]);
      IdlePage(all, read, page, cache, n, asks);
    }
  }

  lemma SameTail(all: seq<string>, read: string -> seq<string>, page: Service, cache: Vectors, n: nat, asks: seq<Ask>,
                 others: seq<Ask>)
    requires asks != [] && others != [] && asks[0] == others[0]
    requires var o := page(Lookup(cache, asks[0].key), n, asks[0].limit);
      var next := n + |Slice(all, n, asks[0].limit)|;
      RunExact(all, read, page, Stored(cache, asks[0].key, o), next, asks[1..])
      <==> RunExact(all, read, page, Stored(cache, asks[0].key, o), next, others[1..])
    ensures RunExact(all, read, page, cache, n, asks) <==> RunExact(all, read, page, cache, n, others)
  {
  }

  lemma SizedFirst(asks: seq<Ask>)
    requires asks != [] && asks[0].limit > 0
    ensures Sized(asks) != [] && Sized(asks)[0] == asks[0] && Sized(asks)[1..] == Sized(asks[1..])
  {
  }

  lemma IdlePage(all: seq<string>, read: string -> seq<string>, page: Service, cache: Vectors, n: nat, asks: seq<Ask>)
    requires IdlesOnNothing(read, page) && asks != [] && asks[0].limit <= 0
    ensures RunExact(all, read, page, cache, n, asks) <==> RunExact(all, read, page, cache, n, asks[1..])
  {
    assert Idles(read, page(Lookup(cache, asks[0].key), n, asks[0].limit));
  }

  // ----- The first page under another key -----

  /** The items that the pages before the first one of another key ask for. */
  function Leading(key: string, asks: seq<Ask>): nat {
    if asks == [] || asks[0].key != key || asks[0].limit <= 0 then 0 else asks[0].limit + Leading(key, asks[1..])
  }

  ghost predicate EmptyWhenFresh(read: string -> seq<string>, page: Service) {
    forall n: nat, limit: int | n > 0 && limit > 0 :: ShowsNothing(read, page(None, n, limit))
  }

  ghost predicate ShowsNothing(read: string -> seq<string>, o: Outcome) {
    read(o.merged) == []
  }

  ghost predicate AllUnder(key: string, asks: seq<Ask>) {
    forall i | 0 <= i < |asks| :: asks[i].key == key
  }

  /** If pages without a vector come out empty, a run fails at its first page of another key
      while items are left. */
  lemma {:induction false} OtherKeyFails(all: seq<string>, read: string -> seq<string>, page: Service,
                                         cache: Vectors, n: nat, key: string, asks: seq<Ask>)
    requires EmptyWhenFresh(read, page) && !AllUnder(key, asks) && cache.Keys <= {key}
    requires (forall a | a in asks :: a.limit > 0) && (n > 0 || asks[0].key == key)
    requires n + Leading(key, asks) < |all|
    ensures !RunExact(all, read, page, cache, n, asks)
    decreases |asks|
  {
    assert asks[0] in asks;
    if asks[0].key != key {
      FreshPageFails(all, read, page, cache, n, asks);
    } else {
      var o := page(Lookup(cache, asks[0].key), n, asks[0].limit);
      StillUnderKey(all, n, key, asks);
      OtherKeyFails(all, read, page, Stored(cache, key, o), n + |Slice(all, n, asks[0].limit)|, key, asks[1..]);
    }
  }

  lemma FreshPageFails(all: seq<string>, read: string -> seq<string>, page: Service, cache: Vectors, n: nat,
                       asks: seq<Ask>)
    requires EmptyWhenFresh(read, page) && asks != [] && asks[0].key !in cache && asks[0].limit > 0
    requires 0 < n < |all|
    ensures !RunExact(all, read, page, cache, n, asks)
  {
    assert ShowsNothing(read, page(None, n, asks[0].limit));
    assert |Slice(all, n, asks[0].limit)| > 0;
  }

  lemma StillUnderKey(all: seq<string>, n: nat, key: string, asks: seq<Ask>)
    requires !AllUnder(key, asks) && asks[0].key == key && asks[0].limit > 0 && n + Leading(key, asks) < |all|
    ensures !AllUnder(key, asks[1..]) && |Slice(all, n, asks[0].limit)| == asks[0].limit
    ensures Leading(key, asks) == asks[0].limit + Leading(key, asks[1..])
  {
    var i :| 0 <= i < |asks| && asks[i].key != key;
    assert asks[1..][i - 1].key != key;
  }

  /** Two titles, of which only the first has items. */
  function OneList(n: nat): Lists {
    Lists([seq(n, _ => ""), []], [], 0)
  }

  lemma OneListJoined(n: nat)
    ensures Joined(OneList(n), 2) == seq(n, _ => "") && LastList(OneList(n)) == []
  {
    var l := OneList(n);
    assert Joined(l, 1) == [] + seq(n, _ => "");
    assert Joined(l, 2) == Joined(l, 1) + [];
  }

  lemma OneListFreshPagesEmpty(m: Markup, n: nat)
    requires m.Distinct() && Honest(m, WorldOf(m, OneList(n)))
    ensures EmptyWhenFresh(Reading(m), SearchOf(m, WorldOf(m, OneList(n))))
  {
    var w := WorldOf(m, OneList(n));
    OneListJoined(n);
    forall n: nat, limit: int | n > 0 && limit > 0 ensures ShowsNothing(Reading(m), SearchOf(m, w)(None, n, limit)) {
      FreshKeyAsksLastTitle(m, w, map[], n, Ask("", limit));
    }
  }

  lemma OneListIsHonest(m: Markup, n: nat)
    requires m.Distinct()
    ensures Honest(m, WorldOf(m, OneList(n)))
  {
    forall tag | tag in {m.itemOpen, m.itemClose, m.channelClose} ensures Lacks("", tag) {
    }
    assert CleanItem(m, Item("", ""));
    assert CleanBodies(m, seq(n, _ => ""));
    WorldIsHonest(m, OneList(n));
  }

  ghost predicate AlwaysExact(m: Markup, asks: seq<Ask>)
    requires m.itemOpen != ""
  {
    forall w, leftover | Honest(m, w) :: ExactIn(m, w, leftover, asks)
  }

  lemma DifferingRunFails(m: Markup, asks: seq<Ask>) returns (w: World)
    requires m.Distinct() && !KeysAgree(Sized(asks))
    ensures Honest(m, w) && !ExactIn(m, w, map[], asks)
  {
    var sized := Sized(asks);
    var key := sized[0].key;
    var n := Leading(key, sized) + 1;
    SizedAre(asks);
    OneListIsHonest(m, n);
    w := WorldOf(m, OneList(n));
    OneListFreshPagesEmpty(m, n);
    OneListJoined(n);
    assert !AllUnder(key, sized);
    OtherKeyFails(AllItems(w), Reading(m), SearchOf(m, w), map[], 0, key, sized);
    SearchIdles(m, w);
    OnlySizedPagesMatter(AllItems(w), Reading(m), SearchOf(m, w), map[], 0, asks);
  }

  /** All pages that ask for items have one offset key. */
  ghost predicate SizedKeysAgree(asks: seq<Ask>) {
    forall a, b | a in asks && b in asks && a.limit > 0 && b.limit > 0 :: a.key == b.key
  }

  lemma AgreementOfSized(asks: seq<Ask>)
    ensures KeysAgree(Sized(asks)) <==> SizedKeysAgree(asks)
  {
    var sized := Sized(asks);
    SizedAre(asks);
    if SizedKeysAgree(asks) {
      forall i, j | 0 <= i < |sized| && 0 <= j < |sized| ensures sized[i].key == sized[j].key {
        assert sized[i] in sized && sized[j] in sized;
      }
    }
  }

  /** A run of pages is exact for every honest indexer and every leftover cache exactly when
      all its pages that ask for items have one offset key. */
  lemma ExactExactlyWhenKeysAgree(m: Markup, asks: seq<Ask>)
    requires m.Distinct()
    ensures AlwaysExact(m, asks) <==> SizedKeysAgree(asks)
  {
    AgreementOfSized(asks);
    if KeysAgree(Sized(asks)) {
      forall w, leftover | Honest(m, w) ensures ExactIn(m, w, leftover, asks) {
        PagingExact(m, w, leftover, Sized(asks));
        SearchIdles(m, w);
        OnlySizedPagesMatter(AllItems(w), Reading(m), SearchOf(m, w), leftover, 0, asks);
      }
    } else {
      var w := DifferingRunFails(m, asks);
    }
  }

  // ----- In terms of queries -----

  /** The query of a page, and the number of items it asks for. */
  datatype Query = Query(raw: string, limit: int)

  function AskOf(revision: nat, path: string, q: Query): Ask {
    Ask(OffsetKey(revision, path, Stripped(q.raw)), q.limit)
  }

  /** The pages of queries to one path under one search revision. */
  function AsksOf(revision: nat, path: string, queries: seq<Query>): (asks: seq<Ask>)
    ensures |asks| == |queries|
  {
    seq(|queries|, i requires 0 <= i < |queries| => AskOf(revision, path, queries[i]))
  }

  /** The queries for at least one item agree in all but offset and API key. */
  ghost predicate SizedQueriesAgree(queries: seq<Query>) {
    forall p, q | p in queries && q in queries && p.limit > 0 && q.limit > 0 :: Stripped(p.raw) == Stripped(q.raw)
  }

  lemma KeysAgreeAsQueries(revision: nat, path: string, queries: seq<Query>)
    ensures SizedKeysAgree(AsksOf(revision, path, queries)) <==> SizedQueriesAgree(queries)
  {
    var asks := AsksOf(revision, path, queries);
    if SizedKeysAgree(asks) {
      forall p, q | p in queries && q in queries && p.limit > 0 && q.limit > 0
        ensures Stripped(p.raw) == Stripped(q.raw)
      {
        var i, j :| 0 <= i < |queries| && queries[i] == p && 0 <= j < |queries| && queries[j] == q;
        assert asks[i] in asks && asks[j] in asks;
        OffsetKeysAgree(revision, path, Stripped(p.raw), Stripped(q.raw));
      }
    } else {
      var a, b :| a in asks && b in asks && a.limit > 0 && b.limit > 0 && a.key != b.key;
      var i, j :| 0 <= i < |asks| && asks[i] == a && 0 <= j < |asks| && asks[j] == b;
      assert queries[i] in queries && queries[j] in queries;
    }
  }

  /** Exact paging for every indexer means that the queries agree in all but offset and API key. */
  lemma ExactExactlyWhenQueriesAgree(m: Markup, revision: nat, path: string, queries: seq<Query>)
    requires m.Distinct()
    ensures AlwaysExact(m, AsksOf(revision, path, queries)) <==> SizedQueriesAgree(queries)
  {
    ExactExactlyWhenKeysAgree(m, AsksOf(revision, path, queries));
    KeysAgreeAsQueries(revision, path, queries);
  }

  // ----- Two pages of different sizes -----

  const TWO_LISTS := Lists([["a", "b"], ["c"]], [], 0)

  function LimitQuery(limit: nat, offset: nat): Query {
    Query(LIMIT + Format(limit) + "&" + (OFFSET + Format(offset)), limit)
  }

  lemma TwoListsAre(m: Markup)
    requires m.Distinct()
    ensures Honest(m, WorldOf(m, TWO_LISTS))
    ensures Joined(TWO_LISTS, 2) == ["a", "b", "c"] && LastList(TWO_LISTS) == ["c"]
  {
    forall s: string, tag | |s| <= 1 && tag in {m.itemOpen, m.itemClose, m.channelClose} ensures Lacks(s, tag) {
    }
    forall s: string | |s| <= 1 ensures CleanItem(m, Item("", s)) {
    }
    WorldIsHonest(m, TWO_LISTS);
    assert Joined(TWO_LISTS, 1) == [] + ["a", "b"];
    assert Joined(TWO_LISTS, 2) == Joined(TWO_LISTS, 1) + ["c"];
  }

  lemma KeysDiffer(revision: nat, path: string, a: nat, b: nat)
    requires a != b
    ensures OffsetKey(revision, path, Stripped(LimitQuery(a, 0).raw))
         != OffsetKey(revision, path, Stripped(LimitQuery(b, a).raw))
  {
    LimitStaysInKey(a, 0, b, a);
    OffsetKeysAgree(revision, path, Stripped(LimitQuery(a, 0).raw), Stripped(LimitQuery(b, a).raw));
  }

  /** `limit=1&offset=0` and then `limit=2&offset=1`. */
  function TwoSizes(revision: nat, path: string): seq<Ask> {
    [AskOf(revision, path, LimitQuery(1, 0)), AskOf(revision, path, LimitQuery(2, 1))]
  }

  /** Over the lists a, b and c the second of these pages is empty, although b and c are asked for. */
  lemma SecondSizeFindsNothing(m: Markup, revision: nat, path: string)
    requires m.Distinct()
    ensures var w := WorldOf(m, TWO_LISTS);
      var asks := TwoSizes(revision, path);
      && Honest(m, w) && !ExactIn(m, w, map[], asks)
      && ItemsOn(Reading(m), Pages(Reading(m), SearchOf(m, w), map[], 0, asks)) == ["a"]
      && Slice(AllItems(w), 1, 2) == ["b", "c"]
  {
    TwoListsAre(m);
    KeysDiffer(revision, path, 1, 2);
    SecondPage(m, WorldOf(m, TWO_LISTS), TwoSizes(revision, path));
  }

  lemma SecondPage(m: Markup, w: World, asks: seq<Ask>)
    requires m.Distinct() && Honest(m, w) && w.lists == TWO_LISTS && |asks| == 2
    requires asks[0].key != asks[1].key && asks[0].limit == 1 && asks[1].limit == 2
    requires AllItems(w) == ["a", "b", "c"] && LastList(w.lists) == ["c"]
    ensures !ExactIn(m, w, map[], asks)
    ensures ItemsOn(Reading(m), Pages(Reading(m), SearchOf(m, w), map[], 0, asks)) == ["a"]
    ensures Slice(AllItems(w), 1, 2) == ["b", "c"]
  {
    SearchServes(m, w);
    StartsInStep(w.lists, Lookup<seq<int>>(map[], asks[0].key));
    var o, next := PageServed(AllItems(w), InStepWith(w.lists), Reading(m), SearchOf(m, w), map[], 0, asks[0]);
    assert Slice(AllItems(w), 0, 1) == ["a"];
    FreshKeyAsksLastTitle(m, w, next, 1, asks[1]);
    EmptySecondPage(AllItems(w), Reading(m), SearchOf(m, w), asks, o, ["a"]);
  }

  lemma EmptySecondPage(all: seq<string>, read: string -> seq<string>, page: Service, asks: seq<Ask>, o: Outcome,
                        first: seq<string>)
    requires |asks| == 2 && o == page(None, 0, asks[0].limit) && read(o.merged) == first == Slice(all, 0, asks[0].limit)
    requires Slice(all, |first|, asks[1].limit) != []
    requires read(page(Lookup(Stored(map[], asks[0].key, o), asks[1].key), |first|, asks[1].limit).merged) == []
    ensures !RunExact(all, read, page, map[], 0, asks)
    ensures ItemsOn(read, Pages(read, page, map[], 0, asks)) == first
  {
    FirstPage(read, page, map[], 0, asks);
    FirstPage(read, page, Stored(map[], asks[0].key, o), |first|, asks[1..]);
  }
}
