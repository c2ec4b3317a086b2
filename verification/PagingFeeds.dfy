/** What a page is as a text (internal/proxy/server.go, executeExpandedSearch): a well-formed
    feed of at most the items asked for, from any vector and at any position. */
module PagingFeeds {
  import opened Options
  import opened Text
  import opened Feed
  import opened Paging
  import opened PagingProofs
  import opened PagingRuns

  /** The text is a well-formed feed of at most `limit` items. */
  ghost predicate IsFeed(m: Markup, text: string, limit: int) {
    exists f: Feed :: FeedOf(m, text, limit, f)
  }

  ghost predicate FeedOf(m: Markup, text: string, limit: int, f: Feed) {
    f.Wf(m) && text == f.Render(m) && |f.items| <= limit
  }

  // ----- One search -----

  /** The answer to the query for title `idx`, and what the page takes of it. */
  lemma TitleIsFeed(m: Markup, ops: FeedOps, l: Lists, up: Upstream, answer: Request -> Feed, cap: nat,
                    offsets: seq<int>, idx: nat, offset: nat, limit: int) returns (xml: string, kept: Feed)
    requires RefinesLists(ops, m) && Honours(m, up, answer, l, cap) && 0 < limit <= cap
    requires idx < |offsets| == |l.plain| && (idx > 0 ==> offsets[idx - 1] <= offset)
    ensures up(RequestFor(l.minCount, idx, offsets, offset)) == Some(xml)
    ensures ops.take(xml, limit) == (|kept.items|, kept.Render(m)) && kept.Wf(m) && |kept.items| <= limit
  {
    var r := RequestFor(l.minCount, idx, offsets, offset);
    assert AnswersSlice(m, up, answer, l, cap, r);
    assert TakeRefines(ops, m, answer(r), limit);
    kept :| TakeYields(ops, m, answer(r), limit, kept);
    xml := answer(r).Render(m);
  }

  /** The page so far holds at most `shown` items. */
  ghost predicate PageOfAtMost(m: Markup, text: string, page: Option<Feed>, shown: int) {
    IsPage(m, text, page) && |BodiesOn(page)| <= shown
  }

  lemma GrowsByAtMost(m: Markup, ops: FeedOps, text: string, page: Option<Feed>, kept: Feed, shown: int)
    returns (joined: string, next: Option<Feed>)
    requires RefinesLists(ops, m) && PageOfAtMost(m, text, page, shown) && kept.Wf(m)
    ensures joined == ops.append(text, |kept.items|, kept.Render(m))
    ensures PageOfAtMost(m, joined, next, shown + |kept.items|) && next.Some?
  {
    joined, next := PageGrows(m, ops, text, page, kept);
  }

  /** From title `idx` on the search succeeds and ends with a page of at most `limit` more items;
      if it asks at all the page is a feed. */
  lemma {:induction false} SearchIsFeed(m: Markup, ops: FeedOps, l: Lists, up: Upstream, answer: Request -> Feed,
                                        cap: nat, offsets: seq<int>, idx: nat, offset: nat, limit: int,
                                        text: string, page: Option<Feed>, shown: nat, cached: bool)
    returns (o: Outcome, final: Option<Feed>)
    requires RefinesLists(ops, m) && Honours(m, up, answer, l, cap) && limit <= cap
    requires PageOfAtMost(m, text, page, shown)
    requires idx <= |offsets| == |l.plain| && (idx > 0 ==> offsets[idx - 1] <= offset)
    ensures o == Search(ops, up, l.minCount, offsets, idx, offset, limit, text, cached) && o.ok
    ensures PageOfAtMost(m, o.merged, final, shown + if limit > 0 then limit else 0)
    ensures page.Some? || (idx < |offsets| && limit > 0) ==> final.Some?
    decreases |offsets| - idx
  {
    if idx == |offsets| || limit <= 0 {
      SearchEnds(ops, up, l.minCount, offsets, idx, offset, limit, text, cached);
      o, final := Outcome(text, true, offsets, cached), page;
    } else {
      var xml, kept := TitleIsFeed(m, ops, l, up, answer, cap, offsets, idx, offset, limit);
      var n := |kept.items|;
      SearchUnfolds(ops, up, l.minCount, offsets, idx, offset, limit, text, cached, xml, n, kept.Render(m));
      var joined, next := GrowsByAtMost(m, ops, text, page, kept, shown);
      o, final := SearchIsFeed(m, ops, l, up, answer, cap, offsets[idx := offset + n], idx + 1, offset + n, limit - n,
                               joined, next, shown + n, true);
    }
  }

  lemma StartsBefore(offset: nat, offsets: seq<int>)
    requires offsets != []
    ensures var idx := CurrentIndex(offset, offsets);
      0 <= idx < |offsets| && (idx > 0 ==> offsets[idx - 1] < offset)
  {
  }

  /** For an honest indexer every page that asks for items is a well-formed feed of at most that
      many, whatever vector it starts from and whatever its position; also when nothing is found. */
  lemma PageIsFeed(m: Markup, ops: FeedOps, l: Lists, up: Upstream, answer: Request -> Feed, cap: nat,
                   entry: Option<seq<int>>, n: nat, limit: int)
    requires m.Distinct() && RefinesLists(ops, m) && Honours(m, up, answer, l, cap) && |l.plain| > 0
    requires 0 < limit <= cap
    ensures var o := PageOf(ops, up, l.minCount, |l.plain|, entry, n, limit);
      o.ok && IsFeed(m, o.merged, limit)
  {
    var start := Start(entry, |l.plain|);
    StartsBefore(n, start);
    var o, final := SearchIsFeed(m, ops, l, up, answer, cap, start, CurrentIndex(n, start), n, limit, "", None, 0,
                                 false);
    assert FeedOf(m, o.merged, limit, final.value);
  }

  // ----- Runs of pages -----

  /** Every page of a run is what the service returns from some vector at some position. */
  lemma {:induction false} PageOfRun(read: string -> seq<string>, page: Service, cache: Vectors, n: nat,
                                     asks: seq<Ask>, i: nat)
      returns (entry: Option<seq<int>>, at: nat)
    requires i < |asks|
    ensures var pages := Pages(read, page, cache, n, asks);
      |pages| == |asks| && pages[i] == page(entry, at, asks[i].limit).merged
    decreases |asks|
  {
    var o := page(Lookup(cache, asks[0].key), n, asks[0].limit);
    if i == 0 {
      entry, at := Lookup(cache, asks[0].key), n;
      PagesLength(read, page, cache, n, asks);
    } else {
      entry, at := PageOfRun(read, page, Stored(cache, asks[0].key, o), n + |read(o.merged)|, asks[1..], i - 1);
    }
  }

  /** Every page that asks for items is a feed of at most that many. */
  lemma PagesAreFeeds(m: Markup, w: World, cache: Vectors, n: nat, asks: seq<Ask>, i: nat)
    requires m.Distinct() && Honest(m, w) && i < |asks|
    ensures var pages := Pages(Reading(m), SearchOf(m, w), cache, n, asks);
      |pages| == |asks| && (asks[i].limit > 0 ==> IsFeed(m, pages[i], asks[i].limit))
  {
    var entry, at := PageOfRun(Reading(m), SearchOf(m, w), cache, n, asks, i);
    SearchIsFeedFor(m, w, entry, at, asks[i].limit);
  }

  lemma {:induction false} PagesLength(read: string -> seq<string>, page: Service, cache: Vectors, n: nat,
                                       asks: seq<Ask>)
    ensures |Pages(read, page, cache, n, asks)| == |asks|
    decreases |asks|
  {
    if asks != [] {
      var o := page(Lookup(cache, asks[0].key), n, asks[0].limit);
      PagesLength(read, page, Stored(cache, asks[0].key, o), n + |read(o.merged)|, asks[1..]);
    }
  }

  lemma SearchIsFeedFor(m: Markup, w: World, entry: Option<seq<int>>, n: nat, limit: int)
    requires m.Distinct() && Honest(m, w)
    ensures limit > 0 ==> IsFeed(m, SearchOf(m, w)(entry, n, limit).merged, limit)
  {
    SurgeryRefinesLists(m);
    assert HonestFor(m, w, limit);
    if limit > 0 {
      PageIsFeed(m, OpsOf(m), w.lists, w.indexer(limit), w.answers(limit), w.cap(limit), entry, n, limit);
    }
  }

  // ----- Searches that fail -----

  /** A search succeeds exactly when every query it sends is answered, and leaves a vector
      exactly when the first one is. */
  lemma {:induction false} SearchOkExactly(ops: FeedOps, up: Upstream, minCount: int, offsets: seq<int>, idx: nat,
                                           offset: int, limit: int, text: string, cached: bool)
    requires idx <= |offsets|
    ensures var o := Search(ops, up, minCount, offsets, idx, offset, limit, text, cached);
      var sent := Sent(ops, up, minCount, offsets, idx, offset, limit);
      && (o.ok <==> forall r | r in sent :: up(r).Some?)
      && (o.cached <==> cached || (sent != [] && up(sent[0]).Some?))
    decreases |offsets| - idx
  {
    if idx < |offsets| && limit > 0 {
      var r := RequestFor(minCount, idx, offsets, offset);
      match up(r)
      case None =>
      case Some(xml) =>
        var (count, kept) := ops.take(xml, limit);
        SearchOkExactly(ops, up, minCount, offsets[idx := offset + count], idx + 1, offset + count, limit - count,
                        ops.append(text, count, kept), true);
    }
  }
}
