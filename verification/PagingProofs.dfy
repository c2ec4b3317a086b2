/** Paging is exact: against indexers with fixed item lists every page is a slice of the
    concatenated lists, and pages fetched one after the other join up without gap or repeat. */
module PagingProofs {
  import opened Options
  import opened Text
  import opened Feed
  import opened Paging

  /** The item list of each title, and the widened list of the last title. */
  datatype Lists = Lists(plain: seq<seq<string>>, wide: seq<string>, minCount: int)

  /** All items in the order in which the titles up to number `i` list them. The last of
      more than two titles counts with its widened list exactly when those before it
      total fewer than `minCount`. */
  function Joined(l: Lists, i: nat): seq<string>
    requires i <= |l.plain|
  {
    if i == 0 then []
    else
      var front := Joined(l, i - 1);
      front + if WideAt(l, i - 1, |front|) then l.wide else l.plain[i - 1]
  }

  predicate WideAt(l: Lists, i: nat, shown: nat) {
    |l.plain| > 2 && i == |l.plain| - 1 && l.minCount > 0 && shown < l.minCount
  }

  function ListOf(l: Lists, i: nat, widened: bool): seq<string>
    requires i < |l.plain|
  {
    if widened then l.wide else l.plain[i]
  }

  /** `limit` items from `offset` on, fewer at the end of the list. */
  function Slice(items: seq<string>, offset: nat, limit: int): seq<string> {
    if limit <= 0 || offset >= |items| then []
    else if offset + limit <= |items| then items[offset..offset + limit]
    else items[offset..]
  }

  /** The indexer answers every query with a well-formed feed of the slice asked for;
      `cap` is the number of items it returns at most. */
  ghost predicate Honours(m: Markup, up: Upstream, answer: Request -> Feed, l: Lists, cap: nat) {
    forall r :: AnswersSlice(m, up, answer, l, cap, r)
  }

  ghost predicate AnswersSlice(m: Markup, up: Upstream, answer: Request -> Feed, l: Lists, cap: nat, r: Request) {
    r.index < |l.plain| && r.offset >= 0 ==>
      && up(r) == Some(answer(r).Render(m))
      && answer(r).Wf(m) && answer(r).GapsClosed()
      && answer(r).Bodies() == Slice(ListOf(l, r.index, r.widened), r.offset, cap)
  }

  /** A page is empty text or a well-formed feed. */
  ghost predicate IsPage(m: Markup, text: string, page: Option<Feed>) {
    match page
    case None => text == ""
    case Some(f) => f.Wf(m) && text == f.Render(m)
  }

  function BodiesOn(page: Option<Feed>): seq<string> {
    if page.None? then [] else page.value.Bodies()
  }

  /** Entry `i` of the vector counts all items of the titles up to `i`. */
  ghost predicate CountsAll(l: Lists, offsets: seq<int>, i: int)
    requires |offsets| == |l.plain| && 0 <= i < |offsets|
  {
    offsets[i] == |Joined(l, i + 1)|
  }

  /** The vector places a client that has received `n` items inside title `k`. */
  ghost predicate TracksAt(l: Lists, offsets: seq<int>, n: nat, k: nat)
    requires |offsets| == |l.plain|
  {
    && k < |offsets| && offsets[k] == n
    && |Joined(l, k)| <= n <= |Joined(l, k + 1)|
    && forall i | 0 <= i < k :: CountsAll(l, offsets, i)
  }

  ghost predicate Tracks(l: Lists, offsets: seq<int>, n: nat) {
    |offsets| == |l.plain| && (n == 0 || exists k: nat :: TracksAt(l, offsets, n, k))
  }

  lemma {:induction false} JoinedGrows(l: Lists, i: nat, j: nat)
    requires i <= j <= |l.plain|
    ensures |Joined(l, i)| <= |Joined(l, j)| && Joined(l, j)[..|Joined(l, i)|] == Joined(l, i)
    decreases j
  {
    if i < j {
      JoinedGrows(l, i, j - 1);
      var front := Joined(l, j - 1);
      assert Joined(l, j)[..|front|] == front;
      assert Joined(l, j)[..|Joined(l, i)|] == front[..|Joined(l, i)|];
    }
  }

  // ----- One upstream answer -----

  /** Trimming an answer to what the page still takes keeps its first items. */
  lemma TakeOnFeed(m: Markup, f: Feed, limit: int) returns (kept: Feed)
    requires m.Distinct() && f.Wf(m) && f.GapsClosed() && limit > 0
    ensures var (count, text) := Taken(m, f.Render(m), limit);
      && count == |kept.items| == (if |f.items| <= limit then |f.items| else limit)
      && text == kept.Render(m)
    ensures kept.Wf(m) && kept.Bodies() == f.Bodies()[..|kept.items|]
  {
    ReadBack(m, f);
    if |f.items| <= limit {
      kept := f;
      assert f.Bodies()[..|f.items|] == f.Bodies();
    } else {
      kept := Feed(f.items[..limit], f.items[limit].pre + f.footer);
      TrimRefinesTake(m, f, limit);
      TrimKeepsWf(m, f, limit);
      BodiesTake(f.items, limit);
    }
  }

  lemma RenderNotEmpty(m: Markup, f: Feed)
    requires f.Wf(m) && m.channelClose != ""
    ensures f.Render(m) != ""
  {
    RenderPrefix(m, f.items, f.footer);
  }

  /** Merging an answer into the page appends its items. */
  lemma AppendOnPage(m: Markup, text: string, page: Option<Feed>, g: Feed) returns (next: Option<Feed>)
    requires m.Distinct() && IsPage(m, text, page) && g.Wf(m)
    ensures IsPage(m, Append(m, text, |g.items|, g.Render(m)), next)
    ensures BodiesOn(next) == BodiesOn(page) + g.Bodies()
    ensures next.Some? && (page.None? ==> next == Some(g))
  {
    RenderNotEmpty(m, g);
    ReadBack(m, g);
    if page.None? {
      next := Some(g);
    } else {
      var f := page.value;
      RenderNotEmpty(m, f);
      ReadBack(m, f);
      if g.items == [] {
        next := page;
      } else if f.items == [] {
        next := Some(g);
      } else {
        MergeRefinesAppend(m, f, g);
        next := Some(MergedFeed(m, f, g));
      }
    }
  }

  /** What the search relies on: taking keeps the first items of a feed. */
  ghost predicate TakeRefines(ops: FeedOps, m: Markup, f: Feed, limit: int) {
    f.Wf(m) && f.GapsClosed() && limit > 0 ==>
      exists kept: Feed :: TakeYields(ops, m, f, limit, kept)
  }

  ghost predicate TakeYields(ops: FeedOps, m: Markup, f: Feed, limit: int, kept: Feed) {
    && ops.take(f.Render(m), limit) == (|kept.items|, kept.Render(m))
    && |kept.items| == (if |f.items| <= limit then |f.items| else limit)
    && kept.Wf(m) && kept.Bodies() == f.Bodies()[..|kept.items|]
  }

  /** What the search relies on: joining an answer to a page appends its items, and the first
      answer is the page as it stands, even without items. */
  ghost predicate AppendRefines(ops: FeedOps, m: Markup, text: string, page: Option<Feed>, g: Feed) {
    IsPage(m, text, page) && g.Wf(m) ==>
      exists next: Option<Feed> :: AppendYields(ops, m, text, page, g, next)
  }

  ghost predicate AppendYields(ops: FeedOps, m: Markup, text: string, page: Option<Feed>, g: Feed, next: Option<Feed>) {
    && IsPage(m, ops.append(text, |g.items|, g.Render(m)), next)
    && BodiesOn(next) == BodiesOn(page) + g.Bodies()
    && next.Some? && (page.None? ==> next == Some(g))
  }

  ghost predicate RefinesLists(ops: FeedOps, m: Markup) {
    && (forall f, limit :: TakeRefines(ops, m, f, limit))
    && (forall text, page, g :: AppendRefines(ops, m, text, page, g))
  }

  /** The string surgery of the proxy refines taking and appending lists. */
  lemma SurgeryRefinesLists(m: Markup)
    requires m.Distinct()
    ensures RefinesLists(OpsOf(m), m)
  {
    var ops := OpsOf(m);
    forall f, limit ensures TakeRefines(ops, m, f, limit) {
      if f.Wf(m) && f.GapsClosed() && limit > 0 {
        var kept := TakeOnFeed(m, f, limit);
        assert TakeYields(ops, m, f, limit, kept);
      }
    }
    forall text, page, g ensures AppendRefines(ops, m, text, page, g) {
      if IsPage(m, text, page) && g.Wf(m) {
        var next := AppendOnPage(m, text, page, g);
        assert AppendYields(ops, m, text, page, g, next);
      }
    }
  }

  // ----- The page arithmetic -----

  lemma SliceInMiddle(all: seq<string>, front: seq<string>, list: seq<string>, o: nat, n: nat)
    requires o + n <= |list| && |front| + |list| <= |all|
    requires all[..|front| + |list|] == front + list
    ensures all[|front| + o..|front| + o + n] == list[o..o + n]
  {
    var upTo := all[..|front| + |list|];
    assert upTo[|front| + o..|front| + o + n] == list[o..o + n];
  }

  /** The first `limit` items asked for, when the answer may hold more. */
  lemma SliceTaken(list: seq<string>, o: nat, limit: int, cap: nat)
    requires o <= |list| && 0 < limit <= cap
    ensures var page := Slice(list, o, cap);
      var n := if |page| <= limit then |page| else limit;
      o + n <= |list| && (n < limit ==> o + n == |list|) && page[..n] == list[o..o + n]
  {
  }

  /** The items are the next ones of `all` from `offset` on: `limit` of them, or all up to `upTo`. */
  ghost predicate NextItems(all: seq<string>, upTo: nat, offset: nat, limit: int, items: seq<string>) {
    var n := |items|;
    && n <= limit && offset + n <= upTo <= |all| && (n < limit ==> offset + n == upTo)
    && items == all[offset..offset + n]
  }

  function AtMost(items: seq<string>, limit: int): seq<string> {
    if |items| <= limit then items else if limit > 0 then items[..limit] else []
  }

  lemma SliceOfPart(all: seq<string>, front: seq<string>, list: seq<string>, offset: nat, limit: int, cap: nat)
    requires 0 < limit <= cap && |front| <= offset <= |front| + |list| <= |all|
    requires all[..|front| + |list|] == front + list
    ensures NextItems(all, |front| + |list|, offset, limit, AtMost(Slice(list, offset - |front|, cap), limit))
  {
    var o := offset - |front|;
    SliceTaken(list, o, limit, cap);
    var page := Slice(list, o, cap);
    SliceInMiddle(all, front, list, o, if |page| <= limit then |page| else limit);
  }

  /** Title `idx` and what lies before it make up the joined lists up to it. */
  lemma JoinedParts(l: Lists, idx: nat) returns (front: seq<string>, list: seq<string>, all: seq<string>)
    requires idx < |l.plain|
    ensures front == Joined(l, idx) && list == ListOf(l, idx, WideAt(l, idx, |front|)) && all == Joined(l, |l.plain|)
    ensures |Joined(l, idx + 1)| == |front| + |list| <= |all| && all[..|front| + |list|] == front + list
  {
    front, all := Joined(l, idx), Joined(l, |l.plain|);
    list := ListOf(l, idx, WideAt(l, idx, |front|));
    JoinedGrows(l, idx + 1, |l.plain|);
  }

  /** Items of title `idx` from the client's position on are the next items overall. */
  lemma SliceOfTitle(l: Lists, idx: nat, offset: nat, limit: int, cap: nat) returns (page: seq<string>)
    requires idx < |l.plain| && 0 < limit <= cap
    requires |Joined(l, idx)| <= offset <= |Joined(l, idx + 1)|
    ensures page == Slice(ListOf(l, idx, WideAt(l, idx, |Joined(l, idx)|)), offset - |Joined(l, idx)|, cap)
    ensures NextItems(Joined(l, |l.plain|), |Joined(l, idx + 1)|, offset, limit, AtMost(page, limit))
  {
    var front, list, all := JoinedParts(l, idx);
    page := Slice(list, offset - |front|, cap);
    SliceOfPart(all, front, list, offset, limit, cap);
  }

  lemma NextItemsJoin(all: seq<string>, upTo: nat, offset: nat, limit: int, a: seq<string>, b: seq<string>)
    requires NextItems(all, upTo, offset, limit, a) && NextItems(all, |all|, offset + |a|, limit - |a|, b)
    ensures NextItems(all, |all|, offset, limit, a + b)
  {
    assert all[offset..offset + |a|] + all[offset + |a|..offset + |a| + |b|] == all[offset..offset + |a| + |b|];
  }

  /** The next items up to the end are the slice. */
  lemma NextItemsAreSlice(all: seq<string>, offset: nat, limit: int, items: seq<string>)
    requires limit > 0 && NextItems(all, |all|, offset, limit, items)
    ensures items == Slice(all, offset, limit)
  {
  }

  /** The vector agrees with the joined lists before title `idx`, and the client stands in that title. */
  ghost predicate Inside(l: Lists, offsets: seq<int>, idx: nat, offset: nat) {
    && idx <= |offsets| == |l.plain|
    && (forall i | 0 <= i < idx :: CountsAll(l, offsets, i))
    && |Joined(l, idx)| <= offset <= |Joined(l, if idx < |offsets| then idx + 1 else idx)|
  }

  /** The answer for title `idx`: the slice of its list at the local offset. */
  lemma TitleAnswer(m: Markup, l: Lists, up: Upstream, answer: Request -> Feed, cap: nat,
                    offsets: seq<int>, idx: nat, offset: nat) returns (f: Feed)
    requires Honours(m, up, answer, l, cap) && idx < |offsets| && Inside(l, offsets, idx, offset)
    ensures up(RequestFor(l.minCount, idx, offsets, offset)) == Some(f.Render(m))
    ensures f.Wf(m) && f.GapsClosed()
    ensures var front := |Joined(l, idx)|;
      f.Bodies() == Slice(ListOf(l, idx, WideAt(l, idx, front)), offset - front, cap)
  {
    var r := RequestFor(l.minCount, idx, offsets, offset);
    assert idx > 0 ==> CountsAll(l, offsets, idx - 1);
    assert r == Request(idx, WideAt(l, idx, |Joined(l, idx)|), offset - |Joined(l, idx)|);
    assert AnswersSlice(m, up, answer, l, cap, r);
    f := answer(r);
  }

  lemma TakenIsAtMost(f: Feed, kept: Feed, limit: int)
    requires limit > 0 && |kept.items| == (if |f.items| <= limit then |f.items| else limit)
    requires kept.Bodies() == f.Bodies()[..|kept.items|]
    ensures kept.Bodies() == AtMost(f.Bodies(), limit)
  {
  }

  /** What one title contributes to the page. */
  lemma TitleExact(m: Markup, ops: FeedOps, l: Lists, up: Upstream, answer: Request -> Feed, cap: nat,
                   offsets: seq<int>, idx: nat, offset: nat, limit: int) returns (kept: Feed)
    requires RefinesLists(ops, m) && Honours(m, up, answer, l, cap) && 0 < limit <= cap
    requires idx < |offsets| && Inside(l, offsets, idx, offset)
    ensures var r := RequestFor(l.minCount, idx, offsets, offset);
      up(r).Some? && ops.take(up(r).value, limit) == (|kept.items|, kept.Render(m))
    ensures kept.Wf(m) && NextItems(Joined(l, |l.plain|), |Joined(l, idx + 1)|, offset, limit, kept.Bodies())
  {
    var f := TitleAnswer(m, l, up, answer, cap, offsets, idx, offset);
    assert TakeRefines(ops, m, f, limit);
    kept :| TakeYields(ops, m, f, limit, kept);
    TakenIsAtMost(f, kept, limit);
    var page := SliceOfTitle(l, idx, offset, limit, cap);
  }

  lemma PageGrows(m: Markup, ops: FeedOps, text: string, page: Option<Feed>, kept: Feed)
      returns (joined: string, next: Option<Feed>)
    requires RefinesLists(ops, m) && IsPage(m, text, page) && kept.Wf(m)
    ensures joined == ops.append(text, |kept.items|, kept.Render(m))
    ensures IsPage(m, joined, next) && BodiesOn(next) == BodiesOn(page) + kept.Bodies()
    ensures next.Some? && (page.None? ==> next == Some(kept))
  {
    assert AppendRefines(ops, m, text, page, kept);
    joined := ops.append(text, |kept.items|, kept.Render(m));
    next :| AppendYields(ops, m, text, page, kept, next);
  }

  /** What the search finds. */
  function Found(ops: FeedOps, up: Upstream, minCount: int, offsets: seq<int>, idx: nat, offset: int, limit: int,
                 text: string, cached: bool): Outcome
    requires idx <= |offsets|
  {
    Search(ops, up, minCount, offsets, idx, offset, limit, text, cached)
  }

  /** One turn of the search loop: the next items of the joined lists go to the page. */
  lemma TurnExact(m: Markup, ops: FeedOps, l: Lists, up: Upstream, answer: Request -> Feed, cap: nat,
                  offsets: seq<int>, idx: nat, offset: nat, limit: int, text: string, page: Option<Feed>, cached: bool)
    returns (taken: seq<string>, vector: seq<int>, joined: string, next: Option<Feed>)
    requires RefinesLists(ops, m) && Honours(m, up, answer, l, cap) && 0 < limit <= cap && IsPage(m, text, page)
    requires idx < |offsets| && Inside(l, offsets, idx, offset)
    ensures vector == offsets[idx := offset + |taken|]
    ensures Found(ops, up, l.minCount, offsets, idx, offset, limit, text, cached)
         == Found(ops, up, l.minCount, vector, idx + 1, offset + |taken|, limit - |taken|, joined, true)
    ensures NextItems(Joined(l, |l.plain|), |Joined(l, idx + 1)|, offset, limit, taken)
    ensures IsPage(m, joined, next) && BodiesOn(next) == BodiesOn(page) + taken
    ensures Tracks(l, vector, offset + |taken|)
    ensures |taken| < limit ==> Inside(l, vector, idx + 1, offset + |taken|)
  {
    var kept := TitleExact(m, ops, l, up, answer, cap, offsets, idx, offset, limit);
    taken := kept.Bodies();
    vector := offsets[idx := offset + |taken|];
    SearchUnfolds(ops, up, l.minCount, offsets, idx, offset, limit, text, cached,
                  up(RequestFor(l.minCount, idx, offsets, offset)).value, |taken|, kept.Render(m));
    joined, next := PageGrows(m, ops, text, page, kept);
    MovesOn(l, offsets, idx, offset, |taken|);
  }

  /** The vector after one turn. */
  lemma MovesOn(l: Lists, offsets: seq<int>, idx: nat, offset: nat, n: nat)
    requires idx < |offsets| && Inside(l, offsets, idx, offset) && offset + n <= |Joined(l, idx + 1)|
    ensures var vector := offsets[idx := offset + n];
      && TracksAt(l, vector, offset + n, idx)
      && (offset + n == |Joined(l, idx + 1)| ==> Inside(l, vector, idx + 1, offset + n))
  {
    var vector := offsets[idx := offset + n];
    forall i | 0 <= i < idx ensures CountsAll(l, vector, i) {
      assert CountsAll(l, offsets, i);
    }
    if idx + 2 <= |l.plain| {
      JoinedGrows(l, idx + 1, idx + 2);
    }
  }

  /** The run ended well, its page adds the items to `page`, and its vector tracks a client
      that has received them after `offset` others. */
  ghost predicate Delivers(m: Markup, l: Lists, o: Outcome, page: Option<Feed>, offset: nat, final: Option<Feed>,
                           got: seq<string>) {
    && o.ok && o.cached && IsPage(m, o.merged, final)
    && BodiesOn(final) == BodiesOn(page) + got
    && Tracks(l, o.offsets, offset + |got|)
  }

  /** The search delivers exactly the items asked for. */
  lemma {:induction false} SearchExact(m: Markup, ops: FeedOps, l: Lists, up: Upstream, answer: Request -> Feed,
                                       cap: nat, offsets: seq<int>, idx: nat, offset: nat, limit: int,
                                       text: string, page: Option<Feed>, cached: bool, o: Outcome)
    returns (final: Option<Feed>, got: seq<string>)
    requires RefinesLists(ops, m) && Honours(m, up, answer, l, cap) && 0 < limit <= cap && IsPage(m, text, page)
    requires idx < |offsets| && Inside(l, offsets, idx, offset)
    requires o == Found(ops, up, l.minCount, offsets, idx, offset, limit, text, cached)
    ensures Delivers(m, l, o, page, offset, final, got)
    ensures NextItems(Joined(l, |l.plain|), |Joined(l, |l.plain|)|, offset, limit, got)
    decreases |offsets| - idx
  {
    var taken, vector, joined, next :=
      TurnExact(m, ops, l, up, answer, cap, offsets, idx, offset, limit, text, page, cached);
    var at, left := offset + |taken|, limit - |taken|;
    if left == 0 || idx + 1 == |offsets| {
      final, got := next, taken;
      FoundEnds(ops, up, l.minCount, vector, idx + 1, at, left, joined);
    } else {
      var more;
      final, more := SearchExact(m, ops, l, up, answer, cap, vector, idx + 1, at, left, joined, next, true, o);
      got := taken + more;
      NextItemsJoin(Joined(l, |l.plain|), |Joined(l, idx + 1)|, offset, limit, taken, more);
      DeliversMore(m, l, o, page, next, offset, final, taken, more);
    }
  }

  lemma FoundEnds(ops: FeedOps, up: Upstream, minCount: int, offsets: seq<int>, idx: nat, offset: int, limit: int,
                  text: string)
    requires idx <= |offsets| && (idx == |offsets| || limit <= 0)
    ensures Found(ops, up, minCount, offsets, idx, offset, limit, text, true) == Outcome(text, true, offsets, true)
  {
    SearchEnds(ops, up, minCount, offsets, idx, offset, limit, text, true);
  }

  lemma DeliversMore(m: Markup, l: Lists, o: Outcome, page: Option<Feed>, next: Option<Feed>, offset: nat,
                     final: Option<Feed>, first: seq<string>, more: seq<string>)
    requires BodiesOn(next) == BodiesOn(page) + first && Delivers(m, l, o, next, offset + |first|, final, more)
    ensures Delivers(m, l, o, page, offset, final, first + more)
  {
    assert (BodiesOn(page) + first) + more == BodiesOn(page) + (first + more);
  }

  lemma ReachedBy(offsets: seq<int>, n: nat, k: nat)
    requires n > 0 && k < |offsets| && offsets[k] == n
    ensures 0 <= CurrentIndex(n, offsets) <= k && offsets[CurrentIndex(n, offsets)] >= n
  {
  }

  /** The title the search resumes with is one the client has reached. */
  lemma ResumesInside(l: Lists, offsets: seq<int>, n: nat)
    requires Tracks(l, offsets, n) && |offsets| > 0 && n <= |Joined(l, |l.plain|)|
    ensures var idx := CurrentIndex(n, offsets);
      && 0 <= idx < |offsets| && |Joined(l, idx)| <= n <= |Joined(l, idx + 1)|
      && forall i | 0 <= i < idx :: CountsAll(l, offsets, i)
  {
    if n > 0 {
      var k: nat :| TracksAt(l, offsets, n, k);
      ReachedBy(offsets, n, k);
      ReachedInside(l, offsets, n, k, CurrentIndex(n, offsets));
    }
  }

  lemma ReachedInside(l: Lists, offsets: seq<int>, n: nat, k: nat, idx: nat)
    requires |offsets| == |l.plain| && TracksAt(l, offsets, n, k) && idx <= k && offsets[idx] >= n
    ensures |Joined(l, idx)| <= n <= |Joined(l, idx + 1)|
  {
    if idx < k {
      assert CountsAll(l, offsets, idx);
      JoinedGrows(l, idx, k);
    }
  }

  // ----- One page -----

  function Kept(entry: Option<seq<int>>, o: Outcome): Option<seq<int>> {
    if o.cached then Some(o.offsets) else entry
  }

  /** Reading a page by its item tags. */
  function Reading(m: Markup): string -> seq<string>
    requires m.itemOpen != ""
  {
    text => ParseBodies(m, text, 0)
  }

  lemma ReadsBodies(m: Markup, text: string, page: Option<Feed>)
    requires m.Distinct() && IsPage(m, text, page)
    ensures Reading(m)(text) == BodiesOn(page)
  {
    match page
    case None =>
      assert IndexFrom("", m.itemOpen, 0) < 0;
    case Some(f) =>
      ReadBack(m, f);
  }

  /** The page shows the items, and the vector it leaves lets a client who had received `n`
      items go on from there. */
  ghost predicate PageIs(m: Markup, l: Lists, o: Outcome, entry: Option<seq<int>>, n: nat,
                         page: Option<Feed>, got: seq<string>) {
    o.ok && IsPage(m, o.merged, page) && BodiesOn(page) == got
    && Tracks(l, Start(Kept(entry, o), |l.plain|), n + |got|)
  }

  /** A page requested at the client's position is the slice asked for, and the entry
      it leaves behind lets the client go on from there. */
  lemma PageIsSlice(m: Markup, ops: FeedOps, l: Lists, up: Upstream, answer: Request -> Feed, cap: nat,
                    entry: Option<seq<int>>, n: nat, limit: int, text: string) returns (page: Option<Feed>)
    requires RefinesLists(ops, m) && Honours(m, up, answer, l, cap) && limit <= cap && text == ""
    requires |l.plain| > 0 && n <= |Joined(l, |l.plain|)| && Tracks(l, Start(entry, |l.plain|), n)
    ensures var start := Start(entry, |l.plain|);
      var o := Search(ops, up, l.minCount, start, CurrentIndex(n, start), n, limit, text, false);
      PageIs(m, l, o, entry, n, page, Slice(Joined(l, |l.plain|), n, limit))
  {
    var start := Start(entry, |l.plain|);
    ResumesInside(l, start, n);
    var idx := CurrentIndex(n, start);
    var o := Search(ops, up, l.minCount, start, idx, n, limit, text, false);
    if limit <= 0 {
      page := None;
      SearchEnds(ops, up, l.minCount, start, idx, n, limit, text, false);
      NothingAsked(m, l, o, entry, n);
    } else {
      var got;
      page, got := SearchExact(m, ops, l, up, answer, cap, start, idx, n, limit, text, None, false, o);
      FirstDelivery(m, l, o, entry, n, page, got);
      NextItemsAreSlice(Joined(l, |l.plain|), n, limit, got);
    }
  }

  lemma NothingAsked(m: Markup, l: Lists, o: Outcome, entry: Option<seq<int>>, n: nat)
    requires o.ok && !o.cached && o.merged == "" && Tracks(l, Start(entry, |l.plain|), n)
    ensures PageIs(m, l, o, entry, n, None, [])
  {
  }

  lemma FirstDelivery(m: Markup, l: Lists, o: Outcome, entry: Option<seq<int>>, n: nat, page: Option<Feed>,
                      got: seq<string>)
    requires Delivers(m, l, o, None, n, page, got)
    ensures PageIs(m, l, o, entry, n, page, got)
  {
    KeptVector(l, entry, o, n + |got|);
    NothingBefore(got);
  }

  lemma KeptVector(l: Lists, entry: Option<seq<int>>, o: Outcome, n: nat)
    requires o.cached && Tracks(l, o.offsets, n)
    ensures Tracks(l, Start(Kept(entry, o), |l.plain|), n)
  {
    assert Start(Kept(entry, o), |l.plain|) == o.offsets;
  }

  lemma NothingBefore(items: seq<string>)
    ensures BodiesOn(None) + items == items
  {
  }

  // ----- Offsets sent upstream -----

  /** The requests the search sends. */
  function Sent(ops: FeedOps, up: Upstream, minCount: int, offsets: seq<int>, idx: nat, offset: int,
                limit: int): seq<Request>
    requires idx <= |offsets|
    decreases |offsets| - idx
  {
    if idx == |offsets| || limit <= 0 then []
    else
      var r := RequestFor(minCount, idx, offsets, offset);
      match up(r)
      case None => [r]
      case Some(xml) =>
        var (count, _) := ops.take(xml, limit);
        [r] + Sent(ops, up, minCount, offsets[idx := offset + count], idx + 1, offset + count, limit - count)
  }

  lemma {:induction false} SentOffsets(ops: FeedOps, up: Upstream, minCount: int, offsets: seq<int>, idx: nat,
                                       offset: int, limit: int)
    requires idx <= |offsets| && (idx > 0 ==> offsets[idx - 1] <= offset)
    ensures forall r | r in Sent(ops, up, minCount, offsets, idx, offset, limit) ::
      r.index >= idx && (r.index > 0 ==> r.offset >= 0)
    decreases |offsets| - idx
  {
    if idx < |offsets| && limit > 0 {
      match up(RequestFor(minCount, idx, offsets, offset))
      case None =>
      case Some(xml) =>
        var (count, _) := ops.take(xml, limit);
        SentOffsets(ops, up, minCount, offsets[idx := offset + count], idx + 1, offset + count, limit - count);
    }
  }

  /** Whatever the vector and the offset asked for, no title after the first is queried at
      a negative offset. */
  lemma LocalOffsetsNonNegative(ops: FeedOps, up: Upstream, minCount: int, offsets: seq<int>, offset: int, limit: int)
    requires offsets != []
    ensures forall r | r in Sent(ops, up, minCount, offsets, CurrentIndex(offset, offsets), offset, limit) ::
      r.index > 0 ==> r.offset >= 0
  {
    SentOffsets(ops, up, minCount, offsets, CurrentIndex(offset, offsets), offset, limit);
  }
}
