/** Expanded search (internal/proxy/server.go, executeExpandedSearch): one client page is
    assembled from several upstream title lists with a cached vector of cumulative offsets. */
module Paging {
  import opened Options
  import opened Text
  import opened Feed

  /** One upstream query: which title, whether season and episode are dropped, which offset. */
  datatype Request = Request(index: nat, widened: bool, offset: int)

  /** Answers of the upstream indexer to the queries of one page; `None` is a failed request. */
  type Upstream = Request -> Option<string>

  /** The indexer: every query of a page carries the limit that the client asked for. */
  type Indexer = int -> Upstream

  /** First position whose cumulative offset reaches `offset`; the last title when none does. */
  function CurrentIndex(offset: int, offsets: seq<int>): (i: int)
    ensures -1 <= i < |offsets| || i == 0
  {
    if offset == 0 then 0 else FirstReaching(offset, offsets, 0)
  }

  function FirstReaching(offset: int, offsets: seq<int>, from: nat): (i: int)
    requires from <= |offsets|
    ensures i == |offsets| - 1 || (from <= i < |offsets| && offsets[i] >= offset)
    ensures forall k | from <= k < i :: offsets[k] < offset
    decreases |offsets| - from
  {
    if from == |offsets| then |offsets| - 1
    else if offsets[from] >= offset then from
    else FirstReaching(offset, offsets, from + 1)
  }

  method CalculateCurrentIndex(offset: int, offsets: array<int>) returns (i: int)
    ensures i == CurrentIndex(offset, offsets[..])
  {
    if offset == 0 {
      return 0;
    }
    for k := 0 to offsets.Length
      invariant FirstReaching(offset, offsets[..], 0) == FirstReaching(offset, offsets[..], k)
    {
      if offsets[k] >= offset {
        return k;
      }
    }
    i := offsets.Length - 1;
  }

  /** The last of more than two titles drops season and episode when the titles
      before it have shown fewer than `minCount` items. */
  predicate Widens(titles: nat, minCount: int, idx: nat, offsets: seq<int>)
    requires idx < titles == |offsets|
  {
    titles > 2 && idx == titles - 1 && minCount > 0 && idx > 0 && offsets[idx - 1] < minCount
  }

  function RequestFor(minCount: int, idx: nat, offsets: seq<int>, offset: int): Request
    requires idx < |offsets|
  {
    Request(idx, Widens(|offsets|, minCount, idx, offsets), if idx > 0 then offset - offsets[idx - 1] else offset)
  }

  /** What one run of the search loop leaves: the merged feed, whether all requests
      succeeded, the vector, and whether it was written to the cache. */
  datatype Outcome = Outcome(merged: string, ok: bool, offsets: seq<int>, cached: bool)

  /** The feed surgery the loop calls: what is taken of one answer (item count and
      trimmed feed), and how it joins the page so far. */
  datatype FeedOps = FeedOps(take: (string, int) -> (int, string), append: (string, int, string) -> string)

  function Taken(m: Markup, xml: string, limit: int): (int, string)
    requires m.itemOpen != ""
  {
    var count := CountItems(m, xml);
    if count > limit then (limit, Trimmed(m, xml, limit)) else (count, xml)
  }

  function Append(m: Markup, merged: string, count: int, xml: string): string {
    if count > 0 || merged == "" then MergeXml(m, merged, xml) else merged
  }

  function OpsOf(m: Markup): FeedOps
    requires m.itemOpen != ""
  {
    FeedOps((xml, limit) => Taken(m, xml, limit), (merged, count, xml) => Append(m, merged, count, xml))
  }

  /** The search loop from title `idx` on. */
  function Search(ops: FeedOps, up: Upstream, minCount: int, offsets: seq<int>, idx: nat, offset: int, limit: int,
                  merged: string, cached: bool): Outcome
    requires idx <= |offsets|
    decreases |offsets| - idx
  {
    if idx == |offsets| || limit <= 0 then Outcome(merged, true, offsets, cached)
    else
      match up(RequestFor(minCount, idx, offsets, offset))
      case None => Outcome(merged, false, offsets, cached)
      case Some(xml) =>
        var (count, kept) := ops.take(xml, limit);
        Search(ops, up, minCount, offsets[idx := offset + count], idx + 1, offset + count, limit - count,
               ops.append(merged, count, kept), true)
  }

  lemma SearchUnfolds(ops: FeedOps, up: Upstream, minCount: int, offsets: seq<int>, idx: nat, offset: int, limit: int,
                      text: string, cached: bool, xml: string, n: int, kept: string)
    requires idx < |offsets| && limit > 0
    requires up(RequestFor(minCount, idx, offsets, offset)) == Some(xml) && ops.take(xml, limit) == (n, kept)
    ensures Search(ops, up, minCount, offsets, idx, offset, limit, text, cached)
         == Search(ops, up, minCount, offsets[idx := offset + n], idx + 1, offset + n, limit - n,
                   ops.append(text, n, kept), true)
  {
  }

  lemma SearchEnds(ops: FeedOps, up: Upstream, minCount: int, offsets: seq<int>, idx: nat, offset: int, limit: int,
                   text: string, cached: bool)
    requires idx <= |offsets| && (idx == |offsets| || limit <= 0)
    ensures Search(ops, up, minCount, offsets, idx, offset, limit, text, cached) == Outcome(text, true, offsets, cached)
  {
  }

  lemma SearchFails(ops: FeedOps, up: Upstream, minCount: int, offsets: seq<int>, idx: nat, offset: int, limit: int,
                    text: string, cached: bool)
    requires idx < |offsets| && limit > 0 && up(RequestFor(minCount, idx, offsets, offset)).None?
    ensures Search(ops, up, minCount, offsets, idx, offset, limit, text, cached)
         == Outcome(text, false, offsets, cached)
  {
  }

  /** The vector a request starts from: the cached one if it fits the title list. */
  function Start(entry: Option<seq<int>>, titles: nat): seq<int> {
    if entry.Some? && |entry.value| == titles then entry.value else seq(titles, _ => 0)
  }

  function Lookup<V>(cache: map<string, V>, key: string): Option<V> {
    if key in cache then Some(cache[key]) else None
  }

  /** The offset cache after a search under `key`. */
  function Stored(cache: map<string, seq<int>>, key: string, o: Outcome): map<string, seq<int>> {
    if o.cached then cache[key := o.offsets] else cache
  }

  /** What a request for `limit` items at `offset` leaves, given the vector it found. */
  function PageOf(ops: FeedOps, up: Upstream, minCount: int, titles: nat, entry: Option<seq<int>>, offset: int,
                  limit: int): Outcome
    requires titles > 0
  {
    var start := Start(entry, titles);
    Search(ops, up, minCount, start, CurrentIndex(offset, start), offset, limit, "", false)
  }

  /** The expanded search over the offset cache. */
  class ExpandedSearch {
    const ops: FeedOps
    const minCount: int
    /** The slices cached under the offset keys; a running search changes its own in place. */
    var entries: map<string, array<int>>

    constructor (m: Markup, minCount: int)
      requires m.itemOpen != ""
      ensures Valid() && Contents() == map[]
      ensures ops == OpsOf(m) && this.minCount == minCount
    {
      this.ops := OpsOf(m);
      this.minCount := minCount;
      entries := map[];
    }

    ghost predicate Valid()
      reads this
    {
      NoneShared(entries)
    }

    ghost function Contents(): map<string, seq<int>>
      reads this, entries.Values
    {
      map k | k in entries :: entries[k][..]
    }

    /** The cached vector if it fits the titles, and zeros if not. */
    method StartVector(key: string, titles: nat) returns (offsets: array<int>)
      ensures offsets[..] == Start(Lookup(Contents(), key), titles) && offsets.Length == titles
      ensures fresh(offsets) || (key in entries && offsets == entries[key])
    {
      if key !in entries || entries[key].Length != titles {
        offsets := new int[titles](_ => 0);
      } else {
        offsets := entries[key];
      }
    }

    /** The loop over the titles, from title `idx0` on. */
    method SearchTitles(up: Upstream, key: string, offsets: array<int>, idx0: nat, offset0: int, limit0: int)
      returns (merged: string, ok: bool, ghost o: Outcome)
      requires idx0 <= offsets.Length
      modifies this`entries, offsets
      ensures o == Search(ops, up, minCount, old(offsets[..]), idx0, offset0, limit0, "", false)
      ensures merged == o.merged && ok == o.ok && offsets[..] == o.offsets
      ensures entries == if o.cached then old(entries)[key := offsets] else old(entries)
      ensures !o.cached ==> o.offsets == old(offsets[..])
    {
      var idx, offset, limit := idx0, offset0, limit0;
      merged, ok := "", true;
      ghost var cached, vector := false, offsets[..];
      o := Search(ops, up, minCount, vector, idx, offset, limit, merged, cached);
      while idx < offsets.Length && limit > 0
        invariant idx <= offsets.Length && offsets[..] == vector
        invariant o == Search(ops, up, minCount, vector, idx, offset, limit, merged, cached)
        invariant entries == if cached then old(entries)[key := offsets] else old(entries)
        invariant !cached ==> vector == old(offsets[..])
      {
        var answer := up(RequestFor(minCount, idx, offsets[..], offset));
        if answer.None? {
          SearchFails(ops, up, minCount, vector, idx, offset, limit, merged, cached);
          ok := false;
          return;
        }
        var (count, kept) := ops.take(answer.value, limit);
        SearchUnfolds(ops, up, minCount, vector, idx, offset, limit, merged, cached, answer.value, count, kept);
        merged := ops.append(merged, count, kept);
        offset := offset + count;
        offsets[idx] := offset;
        vector := vector[idx := offset];
        entries := entries[key := offsets];
        cached := true;
        limit := limit - count;
        idx := idx + 1;
      }
      SearchEnds(ops, up, minCount, vector, idx, offset, limit, merged, cached);
    }

    /** The search, started with a slice that no other key has. */
    method SearchUnder(up: Upstream, key: string, offsets: array<int>, idx: nat, offset: int, limit: int)
      returns (merged: string, ok: bool, ghost o: Outcome)
      requires Valid() && idx <= offsets.Length && forall k | k in entries && k != key :: entries[k] != offsets
      modifies this`entries, offsets
      ensures o == Search(ops, up, minCount, old(offsets[..]), idx, offset, limit, "", false)
      ensures merged == o.merged && ok == o.ok
      ensures Valid() && Contents() == Stored(old(Contents()), key, o)
      ensures entries == old(entries) || entries == old(entries)[key := offsets]
    {
      merged, ok, o := SearchTitles(up, key, offsets, idx, offset, limit);
      OneSliceEach(old(entries), key, offsets);
      StoredUnder(old(Contents()), Contents(), key, o);
    }

    method Execute(indexer: Indexer, key: string, titles: nat, offset0: int, limit0: int)
        returns (merged: string, ok: bool)
      requires titles > 0 && Valid()
      modifies this, if key in entries then {entries[key]} else {}
      ensures Valid() && fresh(entries.Values - old(entries.Values))
      ensures var o := PageOf(ops, indexer(limit0), minCount, titles, Lookup(old(Contents()), key), offset0, limit0);
        && merged == o.merged && ok == o.ok && Contents() == Stored(old(Contents()), key, o)
    {
      var offsets := StartVector(key, titles);
      var idx := CalculateCurrentIndex(offset0, offsets);
      ghost var o;
      merged, ok, o := SearchUnder(indexer(limit0), key, offsets, idx, offset0, limit0);
    }
  }

  /** No slice is kept under two keys. */
  ghost predicate NoneShared(entries: map<string, array<int>>) {
    forall j, k | j in entries && k in entries && j != k :: entries[j] != entries[k]
  }

  lemma OneSliceEach(entries: map<string, array<int>>, key: string, offsets: array<int>)
    requires NoneShared(entries) && forall k | k in entries && k != key :: entries[k] != offsets
    ensures NoneShared(entries[key := offsets])
  {
  }

  /** Writing the slice of one key changes the contents under that key alone. */
  lemma StoredUnder(before: map<string, seq<int>>, now: map<string, seq<int>>, key: string, o: Outcome)
    requires now.Keys == if o.cached then before.Keys + {key} else before.Keys
    requires forall k | k in before && k != key :: now[k] == before[k]
    requires key in now ==> now[key] == if o.cached then o.offsets else before[key]
    ensures now == Stored(before, key, o)
  {
  }
}
