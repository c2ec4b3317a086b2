/** The bounded TTL cache (internal/cache/cache.go): a map and the list of its keys in
    order of insertion. */
module TtlCache {
  import opened Options

  datatype Item<T> = Item(value: T, expiresAt: int) {
    predicate Expired(now: int) {
      now > expiresAt
    }
  }

  /** The contents of a cache as a value. */
  datatype State<T> = State(m: map<string, Item<T>>, order: seq<string>) {
    /** The list names exactly the keys of the map, each once, and the bound holds. */
    ghost predicate Valid(maxEntries: nat) {
      && Distinct(order) && (forall k :: k in order <==> k in m)
      && |order| <= maxEntries
    }
  }

  ghost predicate Distinct(keys: seq<string>) {
    forall i, j | 0 <= i < j < |keys| :: keys[i] != keys[j]
  }

  function Without(keys: seq<string>, key: string): seq<string> {
    if keys == [] then []
    else if keys[0] == key then keys[1..]
    else [keys[0]] + Without(keys[1..], key)
  }

  function LiveKeys<T>(m: map<string, Item<T>>, keys: seq<string>, now: int): seq<string> {
    if keys == [] then []
    else
      var front := LiveKeys(m, keys[..|keys| - 1], now);
      var last := keys[|keys| - 1];
      if last in m && !m[last].Expired(now) then front + [last] else front
  }

  function LiveMap<T>(m: map<string, Item<T>>, now: int): map<string, Item<T>> {
    map k | k in m && !m[k].Expired(now) :: m[k]
  }

  /** What remains when the expired entries are gone. */
  function Purged<T>(s: State<T>, now: int): State<T> {
    State(LiveMap(s.m, now), LiveKeys(s.m, s.order, now))
  }

  /** What a new key finds: the expired entries have left and, if there is still no room,
      the oldest entry. */
  function Room<T>(s: State<T>, maxEntries: nat, now: int): State<T> {
    var live := Purged(s, now);
    if |live.order| < maxEntries || live.order == [] then live else Evicted(live)
  }

  function Appended<T>(s: State<T>, key: string, item: Item<T>): State<T> {
    State(s.m[key := item], s.order + [key])
  }

  /** `Set`: a known key keeps its place; a new one goes last. */
  function AfterSet<T>(s: State<T>, maxEntries: nat, ttl: int, key: string, value: T, now: int): State<T> {
    var item := Item(value, now + ttl);
    if key in s.m then State(s.m[key := item], s.order)
    else Appended(Room(s, maxEntries, now), key, item)
  }

  /** `evictOldestLocked`: keys leave the list until one leaves the map with it. */
  function Evicted<T>(s: State<T>): State<T>
    decreases |s.order|
  {
    if s.order == [] then s
    else if s.order[0] in s.m then State(s.m - {s.order[0]}, s.order[1..])
    else Evicted(State(s.m, s.order[1..]))
  }

  function AfterDelete<T>(s: State<T>, key: string): State<T> {
    State(s.m - {key}, Without(s.order, key))
  }

  lemma {:induction false} WithoutSpec(keys: seq<string>, key: string)
    requires Distinct(keys)
    ensures Distinct(Without(keys, key)) && |Without(keys, key)| <= |keys|
    ensures forall k :: k in Without(keys, key) <==> k in keys && k != key
  {
    if keys != [] {
      assert keys == [keys[0]] + keys[1..];
      if keys[0] != key {
        WithoutSpec(keys[1..], key);
        assert keys[0] !in Without(keys[1..], key);
      }
    }
  }

  lemma {:induction false} LiveKeysSpec<T>(m: map<string, Item<T>>, keys: seq<string>, now: int)
    requires Distinct(keys)
    ensures Distinct(LiveKeys(m, keys, now)) && |LiveKeys(m, keys, now)| <= |keys|
    ensures forall k :: k in LiveKeys(m, keys, now) <==> k in keys && k in m && !m[k].Expired(now)
  {
    if keys != [] {
      LiveKeysSpec(m, keys[..|keys| - 1], now);
      assert keys == keys[..|keys| - 1] + [keys[|keys| - 1]];
    }
  }

  lemma {:induction false} WithoutAt(keys: seq<string>, key: string, i: nat)
    requires i <= |keys| && (forall j | 0 <= j < i :: keys[j] != key) && (i < |keys| ==> keys[i] == key)
    ensures Without(keys, key) == if i < |keys| then keys[..i] + keys[i + 1..] else keys
  {
    if i > 0 {
      WithoutAt(keys[1..], key, i - 1);
      assert keys == [keys[0]] + keys[1..];
      assert i < |keys| ==> [keys[0]] + (keys[1..][..i - 1] + keys[1..][i..]) == keys[..i] + keys[i + 1..];
    }
  }

  lemma LiveKeysStep<T>(m: map<string, Item<T>>, keys: seq<string>, i: nat, now: int)
    requires i < |keys|
    ensures LiveKeys(m, keys[..i + 1], now)
         == LiveKeys(m, keys[..i], now) + if keys[i] in m && !m[keys[i]].Expired(now) then [keys[i]] else []
  {
    assert keys[..i + 1][..i] == keys[..i];
  }

  lemma PurgeKeepsValid<T>(s: State<T>, maxEntries: nat, now: int)
    requires s.Valid(maxEntries)
    ensures Purged(s, now).Valid(maxEntries)
  {
    LiveKeysSpec(s.m, s.order, now);
  }

  lemma EvictKeepsValid<T>(s: State<T>, maxEntries: nat)
    requires s.Valid(maxEntries) && s.order != []
    ensures Evicted(s) == State(s.m - {s.order[0]}, s.order[1..]) && Evicted(s).Valid(maxEntries - 1)
  {
    assert s.order[0] in s.order;
    assert s.order == [s.order[0]] + s.order[1..];
  }

  lemma DeleteKeepsValid<T>(s: State<T>, maxEntries: nat, key: string)
    requires s.Valid(maxEntries)
    ensures AfterDelete(s, key).Valid(maxEntries)
  {
    WithoutSpec(s.order, key);
  }

  lemma RoomIsValid<T>(s: State<T>, maxEntries: nat, now: int)
    requires s.Valid(maxEntries) && maxEntries > 0
    ensures Room(s, maxEntries, now).Valid(maxEntries - 1)
    ensures forall k | k in Room(s, maxEntries, now).m :: k in s.m && Room(s, maxEntries, now).m[k] == s.m[k]
  {
    PurgeKeepsValid(s, maxEntries, now);
    if |Purged(s, now).order| >= maxEntries {
      EvictKeepsValid(Purged(s, now), maxEntries);
    }
  }

  /** One eviction at most makes room. */
  lemma RoomAfterPurge<T>(s: State<T>, maxEntries: nat, now: int)
    requires s.Valid(maxEntries) && maxEntries > 0
    ensures var live, room := Purged(s, now), Room(s, maxEntries, now);
      && |live.m| == |live.order| && |room.m| == |room.order| < maxEntries
      && room == (if |live.m| < maxEntries then live else Evicted(live))
  {
    PurgeKeepsValid(s, maxEntries, now);
    RoomIsValid(s, maxEntries, now);
    SizeIs(Purged(s, now), maxEntries);
    SizeIs(Room(s, maxEntries, now), maxEntries - 1);
  }

  lemma AppendKeepsValid<T>(s: State<T>, maxEntries: nat, key: string, item: Item<T>)
    requires s.Valid(maxEntries) && key !in s.m
    ensures Appended(s, key, item).Valid(maxEntries + 1)
  {
    assert key !in s.order;
  }

  /** No operation breaks the agreement of map and list, nor exceeds the bound. */
  lemma StepsKeepValid<T>(s: State<T>, maxEntries: nat, ttl: int, key: string, value: T, now: int)
    requires s.Valid(maxEntries) && maxEntries > 0
    ensures Purged(s, now).Valid(maxEntries)
    ensures s.order != [] ==> Evicted(s).Valid(maxEntries - 1)
    ensures AfterDelete(s, key).Valid(maxEntries)
    ensures AfterSet(s, maxEntries, ttl, key, value, now).Valid(maxEntries)
  {
    PurgeKeepsValid(s, maxEntries, now);
    if s.order != [] {
      EvictKeepsValid(s, maxEntries);
    }
    DeleteKeepsValid(s, maxEntries, key);
    SetKeepsValid(s, maxEntries, ttl, key, value, now);
  }

  lemma SetKeepsValid<T>(s: State<T>, maxEntries: nat, ttl: int, key: string, value: T, now: int)
    requires s.Valid(maxEntries) && maxEntries > 0
    ensures AfterSet(s, maxEntries, ttl, key, value, now).Valid(maxEntries)
  {
    if key !in s.m {
      RoomIsValid(s, maxEntries, now);
      AppendKeepsValid(Room(s, maxEntries, now), maxEntries - 1, key, Item(value, now + ttl));
    }
  }

  /** The other entries that a `Set` leaves are as they were. */
  lemma SetKeepsOthers<T>(s: State<T>, maxEntries: nat, ttl: int, key: string, value: T, now: int)
    requires s.Valid(maxEntries) && maxEntries > 0
    ensures forall k | k in AfterSet(s, maxEntries, ttl, key, value, now).m && k != key ::
      k in s.m && AfterSet(s, maxEntries, ttl, key, value, now).m[k] == s.m[k]
  {
    if key !in s.m {
      RoomIsValid(s, maxEntries, now);
    }
  }

  lemma {:induction false} KeyCount(keys: seq<string>, s: set<string>)
    requires Distinct(keys) && forall k :: k in keys <==> k in s
    ensures |keys| == |s|
  {
    if keys == [] {
      assert s == {};
    } else {
      KeyCount(keys[1..], s - {keys[0]});
    }
  }

  lemma SizeIs<T>(s: State<T>, maxEntries: nat)
    requires s.Valid(maxEntries)
    ensures |s.m| == |s.order|
  {
    KeyCount(s.order, s.m.Keys);
  }

  /** The map without the expired entries of the listed keys. */
  function Dropped<T>(m: map<string, Item<T>>, keys: seq<string>, now: int): map<string, Item<T>> {
    if keys == [] then m
    else
      var front, last := Dropped(m, keys[..|keys| - 1], now), keys[|keys| - 1];
      if last in m && m[last].Expired(now) then front - {last} else front
  }

  lemma {:induction false} DroppedSpec<T>(m: map<string, Item<T>>, keys: seq<string>, now: int)
    ensures Dropped(m, keys, now).Keys <= m.Keys
    ensures forall k | k in Dropped(m, keys, now) :: Dropped(m, keys, now)[k] == m[k]
    ensures forall k | k in m :: k in Dropped(m, keys, now) <==> !(k in keys && m[k].Expired(now))
  {
    if keys != [] {
      DroppedSpec(m, keys[..|keys| - 1], now);
      assert keys == keys[..|keys| - 1] + [keys[|keys| - 1]];
    }
  }

  lemma DroppedAll<T>(s: State<T>, maxEntries: nat, now: int)
    requires s.Valid(maxEntries)
    ensures Dropped(s.m, s.order, now) == LiveMap(s.m, now)
  {
    DroppedSpec(s.m, s.order, now);
  }

  lemma DroppedStep<T>(s: State<T>, maxEntries: nat, i: nat, now: int)
    requires s.Valid(maxEntries) && i < |s.order|
    ensures s.order[i] in Dropped(s.m, s.order[..i], now) &&
      Dropped(s.m, s.order[..i], now)[s.order[i]] == s.m[s.order[i]]
    ensures Dropped(s.m, s.order[..i + 1], now) ==
      if s.m[s.order[i]].Expired(now) then Dropped(s.m, s.order[..i], now) - {s.order[i]}
      else Dropped(s.m, s.order[..i], now)
  {
    assert s.order[i] in s.order;
    DroppedSpec(s.m, s.order[..i], now);
    assert s.order[..i + 1][..i] == s.order[..i];
  }

  class Cache<T> {
    const ttl: int
    const maxEntries: nat
    var m: map<string, Item<T>>
    var order: seq<string>

    ghost function Contents(): State<T>
      reads this
    {
      State(m, order)
    }

    ghost predicate Valid()
      reads this
    {
      maxEntries > 0 && Contents().Valid(maxEntries)
    }

    constructor (ttl: int, maxEntries: int)
      ensures Valid() && Contents() == State(map[], []) && this.ttl == ttl
      ensures this.maxEntries == if maxEntries < 1 then 1 else maxEntries
    {
      this.ttl := ttl;
      this.maxEntries := if maxEntries < 1 then 1 else maxEntries;
      m := map[];
      order := [];
    }

    method RemoveExpired(now: int)
      requires Valid()
      modifies this
      ensures Valid() && Contents() == Purged(old(Contents()), now)
    {
      ghost var before := Contents();
      PurgeKeepsValid(before, maxEntries, now);
      var kept := [];
      for i := 0 to |order|
        invariant order == before.order
        invariant m == Dropped(before.m, order[..i], now)
        invariant kept == LiveKeys(before.m, order[..i], now)
      {
        var key := order[i];
        LiveKeysStep(before.m, order, i, now);
        DroppedStep(before, maxEntries, i, now);
        if key in m {
          if m[key].Expired(now) {
            m := m - {key};
          } else {
            kept := kept + [key];
          }
        }
      }
      assert order[..|order|] == order;
      DroppedAll(before, maxEntries, now);
      order := kept;
    }

    /** Drops listed keys from the front until one of them was in the map. */
    method EvictOldest()
      modifies this
      ensures Contents() == Evicted(old(Contents()))
    {
      while |order| > 0
        invariant Evicted(Contents()) == Evicted(old(Contents()))
      {
        var key := order[0];
        order := order[1..];
        if key in m {
          m := m - {key};
          return;
        }
      }
    }

    method DeleteKey(key: string)
      requires Valid()
      modifies this
      ensures Valid() && Contents() == AfterDelete(old(Contents()), key)
    {
      DeleteKeepsValid(Contents(), maxEntries, key);
      ghost var keys := order;
      m := m - {key};
      for i := 0 to |order|
        invariant order == keys && m == old(m) - {key}
        invariant forall j | 0 <= j < i :: keys[j] != key
      {
        if order[i] == key {
          WithoutAt(order, key, i);
          order := order[..i] + order[i + 1..];
          return;
        }
      }
      WithoutAt(order, key, |order|);
    }

    method Set(key: string, value: T, now: int)
      requires Valid()
      modifies this
      ensures Valid() && Contents() == AfterSet(old(Contents()), maxEntries, ttl, key, value, now)
    {
      ghost var before := Contents();
      SetKeepsValid(before, maxEntries, ttl, key, value, now);
      if key in m {
        m := m[key := Item(value, now + ttl)];
        return;
      }
      RoomAfterPurge(before, maxEntries, now);
      RemoveExpired(now);
      while |m| >= maxEntries
        invariant Contents() == if |m| < maxEntries then Room(before, maxEntries, now) else Purged(before, now)
        decreases |m|
      {
        EvictOldest();
      }
      order := order + [key];
      m := m[key := Item(value, now + ttl)];
    }

    method Delete(key: string)
      requires Valid()
      modifies this
      ensures Valid() && Contents() == AfterDelete(old(Contents()), key)
    {
      DeleteKey(key);
    }

    method Clear()
      requires Valid()
      modifies this
      ensures Valid() && Contents() == State(map[], [])
    {
      m := map[];
      order := [];
    }

    /** The part of `Get` under the read lock: the entry, if there is one. */
    method Peek(key: string) returns (item: Option<Item<T>>)
      ensures item == if key in m then Some(m[key]) else None
    {
      item := if key in m then Some(m[key]) else None;
    }

    method Get(key: string, now: int) returns (value: Option<T>)
      requires Valid()
      modifies this
      ensures Valid() && value == Found(old(Contents()), key, now)
      ensures key in old(m) && !old(m)[key].Expired(now) ==>
        value == Some(old(m)[key].value) && Contents() == old(Contents())
      ensures key in old(m) && old(m)[key].Expired(now) ==>
        value == None && Contents() == AfterDelete(old(Contents()), key)
      ensures key !in old(m) ==> value == None && Contents() == old(Contents())
    {
      var item := Peek(key);
      if item.None? {
        return None;
      }
      if item.value.Expired(now) {
        DeleteKey(key);
        return None;
      }
      value := Some(item.value.value);
    }
  }

  /** A `Set` drops at most one entry that has not expired: the oldest, and only from a full cache. */
  lemma SetDropsOnlyOldest<T>(s: State<T>, maxEntries: nat, ttl: int, key: string, value: T, now: int, lost: string)
    requires s.Valid(maxEntries) && maxEntries > 0
    requires lost in s.m && !s.m[lost].Expired(now)
    requires lost !in AfterSet(s, maxEntries, ttl, key, value, now).m
    ensures key !in s.m && |Purged(s, now).order| == maxEntries && lost == Purged(s, now).order[0]
  {
    PurgeKeepsValid(s, maxEntries, now);
    if Purged(s, now).order != [] {
      EvictKeepsValid(Purged(s, now), maxEntries);
    }
  }

  // ----- Histories: any interleaving of the locked sections -----

  /** One locked section. `Get` has two: reading an entry, and deleting the key it found
      expired; others may run in between. */
  datatype Event<T> =
    | SetEvent(key: string, value: T, now: int)
    | DeleteEvent(key: string)
    | ClearEvent
    | ReadEvent(key: string)
    | ExpireEvent(key: string)

  function Apply<T>(s: State<T>, maxEntries: nat, ttl: int, e: Event<T>): State<T> {
    match e
    case SetEvent(key, value, now) => AfterSet(s, maxEntries, ttl, key, value, now)
    case DeleteEvent(key) => AfterDelete(s, key)
    case ClearEvent => State(map[], [])
    case ReadEvent(_) => s
    case ExpireEvent(key) => AfterDelete(s, key)
  }

  function Run<T>(maxEntries: nat, ttl: int, h: seq<Event<T>>): State<T> {
    if h == [] then State(map[], [])
    else Apply(Run(maxEntries, ttl, h[..|h| - 1]), maxEntries, ttl, h[|h| - 1])
  }

  // ----- What each event does to the entry of one key -----

  /** The event brings or renews the entry under `key`. */
  predicate SetsKey<T>(e: Event<T>, key: string) {
    e.SetEvent? && e.key == key
  }

  /** The event names the entry under `key` for removal. */
  predicate RemovesKey<T>(e: Event<T>, key: string) {
    e.ClearEvent? || ((e.DeleteEvent? || e.ExpireEvent?) && e.key == key)
  }

  /** Another key is new, and makes the entry leave: it has expired, or it is the oldest of a
      full list of entries that have not. */
  ghost predicate MakesWay<T>(s: State<T>, maxEntries: nat, e: Event<T>, key: string)
    requires key in s.m
  {
    e.SetEvent? && e.key !in s.m
    && (s.m[key].Expired(e.now)
        || (|Purged(s, e.now).order| >= maxEntries && OldestLive(s, e.now, key)))
  }

  /** All entries listed before `key` have expired. */
  ghost predicate OldestLive<T>(s: State<T>, now: int, key: string) {
    exists i :: 0 <= i < |s.order| && s.order[i] == key
      && forall j | 0 <= j < i :: s.order[j] in s.m && s.m[s.order[j]].Expired(now)
  }

  lemma {:induction false} FirstLive<T>(s: State<T>, n: nat, now: int) returns (i: nat)
    requires n <= |s.order| && LiveKeys(s.m, s.order[..n], now) != []
    requires forall k | k in s.order :: k in s.m
    ensures i < n && s.order[i] == LiveKeys(s.m, s.order[..n], now)[0]
    ensures !s.m[s.order[i]].Expired(now) && forall j | 0 <= j < i :: s.m[s.order[j]].Expired(now)
  {
    assert s.order[..n][..n - 1] == s.order[..n - 1];
    if LiveKeys(s.m, s.order[..n - 1], now) == [] {
      i := n - 1;
      NoneLive(s, n - 1, now);
    } else {
      i := FirstLive(s, n - 1, now);
    }
  }

  lemma {:induction false} NoneLive<T>(s: State<T>, n: nat, now: int)
    requires n <= |s.order| && LiveKeys(s.m, s.order[..n], now) == []
    requires forall k | k in s.order :: k in s.m
    ensures forall j | 0 <= j < n :: s.m[s.order[j]].Expired(now)
  {
    if n > 0 {
      assert s.order[..n][..n - 1] == s.order[..n - 1];
      NoneLive(s, n - 1, now);
    }
  }

  /** The oldest entry that has not expired is the first of the purged list. */
  lemma OldestIsFirst<T>(s: State<T>, maxEntries: nat, now: int, key: string)
    requires s.Valid(maxEntries) && key in s.m && !s.m[key].Expired(now)
    ensures Purged(s, now).order != []
    ensures OldestLive(s, now, key) <==> Purged(s, now).order[0] == key
  {
    LiveKeysSpec(s.m, s.order, now);
    assert key in LiveKeys(s.m, s.order, now);
    assert s.order[..|s.order|] == s.order;
    var i := FirstLive(s, |s.order|, now);
    if OldestLive(s, now, key) {
      var k :| 0 <= k < |s.order| && s.order[k] == key
        && forall j | 0 <= j < k :: s.order[j] in s.m && s.m[s.order[j]].Expired(now);
      assert i == k;
    }
  }

  /** What a new key leaves of the other entries. */
  lemma RoomKeeps<T>(s: State<T>, maxEntries: nat, now: int, key: string)
    requires s.Valid(maxEntries) && maxEntries > 0 && key in s.m && !s.m[key].Expired(now)
    ensures key in Room(s, maxEntries, now).m <==>
      !(|Purged(s, now).order| >= maxEntries && OldestLive(s, now, key))
  {
    OldestIsFirst(s, maxEntries, now, key);
    PurgeKeepsValid(s, maxEntries, now);
    EvictKeepsValid(Purged(s, now), maxEntries);
  }

  lemma RoomDrops<T>(s: State<T>, maxEntries: nat, now: int, key: string)
    requires s.Valid(maxEntries) && maxEntries > 0 && key in s.m && s.m[key].Expired(now)
    ensures key !in Room(s, maxEntries, now).m
  {
    PurgeKeepsValid(s, maxEntries, now);
    if Purged(s, now).order != [] {
      EvictKeepsValid(Purged(s, now), maxEntries);
    }
  }

  lemma SetLoses<T>(s: State<T>, maxEntries: nat, ttl: int, e: Event<T>, key: string)
    requires s.Valid(maxEntries) && maxEntries > 0 && e.SetEvent? && key in s.m && key != e.key
    ensures key !in AfterSet(s, maxEntries, ttl, e.key, e.value, e.now).m <==> MakesWay(s, maxEntries, e, key)
  {
    if e.key !in s.m {
      if s.m[key].Expired(e.now) {
        RoomDrops(s, maxEntries, e.now, key);
      } else {
        RoomKeeps(s, maxEntries, e.now, key);
      }
    }
  }

  /** One event, one key: when its entry is there afterwards and what it then holds. */
  lemma EventOnKey<T>(s: State<T>, maxEntries: nat, ttl: int, e: Event<T>, key: string)
    requires s.Valid(maxEntries) && maxEntries > 0
    ensures var t := Apply(s, maxEntries, ttl, e);
      && (key in t.m <==>
            SetsKey(e, key) || (key in s.m && !RemovesKey(e, key) && !MakesWay(s, maxEntries, e, key)))
      && (key in t.m ==> t.m[key] == if SetsKey(e, key) then Item(e.value, e.now + ttl) else s.m[key])
  {
    if e.SetEvent? && key != e.key {
      SetKeepsOthers(s, maxEntries, ttl, e.key, e.value, e.now);
      if key in s.m {
        SetLoses(s, maxEntries, ttl, e, key);
      }
    }
  }

  // ----- The same over histories -----

  /** What callers have asked to be stored under `key`, and when: the last `Set` since the
      last `Delete` or `Clear`. No cache is involved. */
  function Latest<T>(h: seq<Event<T>>, key: string): Option<(T, int)> {
    if h == [] then None
    else
      var before := Latest(h[..|h| - 1], key);
      match h[|h| - 1]
      case SetEvent(k, value, now) => if k == key then Some((value, now)) else before
      case DeleteEvent(k) => if k == key then None else before
      case ClearEvent => None
      case ReadEvent(_) => before
      case ExpireEvent(_) => before
  }

  /** The entry holds the latest value asked for, until `ttl` after it was set. */
  ghost predicate IsLatest<T>(maxEntries: nat, ttl: int, h: seq<Event<T>>, key: string) {
    key in Run(maxEntries, ttl, h).m ==>
      && Latest(h, key).Some?
      && Run(maxEntries, ttl, h).m[key] == Item(Latest(h, key).value.0, Latest(h, key).value.1 + ttl)
  }

  /** In every history map and list agree within the bound, and an entry that is there
      holds the latest value asked for and expires `ttl` after it was set. */
  lemma {:induction false} EntriesAreLatest<T>(maxEntries: nat, ttl: int, h: seq<Event<T>>)
    requires maxEntries > 0
    ensures Run(maxEntries, ttl, h).Valid(maxEntries)
    ensures forall key :: IsLatest(maxEntries, ttl, h, key)
  {
    if h != [] {
      EntriesAreLatest(maxEntries, ttl, h[..|h| - 1]);
      var s, e := Run(maxEntries, ttl, h[..|h| - 1]), h[|h| - 1];
      ApplyKeepsValid(s, maxEntries, ttl, e);
      forall key ensures IsLatest(maxEntries, ttl, h, key) {
        assert IsLatest(maxEntries, ttl, h[..|h| - 1], key);
        EventOnKey(s, maxEntries, ttl, e, key);
      }
    }
  }

  lemma ApplyKeepsValid<T>(s: State<T>, maxEntries: nat, ttl: int, e: Event<T>)
    requires s.Valid(maxEntries) && maxEntries > 0
    ensures Apply(s, maxEntries, ttl, e).Valid(maxEntries)
  {
    match e
    case SetEvent(key, value, now) => SetKeepsValid(s, maxEntries, ttl, key, value, now);
    case DeleteEvent(key) => DeleteKeepsValid(s, maxEntries, key);
    case ClearEvent =>
    case ReadEvent(_) =>
    case ExpireEvent(key) => DeleteKeepsValid(s, maxEntries, key);
  }

  /** What `Get` returns at a time. */
  function Found<T>(s: State<T>, key: string, now: int): Option<T> {
    if key in s.m && !s.m[key].Expired(now) then Some(s.m[key].value) else None
  }

  /** Events that neither set nor remove the entry under `key`. */
  ghost predicate LeavesAlone<T>(h: seq<Event<T>>, from: nat, key: string) {
    forall i | from <= i < |h| :: !SetsKey(h[i], key) && !RemovesKey(h[i], key)
  }

  /** Event `i` makes the entry under `key` leave for a new key. */
  ghost predicate LeavesAt<T>(maxEntries: nat, ttl: int, h: seq<Event<T>>, i: nat, key: string)
    requires i < |h|
  {
    var s := Run(maxEntries, ttl, h[..i]);
    key in s.m && MakesWay(s, maxEntries, h[i], key)
  }

  /** The entry set by event `p` is there unless some new key made it leave. */
  ghost predicate Lasts<T>(maxEntries: nat, ttl: int, h: seq<Event<T>>, p: nat)
    requires p < |h| && h[p].SetEvent?
  {
    var s, key := Run(maxEntries, ttl, h), h[p].key;
    && (key in s.m <==> NeverLeaves(maxEntries, ttl, h, p, key))
    && (key in s.m ==> s.m[key] == Item(h[p].value, h[p].now + ttl))
  }

  ghost predicate NeverLeaves<T>(maxEntries: nat, ttl: int, h: seq<Event<T>>, p: nat, key: string) {
    forall i | p < i < |h| :: !LeavesAt(maxEntries, ttl, h, i, key)
  }

  lemma LeavesLater<T>(maxEntries: nat, ttl: int, h: seq<Event<T>>, p: nat, key: string)
    requires p < |h| - 1
    ensures NeverLeaves(maxEntries, ttl, h, p, key) <==>
      NeverLeaves(maxEntries, ttl, h[..|h| - 1], p, key) && !LeavesAt(maxEntries, ttl, h, |h| - 1, key)
  {
    var n := |h| - 1;
    forall i | 0 <= i < n ensures LeavesAt(maxEntries, ttl, h, i, key) <==> LeavesAt(maxEntries, ttl, h[..n], i, key) {
      assert h[..n][..i] == h[..i];
    }
  }

  /** After a `Set` at time `t`, while nobody sets or removes the key, its entry is there unless
      some new key made it leave, and holds the value until `t + ttl`. */
  lemma {:induction false} EntryLasts<T>(maxEntries: nat, ttl: int, h: seq<Event<T>>, p: nat)
    requires maxEntries > 0 && p < |h| && h[p].SetEvent? && LeavesAlone(h, p + 1, h[p].key)
    ensures Lasts(maxEntries, ttl, h, p)
    decreases |h|
  {
    var n := |h| - 1;
    EntriesAreLatest(maxEntries, ttl, h[..n]);
    EventOnKey(Run(maxEntries, ttl, h[..n]), maxEntries, ttl, h[n], h[p].key);
    if p < n {
      EntryLasts(maxEntries, ttl, h[..n], p);
      LeavesLater(maxEntries, ttl, h, p, h[p].key);
    }
  }

  /** So a `Get` at time `now` returns the value exactly when no new key made the entry leave
      and `now` is no later than `t + ttl`; it never returns another one. */
  lemma GetAfterSet<T>(maxEntries: nat, ttl: int, h: seq<Event<T>>, p: nat, now: int)
    requires maxEntries > 0 && p < |h| && h[p].SetEvent? && LeavesAlone(h, p + 1, h[p].key)
    ensures Found(Run(maxEntries, ttl, h), h[p].key, now)
         == if now <= h[p].now + ttl && NeverLeaves(maxEntries, ttl, h, p, h[p].key) then Some(h[p].value) else None
  {
    EntryLasts(maxEntries, ttl, h, p);
  }

  /** When the entry under `key` was inserted: the event that made it appear. */
  function Born<T>(maxEntries: nat, ttl: int, h: seq<Event<T>>, key: string): int {
    if h == [] then -1
    else
      var before := h[..|h| - 1];
      match h[|h| - 1]
      case SetEvent(k, _, _) => if k == key && key !in Run(maxEntries, ttl, before).m then |before|
                                else Born(maxEntries, ttl, before, key)
      case _ => Born(maxEntries, ttl, before, key)
  }

  /** `keys` are listed from the oldest insertion to the newest. */
  ghost predicate ByAge<T>(maxEntries: nat, ttl: int, h: seq<Event<T>>, keys: seq<string>) {
    && (forall i | 0 <= i < |keys| :: Born(maxEntries, ttl, h, keys[i]) < |h|)
    && (forall i, j | 0 <= i < j < |keys| :: Born(maxEntries, ttl, h, keys[i]) < Born(maxEntries, ttl, h, keys[j]))
  }

  /** `small` lists some of the keys of `keys` in the same order. */
  ghost predicate Sublist(small: seq<string>, keys: seq<string>, at: seq<int>) {
    && |at| == |small|
    && (forall i | 0 <= i < |at| :: 0 <= at[i] < |keys| && small[i] == keys[at[i]])
    && (forall i, j | 0 <= i < j < |at| :: at[i] < at[j])
  }

  lemma {:induction false} LiveKeysSublist<T>(m: map<string, Item<T>>, keys: seq<string>, now: int)
      returns (at: seq<int>)
    ensures Sublist(LiveKeys(m, keys, now), keys, at)
  {
    if keys == [] {
      at := [];
    } else {
      var n := |keys| - 1;
      at := LiveKeysSublist(m, keys[..n], now);
      if keys[n] in m && !m[keys[n]].Expired(now) {
        at := at + [n];
      }
    }
  }

  function ShiftedBy1(at: seq<int>): (r: seq<int>)
    ensures |r| == |at| && forall i | 0 <= i < |at| :: r[i] == at[i] + 1
  {
    seq(|at|, i requires 0 <= i < |at| => at[i] + 1)
  }

  lemma SublistBehind(small: seq<string>, keys: seq<string>, at: seq<int>)
    requires keys != [] && Sublist(small, keys[1..], at)
    ensures Sublist([keys[0]] + small, keys, [0] + ShiftedBy1(at))
  {
    forall i | 0 <= i < |at| ensures small[i] == keys[ShiftedBy1(at)[i]] {
    }
  }

  lemma SublistOfRest(keys: seq<string>)
    requires keys != []
    ensures Sublist(keys[1..], keys, seq(|keys| - 1, i => i + 1))
  {
  }

  lemma {:induction false} WithoutSublist(keys: seq<string>, key: string) returns (at: seq<int>)
    ensures Sublist(Without(keys, key), keys, at)
  {
    if keys == [] {
      at := [];
    } else if keys[0] == key {
      at := seq(|keys| - 1, i => i + 1);
      SublistOfRest(keys);
    } else {
      at := WithoutSublist(keys[1..], key);
      SublistBehind(Without(keys[1..], key), keys, at);
      at := [0] + ShiftedBy1(at);
    }
  }

  lemma SublistByAge<T>(maxEntries: nat, ttl: int, h: seq<Event<T>>, keys: seq<string>, small: seq<string>,
                        at: seq<int>)
    requires ByAge(maxEntries, ttl, h, keys) && Sublist(small, keys, at)
    ensures ByAge(maxEntries, ttl, h, small)
  {
  }

  /** A new event leaves the ages of the keys alone that it does not insert. */
  lemma AgesCarryOver<T>(maxEntries: nat, ttl: int, h: seq<Event<T>>, keys: seq<string>)
    requires h != [] && ByAge(maxEntries, ttl, h[..|h| - 1], keys)
    requires forall k | k in keys :: h[|h| - 1].SetEvent? && h[|h| - 1].key == k ==>
      k in Run(maxEntries, ttl, h[..|h| - 1]).m
    ensures ByAge(maxEntries, ttl, h, keys)
  {
    forall i | 0 <= i < |keys|
      ensures Born(maxEntries, ttl, h, keys[i]) == Born(maxEntries, ttl, h[..|h| - 1], keys[i])
    {
      assert keys[i] in keys;
    }
  }

  /** The list that a new key finds is part of the list before. */
  lemma RoomSublist<T>(s: State<T>, maxEntries: nat, now: int) returns (at: seq<int>)
    requires s.Valid(maxEntries) && maxEntries > 0
    ensures Sublist(Room(s, maxEntries, now).order, s.order, at)
  {
    at := LiveKeysSublist(s.m, s.order, now);
    if |Purged(s, now).order| >= maxEntries {
      PurgeKeepsValid(s, maxEntries, now);
      EvictKeepsValid(Purged(s, now), maxEntries);
      at := at[1..];
    }
  }

  /** In every history the list runs from the oldest entry to the newest, so the entry a
      full cache drops is the oldest of those not expired. */
  lemma {:induction false} OrderIsByAge<T>(maxEntries: nat, ttl: int, h: seq<Event<T>>)
    requires maxEntries > 0
    ensures ByAge(maxEntries, ttl, h, Run(maxEntries, ttl, h).order)
  {
    if h != [] {
      var before, e := h[..|h| - 1], h[|h| - 1];
      OrderIsByAge(maxEntries, ttl, before);
      EntriesAreLatest(maxEntries, ttl, before);
      var s := Run(maxEntries, ttl, before);
      var kept, at := s.order, seq(|s.order|, i => i);
      if e.SetEvent? && e.key !in s.m {
        kept := Room(s, maxEntries, e.now).order;
        at := RoomSublist(s, maxEntries, e.now);
      } else if e.DeleteEvent? || e.ExpireEvent? {
        kept := Without(s.order, e.key);
        at := WithoutSublist(s.order, e.key);
      } else if e.ClearEvent? {
        kept, at := [], [];
      }
      SublistByAge(maxEntries, ttl, before, s.order, kept, at);
      AgesCarryOver(maxEntries, ttl, h, kept);
    }
  }
}
