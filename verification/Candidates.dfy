/** Database titles as search candidates (internal/search/candidate.go). Strings stand for
    byte sequences, so that their length and order are Go's. */
module Candidates {
  import opened Decimal

  /** Which of the two managers a search or a configuration is for. */
  datatype Kind = Sonarr | Radarr

  datatype Candidate = Candidate(query: string, mainTitle: string, seasonNumber: int, year: int)

  datatype SonarrRow = SonarrRow(mainTitle: string, title: string, cleanTitle: string, seasonNumber: int,
                                 monitored: bool)

  datatype RadarrRow = RadarrRow(tmdbID: int, sno: int, mainTitle: string, title: string, cleanTitle: string,
                                 year: int, monitored: bool)

  // ----- Comparators -----

  /** `cmp.Compare` on integers. */
  function CompareInts(a: int, b: int): int {
    if a < b then -1 else if a > b then 1 else 0
  }

  /** `cmp.Compare` on strings. */
  function CompareStrings(a: string, b: string): int {
    if a == "" then (if b == "" then 0 else -1)
    else if b == "" then 1
    else if a[0] != b[0] then (if a[0] < b[0] then -1 else 1)
    else CompareStrings(a[1..], b[1..])
  }

  function CompareMonitored(a: bool, b: bool): int {
    if a != b then (if a then -1 else 1) else 0
  }

  function CompareSonarrRows(left: SonarrRow, right: SonarrRow): int {
    var monitored := CompareMonitored(left.monitored, right.monitored);
    if monitored != 0 then monitored else
    var length := CompareInts(|right.title|, |left.title|);
    if length != 0 then length else
    var title := CompareStrings(left.title, right.title);
    if title != 0 then title else
    var main := CompareStrings(left.mainTitle, right.mainTitle);
    if main != 0 then main else
    var clean := CompareStrings(left.cleanTitle, right.cleanTitle);
    if clean != 0 then clean else CompareInts(left.seasonNumber, right.seasonNumber)
  }

  function CompareRadarrRows(left: RadarrRow, right: RadarrRow): int {
    var monitored := CompareMonitored(left.monitored, right.monitored);
    if monitored != 0 then monitored else
    var tmdb := CompareInts(left.tmdbID, right.tmdbID);
    if tmdb != 0 then tmdb else
    var sno := CompareInts(left.sno, right.sno);
    if sno != 0 then sno else
    var title := CompareStrings(left.title, right.title);
    if title != 0 then title else
    var main := CompareStrings(left.mainTitle, right.mainTitle);
    if main != 0 then main else
    var year := CompareInts(left.year, right.year);
    if year != 0 then year else CompareStrings(left.cleanTitle, right.cleanTitle)
  }

  /** A comparison that tells all values apart and orders them. */
  ghost predicate TotalOrder<T(!new)>(compare: (T, T) -> int) {
    && (forall a, b :: compare(a, b) == 0 <==> a == b)
    && (forall a, b :: compare(a, b) < 0 <==> compare(b, a) > 0)
    && (forall a, b, c :: compare(a, b) < 0 && compare(b, c) < 0 ==> compare(a, c) < 0)
  }

  lemma {:induction false} StringsFlip(a: string, b: string)
    ensures CompareStrings(a, b) == -CompareStrings(b, a)
    ensures CompareStrings(a, b) == 0 <==> a == b
  {
    if a != "" && b != "" {
      StringsFlip(a[1..], b[1..]);
      assert a == [a[0]] + a[1..] && b == [b[0]] + b[1..];
    }
  }

  lemma {:induction false} StringsChain(a: string, b: string, c: string)
    requires CompareStrings(a, b) <= 0 && CompareStrings(b, c) <= 0
    ensures CompareStrings(a, c) <= 0
    ensures CompareStrings(a, c) == 0 ==> CompareStrings(a, b) == 0 && CompareStrings(b, c) == 0
  {
    if a != "" && b != "" && c != "" && a[0] == b[0] == c[0] {
      StringsChain(a[1..], b[1..], c[1..]);
    }
  }

  lemma SonarrOrder()
    ensures TotalOrder(CompareSonarrRows)
  {
    forall a, b ensures CompareSonarrRows(a, b) == 0 <==> a == b {
      SonarrFlip(a, b);
    }
    forall a, b ensures CompareSonarrRows(a, b) < 0 <==> CompareSonarrRows(b, a) > 0 {
      SonarrFlip(a, b);
    }
    forall a, b, c | CompareSonarrRows(a, b) < 0 && CompareSonarrRows(b, c) < 0 ensures CompareSonarrRows(a, c) < 0 {
      SonarrChain(a, b, c);
    }
  }

  lemma SonarrFlip(a: SonarrRow, b: SonarrRow)
    ensures CompareSonarrRows(a, b) == 0 <==> a == b
    ensures CompareSonarrRows(a, b) < 0 <==> CompareSonarrRows(b, a) > 0
  {
    StringsFlip(a.title, b.title);
    StringsFlip(a.mainTitle, b.mainTitle);
    StringsFlip(a.cleanTitle, b.cleanTitle);
  }

  /** Strings below each other in a chain. */
  lemma StringsAlong(a: string, b: string, c: string)
    ensures CompareStrings(a, b) <= 0 && CompareStrings(b, c) <= 0 ==>
      CompareStrings(a, c) <= 0 && (CompareStrings(a, c) == 0 ==>
                                    CompareStrings(a, b) == 0 && CompareStrings(b, c) == 0)
    ensures CompareStrings(a, b) == 0 && CompareStrings(b, c) == 0 ==> CompareStrings(a, c) == 0
  {
    StringsFlip(a, b);
    StringsFlip(b, c);
    StringsFlip(a, c);
    if CompareStrings(a, b) <= 0 && CompareStrings(b, c) <= 0 {
      StringsChain(a, b, c);
    }
  }

  lemma SonarrChain(a: SonarrRow, b: SonarrRow, c: SonarrRow)
    requires CompareSonarrRows(a, b) < 0 && CompareSonarrRows(b, c) < 0
    ensures CompareSonarrRows(a, c) < 0
  {
    StringsAlong(a.title, b.title, c.title);
    StringsAlong(a.mainTitle, b.mainTitle, c.mainTitle);
    StringsAlong(a.cleanTitle, b.cleanTitle, c.cleanTitle);
  }

  lemma RadarrOrder()
    ensures TotalOrder(CompareRadarrRows)
  {
    forall a, b ensures CompareRadarrRows(a, b) == 0 <==> a == b {
      RadarrFlip(a, b);
    }
    forall a, b ensures CompareRadarrRows(a, b) < 0 <==> CompareRadarrRows(b, a) > 0 {
      RadarrFlip(a, b);
    }
    forall a, b, c | CompareRadarrRows(a, b) < 0 && CompareRadarrRows(b, c) < 0 ensures CompareRadarrRows(a, c) < 0 {
      RadarrChain(a, b, c);
    }
  }

  lemma RadarrFlip(a: RadarrRow, b: RadarrRow)
    ensures CompareRadarrRows(a, b) == 0 <==> a == b
    ensures CompareRadarrRows(a, b) < 0 <==> CompareRadarrRows(b, a) > 0
  {
    StringsFlip(a.title, b.title);
    StringsFlip(a.mainTitle, b.mainTitle);
    StringsFlip(a.cleanTitle, b.cleanTitle);
  }

  lemma RadarrChain(a: RadarrRow, b: RadarrRow, c: RadarrRow)
    requires CompareRadarrRows(a, b) < 0 && CompareRadarrRows(b, c) < 0
    ensures CompareRadarrRows(a, c) < 0
  {
    StringsAlong(a.title, b.title, c.title);
    StringsAlong(a.mainTitle, b.mainTitle, c.mainTitle);
    StringsAlong(a.cleanTitle, b.cleanTitle, c.cleanTitle);
  }

  // ----- Sorting -----

  ghost predicate Sorted<T>(rows: seq<T>, compare: (T, T) -> int) {
    forall i, j | 0 <= i < j < |rows| :: compare(rows[i], rows[j]) <= 0
  }

  /** What `slices.SortFunc` promises; it is not stable. */
  ghost predicate SortOf<T>(ordered: seq<T>, rows: seq<T>, compare: (T, T) -> int) {
    Sorted(ordered, compare) && multiset(ordered) == multiset(rows)
  }

  lemma FirstOfSorted<T(!new)>(a: seq<T>, b: seq<T>, compare: (T, T) -> int)
    requires TotalOrder(compare) && Sorted(a, compare) && multiset(a) == multiset(b) && a != [] && b != []
    ensures compare(a[0], b[0]) <= 0
  {
    assert b[0] in multiset(b);
    assert b[0] in a;
    var i :| 0 <= i < |a| && a[i] == b[0];
    assert i == 0 ==> compare(a[0], b[0]) == 0;
  }

  lemma SameFirst<T(!new)>(a: seq<T>, b: seq<T>, compare: (T, T) -> int)
    requires TotalOrder(compare) && Sorted(a, compare) && Sorted(b, compare) && multiset(a) == multiset(b) &&
      a != [] && b != []
    ensures a[0] == b[0]
  {
    FirstOfSorted(a, b, compare);
    FirstOfSorted(b, a, compare);
  }

  lemma SameRest<T>(a: seq<T>, b: seq<T>)
    requires a != [] && b != [] && a[0] == b[0] && multiset(a) == multiset(b)
    ensures multiset(a[1..]) == multiset(b[1..])
  {
    assert a == [a[0]] + a[1..] && b == [b[0]] + b[1..];
    assert multiset(a[1..]) == multiset(a) - multiset{a[0]};
  }

  lemma SortedRest<T>(a: seq<T>, compare: (T, T) -> int)
    requires a != [] && Sorted(a, compare)
    ensures Sorted(a[1..], compare)
  {
  }

  /** A total order leaves only one sorted arrangement. */
  lemma {:induction false} OneSortedOrder<T(!new)>(a: seq<T>, b: seq<T>, compare: (T, T) -> int)
    requires TotalOrder(compare) && Sorted(a, compare) && Sorted(b, compare) && multiset(a) == multiset(b)
    ensures a == b
    decreases |a|
  {
    assert |multiset(a)| == |a| && |multiset(b)| == |b|;
    if a != [] {
      SameFirst(a, b, compare);
      SameRest(a, b);
      SortedRest(a, compare);
      SortedRest(b, compare);
      OneSortedOrder(a[1..], b[1..], compare);
      assert a == [a[0]] + a[1..] && b == [b[0]] + b[1..];
    }
  }

  /** A sorted arrangement; the sort of Go's library may reach it in any way. */
  function SortFunc<T(!new)>(rows: seq<T>, compare: (T, T) -> int): seq<T> {
    if rows == [] then [] else Insert(SortFunc(rows[1..], compare), rows[0], compare)
  }

  function Insert<T(!new)>(ordered: seq<T>, x: T, compare: (T, T) -> int): seq<T> {
    if ordered == [] || compare(x, ordered[0]) <= 0 then [x] + ordered
    else [ordered[0]] + Insert(ordered[1..], x, compare)
  }

  lemma {:induction false} InsertMembers<T(!new)>(ordered: seq<T>, x: T, compare: (T, T) -> int)
    ensures multiset(Insert(ordered, x, compare)) == multiset(ordered) + multiset{x}
  {
    if ordered != [] && compare(x, ordered[0]) > 0 {
      InsertMembers(ordered[1..], x, compare);
      assert ordered == [ordered[0]] + ordered[1..];
    }
  }

  lemma Below<T(!new)>(a: T, b: T, c: T, compare: (T, T) -> int)
    requires TotalOrder(compare) && compare(a, b) <= 0 && compare(b, c) <= 0
    ensures compare(a, c) <= 0
  {
    assert compare(a, b) == 0 ==> a == b;
    assert compare(b, c) == 0 ==> b == c;
  }

  /** `low` is not above anything in `rows`. */
  ghost predicate LowerBound<T>(low: T, rows: seq<T>, compare: (T, T) -> int) {
    forall i | 0 <= i < |rows| :: compare(low, rows[i]) <= 0
  }

  lemma {:induction false} InsertAbove<T(!new)>(low: T, ordered: seq<T>, x: T, compare: (T, T) -> int)
    requires LowerBound(low, ordered, compare) && compare(low, x) <= 0
    ensures LowerBound(low, Insert(ordered, x, compare), compare)
  {
    if ordered != [] && compare(x, ordered[0]) > 0 {
      InsertAbove(low, ordered[1..], x, compare);
    }
  }

  lemma SortedCons<T>(x: T, rows: seq<T>, compare: (T, T) -> int)
    requires LowerBound(x, rows, compare) && Sorted(rows, compare)
    ensures Sorted([x] + rows, compare)
  {
  }

  lemma {:induction false} InsertSorted<T(!new)>(ordered: seq<T>, x: T, compare: (T, T) -> int)
    requires TotalOrder(compare) && Sorted(ordered, compare)
    ensures Sorted(Insert(ordered, x, compare), compare)
  {
    if ordered == [] {
      SortedCons(x, ordered, compare);
    } else if compare(x, ordered[0]) <= 0 {
      forall i | 0 <= i < |ordered| ensures compare(x, ordered[i]) <= 0 {
        if i > 0 {
          Below(x, ordered[0], ordered[i], compare);
        }
      }
      SortedCons(x, ordered, compare);
    } else {
      SortedRest(ordered, compare);
      InsertSorted(ordered[1..], x, compare);
      assert LowerBound(ordered[0], ordered[1..], compare);
      assert compare(ordered[0], x) <= 0;
      InsertAbove(ordered[0], ordered[1..], x, compare);
      SortedCons(ordered[0], Insert(ordered[1..], x, compare), compare);
    }
  }

  lemma {:induction false} SortFuncSorts<T(!new)>(rows: seq<T>, compare: (T, T) -> int)
    requires TotalOrder(compare)
    ensures SortOf(SortFunc(rows, compare), rows, compare)
  {
    if rows != [] {
      SortFuncSorts(rows[1..], compare);
      InsertMembers(SortFunc(rows[1..], compare), rows[0], compare);
      InsertSorted(SortFunc(rows[1..], compare), rows[0], compare);
      assert rows == [rows[0]] + rows[1..];
    }
  }

  // ----- Candidates -----

  predicate HasQuery(candidates: seq<Candidate>, query: string) {
    exists i :: 0 <= i < |candidates| && candidates[i].query == query
  }

  /** The first candidate of each query. */
  function FirstOfEachQuery(candidates: seq<Candidate>): seq<Candidate> {
    if candidates == [] then []
    else
      var before, last := candidates[..|candidates| - 1], candidates[|candidates| - 1];
      if HasQuery(before, last.query) then FirstOfEachQuery(before) else FirstOfEachQuery(before) + [last]
  }

  function SonarrEmits(row: SonarrRow, trim: string -> string): seq<Candidate> {
    var query := trim(row.title);
    if query == "" then [] else [Candidate(query, row.mainTitle, row.seasonNumber, 0)]
  }

  predicate HasYearSuffix(title: string, year: nat) {
    var suffix := " " + Format(year);
    |suffix| <= |title| && title[|title| - |suffix|..] == suffix
  }

  /** The query with its year comes before the one without. */
  function RadarrQueries(row: RadarrRow, query: string): seq<Candidate> {
    var plain := Candidate(query, row.mainTitle, 0, row.year);
    if row.year > 0 && !HasYearSuffix(query, row.year)
    then [plain.(query := query + " " + Format(row.year)), plain]
    else [plain]
  }

  function RadarrEmits(row: RadarrRow, trim: string -> string): seq<Candidate> {
    var query := trim(row.title);
    if query == "" then [] else RadarrQueries(row, query)
  }

  function AllEmitted<T>(rows: seq<T>, emits: T -> seq<Candidate>): seq<Candidate> {
    if rows == [] then [] else AllEmitted(rows[..|rows| - 1], emits) + emits(rows[|rows| - 1])
  }

  /** The candidates are the first of each query among those the rows emit, in the order
      of the comparator. */
  function FromRows<T>(ordered: seq<T>, emits: T -> seq<Candidate>): seq<Candidate> {
    FirstOfEachQuery(AllEmitted(ordered, emits))
  }

  lemma OneMoreRow<T>(rows: seq<T>, i: nat, emits: T -> seq<Candidate>)
    requires i < |rows|
    ensures AllEmitted(rows[..i + 1], emits) == AllEmitted(rows[..i], emits) + emits(rows[i])
  {
    assert rows[..i + 1][..i] == rows[..i];
  }

  method AppendCandidate(result: seq<Candidate>, seen: set<string>, candidate: Candidate, ghost all: seq<Candidate>)
    returns (next: seq<Candidate>, nextSeen: set<string>)
    requires result == FirstOfEachQuery(all) && forall q :: q in seen <==> HasQuery(all, q)
    ensures next == FirstOfEachQuery(all + [candidate]) && forall q :: q in nextSeen <==> HasQuery(all + [candidate], q)
  {
    assert (all + [candidate])[..|all|] == all;
    HasQueryGrows(all, candidate);
    if candidate.query in seen {
      return result, seen;
    }
    nextSeen := seen + {candidate.query};
    next := result + [candidate];
  }

  lemma HasQueryGrows(all: seq<Candidate>, candidate: Candidate)
    ensures forall q :: HasQuery(all + [candidate], q) <==> HasQuery(all, q) || q == candidate.query
  {
    forall q ensures HasQuery(all + [candidate], q) <==> HasQuery(all, q) || q == candidate.query {
      if i :| 0 <= i < |all| && all[i].query == q {
        assert (all + [candidate])[i].query == q;
      }
      assert (all + [candidate])[|all|] == candidate;
    }
  }

  /** Whatever way the library sorts the rows, the result is the same. */
  method SonarrCandidates(rows: seq<SonarrRow>, trim: string -> string) returns (result: seq<Candidate>)
    ensures forall ordered | SortOf(ordered, rows, CompareSonarrRows) ::
      result == FromRows(ordered, row => SonarrEmits(row, trim))
  {
    var ordered := SortFunc(rows, CompareSonarrRows);
    SonarrOrder();
    SortFuncSorts(rows, CompareSonarrRows);
    var emits := row => SonarrEmits(row, trim);
    result := [];
    var seen: set<string> := {};
    for i := 0 to |ordered|
      invariant result == FromRows(ordered[..i], emits)
      invariant forall q :: q in seen <==> HasQuery(AllEmitted(ordered[..i], emits), q)
    {
      var row := ordered[i];
      ghost var all := AllEmitted(ordered[..i], emits);
      OneMoreRow(ordered, i, emits);
      var query := trim(row.title);
      if query == "" {
        assert all + [] == all;
        continue;
      }
      var candidate := Candidate(query, row.mainTitle, row.seasonNumber, 0);
      HasQueryGrows(all, candidate);
      assert (all + [candidate])[..|all|] == all;
      if query in seen {
        continue;
      }
      seen := seen + {query};
      result := result + [candidate];
    }
    assert ordered[..|ordered|] == ordered;
    forall o | SortOf(o, rows, CompareSonarrRows) ensures o == ordered {
      OneSortedOrder(o, ordered, CompareSonarrRows);
    }
  }

  /** The loop body for a row with a query. */
  method AppendRadarr(row: RadarrRow, query: string, result: seq<Candidate>, seen: set<string>,
                      ghost all: seq<Candidate>)
    returns (next: seq<Candidate>, nextSeen: set<string>)
    requires result == FirstOfEachQuery(all) && forall q :: q in seen <==> HasQuery(all, q)
    ensures next == FirstOfEachQuery(all + RadarrQueries(row, query))
    ensures forall q :: q in nextSeen <==> HasQuery(all + RadarrQueries(row, query), q)
  {
    var candidate := Candidate(query, row.mainTitle, 0, row.year);
    if row.year > 0 && !HasYearSuffix(query, row.year) {
      var dated := candidate.(query := query + " " + Format(row.year));
      next, nextSeen := AppendCandidate(result, seen, dated, all);
      assert all + [dated, candidate] == (all + [dated]) + [candidate];
      next, nextSeen := AppendCandidate(next, nextSeen, candidate, all + [dated]);
    } else {
      next, nextSeen := AppendCandidate(result, seen, candidate, all);
    }
  }

  method RadarrCandidates(rows: seq<RadarrRow>, trim: string -> string) returns (result: seq<Candidate>)
    ensures forall ordered | SortOf(ordered, rows, CompareRadarrRows) ::
      result == FromRows(ordered, row => RadarrEmits(row, trim))
  {
    var ordered := SortFunc(rows, CompareRadarrRows);
    RadarrOrder();
    SortFuncSorts(rows, CompareRadarrRows);
    var emits := row => RadarrEmits(row, trim);
    result := [];
    var seen: set<string> := {};
    for i := 0 to |ordered|
      invariant result == FromRows(ordered[..i], emits)
      invariant forall q :: q in seen <==> HasQuery(AllEmitted(ordered[..i], emits), q)
    {
      var row := ordered[i];
      ghost var all := AllEmitted(ordered[..i], emits);
      OneMoreRow(ordered, i, emits);
      var query := trim(row.title);
      if query == "" {
        assert all + [] == all;
        continue;
      }
      result, seen := AppendRadarr(row, query, result, seen, all);
    }
    assert ordered[..|ordered|] == ordered;
    forall o | SortOf(o, rows, CompareRadarrRows) ensures o == ordered {
      OneSortedOrder(o, ordered, CompareRadarrRows);
    }
  }

  /** Permuting the database rows does not change the candidates, however they are sorted. */
  lemma RowOrderIsIrrelevant<T(!new)>(rows: seq<T>, permuted: seq<T>, a: seq<T>, b: seq<T>, compare: (T, T) -> int,
                                      emits: T -> seq<Candidate>)
    requires TotalOrder(compare) && multiset(rows) == multiset(permuted)
    requires SortOf(a, rows, compare) && SortOf(b, permuted, compare)
    ensures FromRows(a, emits) == FromRows(b, emits)
  {
    OneSortedOrder(a, b, compare);
  }

  lemma {:induction false} QueriesAreKept(candidates: seq<Candidate>, query: string)
    ensures HasQuery(FirstOfEachQuery(candidates), query) <==> HasQuery(candidates, query)
  {
    if candidates != [] {
      var before, last := candidates[..|candidates| - 1], candidates[|candidates| - 1];
      QueriesAreKept(before, query);
      assert candidates == before + [last];
      HasQueryGrows(before, last);
      HasQueryGrows(FirstOfEachQuery(before), last);
    }
  }

  /** Candidate `k` of the result is candidate `i` of what was emitted, the first of its query. */
  predicate IsFirstAt(candidates: seq<Candidate>, result: seq<Candidate>, k: nat, i: nat)
    requires k < |result|
  {
    i < |candidates| && result[k] == candidates[i] && !HasQuery(candidates[..i], candidates[i].query)
  }

  /** The result keeps the order of what was emitted and takes the first of each query; no
      query is lost. */
  lemma {:induction false} FirstOfEachQuerySpec(candidates: seq<Candidate>) returns (at: seq<nat>)
    ensures |at| == |FirstOfEachQuery(candidates)|
    ensures forall k, l | 0 <= k < l < |at| :: at[k] < at[l]
    ensures forall k | 0 <= k < |at| :: IsFirstAt(candidates, FirstOfEachQuery(candidates), k, at[k])
    ensures forall query :: HasQuery(FirstOfEachQuery(candidates), query) <==> HasQuery(candidates, query)
  {
    at := [];
    if candidates != [] {
      var n := |candidates| - 1;
      at := FirstOfEachQuerySpec(candidates[..n]);
      forall k | 0 <= k < |at| ensures IsFirstAt(candidates, FirstOfEachQuery(candidates[..n]), k, at[k]) {
        assert IsFirstAt(candidates[..n], FirstOfEachQuery(candidates[..n]), k, at[k]);
        assert candidates[..n][..at[k]] == candidates[..at[k]];
      }
      if !HasQuery(candidates[..n], candidates[n].query) {
        at := at + [n];
      }
    }
    forall query ensures HasQuery(FirstOfEachQuery(candidates), query) <==> HasQuery(candidates, query) {
      QueriesAreKept(candidates, query);
    }
  }

  /** Monitored rows come first, and among rows alike in that, longer titles. */
  lemma LongerTitlesFirst(ordered: seq<SonarrRow>, i: nat, j: nat)
    requires Sorted(ordered, CompareSonarrRows) && i < j < |ordered|
    ensures ordered[j].monitored ==> ordered[i].monitored
    ensures ordered[i].monitored == ordered[j].monitored ==> |ordered[i].title| >= |ordered[j].title|
  {
    assert CompareSonarrRows(ordered[i], ordered[j]) <= 0;
  }
}
