/** The titles an expanded search asks for (internal/proxy/search_expansion.go and format.go). */
module Expansion {
  import opened Options
  import opened Candidates
  import Text

  /** The string operations of the source that only the library defines: trimming, the
      removal of a trailing year or episode number, and the year a query ends with, or 0. */
  datatype TextOps = TextOps(trim: string -> string, removeYear: string -> string, removeEpisode: string -> string,
                             yearOf: string -> int) {
    ghost predicate Sound() {
      forall s :: trim(trim(s)) == trim(s)
    }
  }

  lemma TrimSpaceIsSound(ops: TextOps)
    requires forall s :: ops.trim(s) == Text.TrimSpace(s)
    ensures ops.Sound()
  {
    forall s ensures ops.trim(ops.trim(s)) == ops.trim(s) {
      Text.TrimSpaceIdempotent(s);
    }
  }

  /** The trimmed, non-empty strings, each where it first occurs. */
  function Unique(xs: seq<string>, ops: TextOps): seq<string> {
    if xs == [] then []
    else
      var before := Unique(xs[..|xs| - 1], ops);
      var x := ops.trim(xs[|xs| - 1]);
      if x == "" || x in before then before else before + [x]
  }

  method UniqueNonEmpty(xs: seq<string>, ops: TextOps) returns (out: seq<string>)
    ensures out == Unique(xs, ops)
  {
    var seen: set<string> := {};
    out := [];
    for i := 0 to |xs|
      invariant out == Unique(xs[..i], ops)
      invariant forall x :: x in seen <==> x in out
    {
      assert xs[..i + 1][..i] == xs[..i];
      var x := ops.trim(xs[i]);
      if x == "" || x in seen {
        continue;
      }
      seen := seen + {x};
      out := out + [x];
    }
    assert xs[..|xs|] == xs;
  }

  function SearchTitles(kind: Kind, key: string, ops: TextOps): seq<string> {
    match kind
    case Radarr => Unique([key, ops.removeYear(key)], ops)
    case Sonarr => Unique([ops.removeEpisode(key)], ops)
  }

  // ----- The anchor: the candidate a search is about -----

  predicate YearFits(c: Candidate, year: int) {
    year == 0 || c.year == 0 || c.year == year
  }

  function FirstExact(candidates: seq<Candidate>, query: string, year: int): Option<Candidate> {
    if candidates == [] then None
    else if candidates[0].query == query && YearFits(candidates[0], year) then Some(candidates[0])
    else FirstExact(candidates[1..], query, year)
  }

  function FirstAmong(basic: seq<string>, candidates: seq<Candidate>, year: int): Option<Candidate> {
    if basic == [] then None
    else
      var c := FirstExact(candidates, basic[0], year);
      if c.Some? then c else FirstAmong(basic[1..], candidates, year)
  }

  function FirstWithBase(candidates: seq<Candidate>, base: string, year: int, ops: TextOps): Option<Candidate> {
    if candidates == [] then None
    else if ops.removeYear(candidates[0].query) == base && YearFits(candidates[0], year) then Some(candidates[0])
    else FirstWithBase(candidates[1..], base, year, ops)
  }

  /** An exact candidate of the first query that has one; failing that, Radarr compares
      without years. */
  function Anchor(kind: Kind, basic: seq<string>, candidates: seq<Candidate>, ops: TextOps): Option<Candidate>
    requires basic != []
  {
    match kind
    case Sonarr => FirstExact(candidates, basic[0], 0)
    case Radarr =>
      var year := ops.yearOf(basic[0]);
      var exact := FirstAmong(basic, candidates, year);
      if exact.Some? then exact else FirstWithBase(candidates, ops.removeYear(basic[0]), year, ops)
  }

  method ExactCandidate(query: string, candidates: seq<Candidate>) returns (r: Option<Candidate>)
    ensures r == FirstExact(candidates, query, 0)
  {
    for i := 0 to |candidates|
      invariant FirstExact(candidates, query, 0) == FirstExact(candidates[i..], query, 0)
    {
      if candidates[i].query == query {
        return Some(candidates[i]);
      }
    }
    r := None;
  }

  method RadarrAnchor(basic: seq<string>, candidates: seq<Candidate>, ops: TextOps) returns (r: Option<Candidate>)
    requires basic != []
    ensures r == Anchor(Radarr, basic, candidates, ops)
  {
    var year := ops.yearOf(basic[0]);
    for i := 0 to |basic|
      invariant FirstAmong(basic, candidates, year) == FirstAmong(basic[i..], candidates, year)
    {
      for j := 0 to |candidates|
        invariant FirstExact(candidates, basic[i], year) == FirstExact(candidates[j..], basic[i], year)
      {
        if candidates[j].query == basic[i] && YearFits(candidates[j], year) {
          return Some(candidates[j]);
        }
      }
    }
    var base := ops.removeYear(basic[0]);
    for j := 0 to |candidates|
      invariant FirstWithBase(candidates, base, year, ops) == FirstWithBase(candidates[j..], base, year, ops)
    {
      if ops.removeYear(candidates[j].query) == base && YearFits(candidates[j], year) {
        return Some(candidates[j]);
      }
    }
    r := None;
  }

  // ----- The expanded list -----

  /** Candidates that belong to the anchor's title, season or year. */
  predicate Related(kind: Kind, anchor: Candidate, c: Candidate) {
    && c.mainTitle == anchor.mainTitle
    && match kind
       case Sonarr => !(anchor.seasonNumber > 0 && c.seasonNumber != anchor.seasonNumber && c.seasonNumber != -1)
       case Radarr => !(anchor.year > 0 && c.year > 0 && c.year != anchor.year)
  }

  function RelatedQueries(kind: Kind, anchor: Candidate, candidates: seq<Candidate>): seq<string> {
    if candidates == [] then []
    else
      var before, last := RelatedQueries(kind, anchor, candidates[..|candidates| - 1]), candidates[|candidates| - 1];
      if Related(kind, anchor, last) then before + [last.query] else before
  }

  function Expanded(kind: Kind, basic: seq<string>, candidates: seq<Candidate>, ops: TextOps): seq<string> {
    if basic == [] || candidates == [] then basic
    else
      var anchor := Anchor(kind, basic, candidates, ops);
      if anchor.None? || ops.trim(anchor.value.mainTitle) == "" then basic
      else Unique(basic + RelatedQueries(kind, anchor.value, candidates), ops)
  }

  method SonarrSearchTitles(basic: seq<string>, candidates: seq<Candidate>, ops: TextOps) returns (titles: seq<string>)
    ensures titles == Expanded(Sonarr, basic, candidates, ops)
  {
    if |basic| == 0 || |candidates| == 0 {
      return basic;
    }
    var anchor := ExactCandidate(basic[0], candidates);
    if anchor.None? || ops.trim(anchor.value.mainTitle) == "" {
      return basic;
    }
    titles := basic;
    for i := 0 to |candidates|
      invariant titles == basic + RelatedQueries(Sonarr, anchor.value, candidates[..i])
    {
      assert candidates[..i + 1][..i] == candidates[..i];
      var c := candidates[i];
      if c.mainTitle != anchor.value.mainTitle {
        continue;
      }
      if anchor.value.seasonNumber > 0 && c.seasonNumber != anchor.value.seasonNumber && c.seasonNumber != -1 {
        continue;
      }
      titles := titles + [c.query];
    }
    assert candidates[..|candidates|] == candidates;
    titles := UniqueNonEmpty(titles, ops);
  }

  method RadarrSearchTitles(basic: seq<string>, candidates: seq<Candidate>, ops: TextOps) returns (titles: seq<string>)
    ensures titles == Expanded(Radarr, basic, candidates, ops)
  {
    if |basic| == 0 || |candidates| == 0 {
      return basic;
    }
    var anchor := RadarrAnchor(basic, candidates, ops);
    if anchor.None? || ops.trim(anchor.value.mainTitle) == "" {
      return basic;
    }
    titles := basic;
    for i := 0 to |candidates|
      invariant titles == basic + RelatedQueries(Radarr, anchor.value, candidates[..i])
    {
      assert candidates[..i + 1][..i] == candidates[..i];
      var c := candidates[i];
      if c.mainTitle != anchor.value.mainTitle {
        continue;
      }
      if anchor.value.year > 0 && c.year > 0 && c.year != anchor.value.year {
        continue;
      }
      titles := titles + [c.query];
    }
    assert candidates[..|candidates|] == candidates;
    titles := UniqueNonEmpty(titles, ops);
  }

  // ----- What the list is like -----

  /** No title is repeated, empty or padded. */
  ghost predicate Clean(titles: seq<string>, ops: TextOps) {
    && (forall i, j | 0 <= i < j < |titles| :: titles[i] != titles[j])
    && (forall i | 0 <= i < |titles| :: titles[i] != "" && ops.trim(titles[i]) == titles[i])
  }

  lemma {:induction false} UniqueIsClean(xs: seq<string>, ops: TextOps)
    requires ops.Sound()
    ensures Clean(Unique(xs, ops), ops)
  {
    if xs != [] {
      UniqueIsClean(xs[..|xs| - 1], ops);
    }
  }

  lemma {:induction false} UniqueMembers(xs: seq<string>, ops: TextOps, x: string)
    ensures x in Unique(xs, ops) <==> x != "" && exists i :: 0 <= i < |xs| && ops.trim(xs[i]) == x
  {
    if xs != [] {
      var n := |xs| - 1;
      UniqueMembers(xs[..n], ops, x);
      if i :| 0 <= i < n && ops.trim(xs[i]) == x {
        assert ops.trim(xs[..n][i]) == x;
      }
    }
  }

  lemma {:induction false} UniqueStartsWith(titles: seq<string>, more: seq<string>, ops: TextOps)
    requires Clean(titles, ops)
    ensures titles <= Unique(titles + more, ops)
    decreases |titles| + |more|
  {
    var n := |titles + more| - 1;
    if more != [] {
      assert (titles + more)[..n] == titles + more[..|more| - 1];
      UniqueStartsWith(titles, more[..|more| - 1], ops);
    } else if titles != [] {
      assert titles + more == titles;
      assert titles[..n] + [] == titles[..n];
      UniqueStartsWith(titles[..n], [], ops);
      UniqueMembers(titles[..n], ops, titles[n]);
      UniqueLength(titles[..n], ops);
      assert titles == titles[..n] + [titles[n]];
    }
  }

  lemma {:induction false} UniqueLength(xs: seq<string>, ops: TextOps)
    ensures |Unique(xs, ops)| <= |xs|
  {
    if xs != [] {
      UniqueLength(xs[..|xs| - 1], ops);
    }
  }

  /** The expanded list has no duplicates and begins with the titles of the plain search, so
      that positions in it mean the same before and after expansion. */
  lemma ExpansionExtends(kind: Kind, key: string, candidates: seq<Candidate>, ops: TextOps)
    requires ops.Sound()
    ensures var basic := SearchTitles(kind, key, ops);
      Clean(Expanded(kind, basic, candidates, ops), ops) && basic <= Expanded(kind, basic, candidates, ops)
  {
    var basic := SearchTitles(kind, key, ops);
    UniqueIsClean(match kind case Radarr => [key, ops.removeYear(key)] case Sonarr => [ops.removeEpisode(key)], ops);
    if Expanded(kind, basic, candidates, ops) != basic {
      var more := RelatedQueries(kind, Anchor(kind, basic, candidates, ops).value, candidates);
      UniqueIsClean(basic + more, ops);
      UniqueStartsWith(basic, more, ops);
    }
  }

  /** The anchor is one of the candidates, and it answers one of the searched queries. */
  lemma {:induction false} FirstExactIs(candidates: seq<Candidate>, query: string, year: int)
    ensures var r := FirstExact(candidates, query, year);
      && (r.Some? ==> r.value in candidates && r.value.query == query && YearFits(r.value, year))
      && (r.None? ==> forall c | c in candidates :: !(c.query == query && YearFits(c, year)))
  {
    if candidates != [] && !(candidates[0].query == query && YearFits(candidates[0], year)) {
      FirstExactIs(candidates[1..], query, year);
      assert candidates == [candidates[0]] + candidates[1..];
    }
  }

  lemma {:induction false} RelatedQueriesAre(kind: Kind, anchor: Candidate, candidates: seq<Candidate>, query: string)
    ensures query in RelatedQueries(kind, anchor, candidates) <==>
      exists c :: c in candidates && Related(kind, anchor, c) && c.query == query
  {
    if candidates != [] {
      RelatedQueriesAre(kind, anchor, candidates[..|candidates| - 1], query);
      assert candidates == candidates[..|candidates| - 1] + [candidates[|candidates| - 1]];
    }
  }

  /** A title is in the expanded list exactly when it is searched for anyway or is the query
      of a candidate related to the anchor. */
  lemma ExpandedMembers(kind: Kind, basic: seq<string>, candidates: seq<Candidate>, ops: TextOps, title: string)
    requires Clean(basic, ops) && basic != [] && candidates != []
    requires Anchor(kind, basic, candidates, ops).Some? &&
      ops.trim(Anchor(kind, basic, candidates, ops).value.mainTitle) != ""
    ensures var anchor := Anchor(kind, basic, candidates, ops).value;
      title in Expanded(kind, basic, candidates, ops) <==>
        || title in basic
        || (title != "" && exists c :: c in candidates && Related(kind, anchor, c) && ops.trim(c.query) == title)
  {
    var anchor := Anchor(kind, basic, candidates, ops).value;
    var more := RelatedQueries(kind, anchor, candidates);
    UniqueMembers(basic + more, ops, title);
    if title in basic {
      var i :| 0 <= i < |basic| && basic[i] == title;
      assert (basic + more)[i] == title;
    } else if title in Expanded(kind, basic, candidates, ops) {
      var i :| 0 <= i < |basic + more| && ops.trim((basic + more)[i]) == title;
      assert i >= |basic|;
      RelatedQueriesAre(kind, anchor, candidates, more[i - |basic|]);
    } else if c :| c in candidates && Related(kind, anchor, c) && ops.trim(c.query) == title {
      RelatedQueriesAre(kind, anchor, candidates, c.query);
      var i :| 0 <= i < |more| && more[i] == c.query;
      assert (basic + more)[|basic| + i] == c.query;
    }
  }

  /** The rows of the database may come in any order and be sorted in any way: the expanded
      list is the same. */
  lemma ExpansionIgnoresRowOrder(key: string, rows: seq<SonarrRow>, permuted: seq<SonarrRow>, a: seq<SonarrRow>,
                                 b: seq<SonarrRow>, ops: TextOps)
    requires multiset(rows) == multiset(permuted)
    requires SortOf(a, rows, CompareSonarrRows) && SortOf(b, permuted, CompareSonarrRows)
    ensures var basic := SearchTitles(Sonarr, key, ops);
      Expanded(Sonarr, basic, FromRows(a, row => SonarrEmits(row, ops.trim)), ops)
      == Expanded(Sonarr, basic, FromRows(b, row => SonarrEmits(row, ops.trim)), ops)
  {
    SonarrOrder();
    OneSortedOrder(a, b, CompareSonarrRows);
  }

  lemma RadarrExpansionIgnoresRowOrder(key: string, rows: seq<RadarrRow>, permuted: seq<RadarrRow>,
                                       a: seq<RadarrRow>, b: seq<RadarrRow>, ops: TextOps)
    requires multiset(rows) == multiset(permuted)
    requires SortOf(a, rows, CompareRadarrRows) && SortOf(b, permuted, CompareRadarrRows)
    ensures var basic := SearchTitles(Radarr, key, ops);
      Expanded(Radarr, basic, FromRows(a, row => RadarrEmits(row, ops.trim)), ops)
      == Expanded(Radarr, basic, FromRows(b, row => RadarrEmits(row, ops.trim)), ops)
  {
    RadarrOrder();
    OneSortedOrder(a, b, CompareRadarrRows);
  }

  // ----- Anchor and list in terms of the candidates alone -----

  /** Candidate `j` is named by query `q` of the search, in a year that does not speak against it. */
  predicate ExactAt(basic: seq<string>, candidates: seq<Candidate>, year: int, q: nat, j: nat) {
    && q < |basic| && j < |candidates| && candidates[j].query == basic[q]
    && (year == 0 || candidates[j].year == 0 || candidates[j].year == year)
  }

  /** The first such pair: no earlier query has one, and no earlier candidate for this query. */
  ghost predicate FirstExactAt(basic: seq<string>, candidates: seq<Candidate>, year: int, q: nat, j: nat) {
    && ExactAt(basic, candidates, year, q, j)
    && (forall p: nat, i: nat | p < q :: !ExactAt(basic, candidates, year, p, i))
    && (forall i: nat | i < j :: !ExactAt(basic, candidates, year, q, i))
  }

  /** Without years candidate `j` reads like the search. */
  predicate BaseAt(basic: seq<string>, candidates: seq<Candidate>, ops: TextOps, j: nat)
    requires basic != []
  {
    var year := ops.yearOf(basic[0]);
    && j < |candidates| && ops.removeYear(candidates[j].query) == ops.removeYear(basic[0])
    && (year == 0 || candidates[j].year == 0 || candidates[j].year == year)
  }

  lemma {:induction false} FirstExactPosition(candidates: seq<Candidate>, query: string, year: int) returns (j: nat)
    requires FirstExact(candidates, query, year).Some?
    ensures ExactAt([query], candidates, year, 0, j) && FirstExact(candidates, query, year) == Some(candidates[j])
    ensures forall i: nat | i < j :: !ExactAt([query], candidates, year, 0, i)
  {
    if candidates[0].query == query && YearFits(candidates[0], year) {
      j := 0;
    } else {
      var k := FirstExactPosition(candidates[1..], query, year);
      j := k + 1;
      forall i: nat | i < j ensures !ExactAt([query], candidates, year, 0, i) {
        assert i > 0 ==> !ExactAt([query], candidates[1..], year, 0, i - 1);
      }
    }
  }

  lemma NoneExact(basic: seq<string>, candidates: seq<Candidate>, year: int, q: nat)
    requires q < |basic| && FirstExact(candidates, basic[q], year).None?
    ensures forall j: nat :: !ExactAt(basic, candidates, year, q, j)
  {
    FirstExactIs(candidates, basic[q], year);
    forall j: nat ensures !ExactAt(basic, candidates, year, q, j) {
      assert j < |candidates| ==> candidates[j] in candidates;
    }
  }

  lemma {:induction false} FirstAmongPosition(basic: seq<string>, candidates: seq<Candidate>, year: int)
      returns (q: nat, j: nat)
    ensures FirstAmong(basic, candidates, year).Some? ==>
      FirstExactAt(basic, candidates, year, q, j) && FirstAmong(basic, candidates, year) == Some(candidates[j])
    ensures FirstAmong(basic, candidates, year).None? ==>
      forall p: nat, i: nat :: !ExactAt(basic, candidates, year, p, i)
  {
    q, j := 0, 0;
    if basic != [] {
      if FirstExact(candidates, basic[0], year).Some? {
        j := FirstExactPosition(candidates, basic[0], year);
        forall i: nat | i < j ensures !ExactAt(basic, candidates, year, 0, i) {
          assert !ExactAt([basic[0]], candidates, year, 0, i);
        }
      } else {
        NoneExact(basic, candidates, year, 0);
        var p;
        p, j := FirstAmongPosition(basic[1..], candidates, year);
        q := p + 1;
        LaterQueries(basic, candidates, year);
      }
    }
  }

  lemma LaterQueries(basic: seq<string>, candidates: seq<Candidate>, year: int)
    requires basic != []
    ensures forall p: nat, i: nat | p > 0 ::
      ExactAt(basic, candidates, year, p, i) <==> ExactAt(basic[1..], candidates, year, p - 1, i)
  {
  }

  lemma {:induction false} FirstWithBasePosition(basic: seq<string>, candidates: seq<Candidate>, ops: TextOps)
      returns (j: nat)
    requires basic != []
    ensures var r := FirstWithBase(candidates, ops.removeYear(basic[0]), ops.yearOf(basic[0]), ops);
      && (r.Some? ==> BaseAt(basic, candidates, ops, j) && r == Some(candidates[j])
                      && forall i: nat | i < j :: !BaseAt(basic, candidates, ops, i))
      && (r.None? ==> forall i: nat :: !BaseAt(basic, candidates, ops, i))
    decreases |candidates|
  {
    j := 0;
    if candidates != [] && !BaseAt(basic, candidates, ops, 0) {
      var k := FirstWithBasePosition(basic, candidates[1..], ops);
      j := k + 1;
      forall i: nat | i > 0 ensures BaseAt(basic, candidates, ops, i) <==> BaseAt(basic, candidates[1..], ops, i - 1) {
      }
    }
  }

  /** The Radarr anchor: the candidate of the first pair of a query and a candidate with it, by
      query and then by candidate; without any, the first that reads like the search without
      years; none exactly when there is neither. A candidate of another year is never taken. */
  lemma RadarrAnchorIs(basic: seq<string>, candidates: seq<Candidate>, ops: TextOps) returns (q: nat, j: nat)
    requires basic != []
    ensures var year, anchor := ops.yearOf(basic[0]), Anchor(Radarr, basic, candidates, ops);
      if exists p: nat, i: nat :: ExactAt(basic, candidates, year, p, i) then
        FirstExactAt(basic, candidates, year, q, j) && anchor == Some(candidates[j])
      else if exists i: nat :: BaseAt(basic, candidates, ops, i) then
        && BaseAt(basic, candidates, ops, j) && anchor == Some(candidates[j])
        && forall i: nat | i < j :: !BaseAt(basic, candidates, ops, i)
      else anchor == None
  {
    var year := ops.yearOf(basic[0]);
    q, j := FirstAmongPosition(basic, candidates, year);
    if FirstAmong(basic, candidates, year).None? {
      j := FirstWithBasePosition(basic, candidates, ops);
    } else {
      assert ExactAt(basic, candidates, year, q, j);
    }
  }

  /** The Sonarr anchor: the first candidate of the query, and none exactly when there is none. */
  lemma SonarrAnchorIs(basic: seq<string>, candidates: seq<Candidate>, ops: TextOps) returns (j: nat)
    requires basic != []
    ensures var anchor := Anchor(Sonarr, basic, candidates, ops);
      if exists i: nat :: i < |candidates| && candidates[i].query == basic[0] then
        && j < |candidates| && candidates[j].query == basic[0] && anchor == Some(candidates[j])
        && forall i: nat | i < j :: candidates[i].query != basic[0]
      else anchor == None
  {
    j := 0;
    if FirstExact(candidates, basic[0], 0).Some? {
      j := FirstExactPosition(candidates, basic[0], 0);
      forall i: nat | i < j ensures candidates[i].query != basic[0] {
        assert !ExactAt([basic[0]], candidates, 0, 0, i);
      }
    } else {
      NoneExact(basic, candidates, 0, 0);
      forall i: nat | i < |candidates| ensures candidates[i].query != basic[0] {
        assert !ExactAt(basic, candidates, 0, 0, i);
      }
    }
  }

  /** Without candidates, without an anchor, or with one whose main title is blank, nothing is added. */
  lemma NothingToExpand(kind: Kind, basic: seq<string>, candidates: seq<Candidate>, ops: TextOps)
    requires basic != []
    requires candidates == [] || Anchor(kind, basic, candidates, ops).None?
      || ops.trim(Anchor(kind, basic, candidates, ops).value.mainTitle) == ""
    ensures Expanded(kind, basic, candidates, ops) == basic
  {
  }

  predicate InSeason(anchor: Candidate, c: Candidate) {
    c.mainTitle == anchor.mainTitle
    && (anchor.seasonNumber <= 0 || c.seasonNumber == anchor.seasonNumber || c.seasonNumber == -1)
  }

  predicate InYear(anchor: Candidate, c: Candidate) {
    c.mainTitle == anchor.mainTitle && (anchor.year <= 0 || c.year <= 0 || c.year == anchor.year)
  }

  /** The season filter: an anchor with a season takes candidates of its season and of season -1. */
  lemma SonarrMembers(basic: seq<string>, candidates: seq<Candidate>, ops: TextOps, anchor: Candidate, title: string)
    requires Clean(basic, ops) && basic != [] && candidates != []
    requires Anchor(Sonarr, basic, candidates, ops) == Some(anchor) && ops.trim(anchor.mainTitle) != ""
    ensures title in Expanded(Sonarr, basic, candidates, ops) <==>
      || title in basic
      || (title != "" && exists c :: c in candidates && ops.trim(c.query) == title && InSeason(anchor, c))
  {
    ExpandedMembers(Sonarr, basic, candidates, ops, title);
  }

  /** The year filter: an anchor with a year takes candidates of its year and of none. */
  lemma RadarrMembers(basic: seq<string>, candidates: seq<Candidate>, ops: TextOps, anchor: Candidate, title: string)
    requires Clean(basic, ops) && basic != [] && candidates != []
    requires Anchor(Radarr, basic, candidates, ops) == Some(anchor) && ops.trim(anchor.mainTitle) != ""
    ensures title in Expanded(Radarr, basic, candidates, ops) <==>
      || title in basic
      || (title != "" && exists c :: c in candidates && ops.trim(c.query) == title && InYear(anchor, c))
  {
    ExpandedMembers(Radarr, basic, candidates, ops, title);
  }

  /** What is searched without expansion: the key without its episode number, or the key and
      then the key without its year. */
  lemma BasicTitlesAre(key: string, ops: TextOps, title: string)
    ensures title in SearchTitles(Sonarr, key, ops) <==> title != "" && title == ops.trim(ops.removeEpisode(key))
    ensures title in SearchTitles(Radarr, key, ops) <==>
      title != "" && (title == ops.trim(key) || title == ops.trim(ops.removeYear(key)))
    ensures ops.trim(key) != "" ==>
      SearchTitles(Radarr, key, ops) != [] && SearchTitles(Radarr, key, ops)[0] == ops.trim(key)
  {
    var sonarr, radarr := [ops.removeEpisode(key)], [key, ops.removeYear(key)];
    UniqueMembers(sonarr, ops, title);
    UniqueMembers(radarr, ops, title);
    assert ops.trim(sonarr[0]) == ops.trim(ops.removeEpisode(key));
    assert ops.trim(radarr[0]) == ops.trim(key) && ops.trim(radarr[1]) == ops.trim(ops.removeYear(key));
    assert radarr[..1] == [key];
    assert Unique([key], ops) == if ops.trim(key) == "" then [] else [ops.trim(key)] by {
      assert [key][..0] == [];
    }
  }

  // ----- The order of the list -----

  /** `at` lists the first occurrences of the trimmed, non-empty strings of `xs`, in order. */
  ghost predicate FirstOccurrences(xs: seq<string>, ops: TextOps, out: seq<string>, at: seq<int>) {
    && |at| == |out|
    && (forall i | 0 <= i < |at| :: FirstAt(xs, ops, out[i], at[i]))
    && (forall i, j | 0 <= i < j < |at| :: at[i] < at[j])
  }

  ghost predicate FirstAt(xs: seq<string>, ops: TextOps, x: string, k: int) {
    0 <= k < |xs| && ops.trim(xs[k]) == x && forall l | 0 <= l < k :: ops.trim(xs[l]) != x
  }

  /** The list keeps the order in which its titles first come up. */
  lemma {:induction false} UniqueKeepsOrder(xs: seq<string>, ops: TextOps) returns (at: seq<int>)
    ensures FirstOccurrences(xs, ops, Unique(xs, ops), at)
  {
    at := [];
    if xs != [] {
      var n := |xs| - 1;
      at := UniqueKeepsOrder(xs[..n], ops);
      var before, x := Unique(xs[..n], ops), ops.trim(xs[n]);
      forall i | 0 <= i < |at| ensures FirstAt(xs, ops, before[i], at[i]) {
        assert FirstAt(xs[..n], ops, before[i], at[i]);
        forall l | 0 <= l < at[i] ensures ops.trim(xs[l]) != before[i] {
          assert xs[l] == xs[..n][l];
        }
      }
      if x != "" && x !in before {
        UniqueMembers(xs[..n], ops, x);
        forall l | 0 <= l < n ensures ops.trim(xs[l]) != x {
          assert xs[l] == xs[..n][l];
        }
        assert FirstAt(xs, ops, x, n);
        at := at + [n];
      }
    }
  }

  /** The candidates related to the anchor, in their order. */
  ghost predicate RelatedAt(kind: Kind, anchor: Candidate, candidates: seq<Candidate>, queries: seq<string>,
                            at: seq<int>) {
    && |at| == |queries|
    && (forall i | 0 <= i < |at| :: 0 <= at[i] < |candidates| && candidates[at[i]].query == queries[i]
                                    && Related(kind, anchor, candidates[at[i]]))
    && (forall i, j | 0 <= i < j < |at| :: at[i] < at[j])
    && (forall k | 0 <= k < |candidates| && Related(kind, anchor, candidates[k]) :: k in at)
  }

  lemma {:induction false} RelatedKeepOrder(kind: Kind, anchor: Candidate, candidates: seq<Candidate>)
      returns (at: seq<int>)
    ensures RelatedAt(kind, anchor, candidates, RelatedQueries(kind, anchor, candidates), at)
  {
    at := [];
    if candidates != [] {
      var n := |candidates| - 1;
      at := RelatedKeepOrder(kind, anchor, candidates[..n]);
      var last := candidates[n];
      if Related(kind, anchor, last) {
        at := at + [n];
        assert n in at;
      }
      forall k | 0 <= k < |candidates| && Related(kind, anchor, candidates[k]) ensures k in at {
        if k < n {
          assert candidates[..n][k] == candidates[k];
        }
      }
    }
  }

  /** Behind the titles of the plain search the queries of the related candidates come in the order
      of the candidates, each where it first comes up. */
  lemma ExpandedKeepsOrder(kind: Kind, basic: seq<string>, candidates: seq<Candidate>, ops: TextOps, anchor: Candidate)
    returns (queries: seq<string>, at: seq<int>, first: seq<int>)
    requires basic != [] && candidates != []
    requires Anchor(kind, basic, candidates, ops) == Some(anchor) && ops.trim(anchor.mainTitle) != ""
    ensures RelatedAt(kind, anchor, candidates, queries, at)
    ensures FirstOccurrences(basic + queries, ops, Expanded(kind, basic, candidates, ops), first)
  {
    queries := RelatedQueries(kind, anchor, candidates);
    at := RelatedKeepOrder(kind, anchor, candidates);
    first := UniqueKeepsOrder(basic + queries, ops);
  }
}
