/** What the candidates are in terms of the database rows (internal/search/candidate.go): the order
    of the rows, and the row behind each candidate. */
module CandidateRows {
  import opened Decimal
  import opened Candidates

  // ----- The order of the rows -----

  /** `a` is shorter and starts `b`, or the first character in which they differ is smaller. */
  ghost predicate Precedes(a: string, b: string) {
    a < b || exists k :: DiffersBelow(a, b, k)
  }

  ghost predicate DiffersBelow(a: string, b: string, k: int) {
    0 <= k < |a| && k < |b| && a[..k] == b[..k] && a[k] < b[k]
  }

  lemma {:induction false} StringsCompare(a: string, b: string)
    ensures CompareStrings(a, b) < 0 <==> Precedes(a, b)
  {
    if a != "" && b != "" {
      if a[0] == b[0] {
        StringsCompare(a[1..], b[1..]);
        PrecedesBehind(a, b);
      } else {
        assert a[0] < b[0] ==> DiffersBelow(a, b, 0);
        forall k | DiffersBelow(a, b, k) ensures a[0] < b[0] {
          assert k > 0 ==> a[..k][0] == b[..k][0];
        }
      }
    } else {
      assert a == "" && b != "" ==> a < b;
    }
  }

  lemma PrecedesBehind(a: string, b: string)
    requires a != "" && b != "" && a[0] == b[0]
    ensures Precedes(a[1..], b[1..]) <==> Precedes(a, b)
  {
    assert a == [a[0]] + a[1..] && b == [b[0]] + b[1..];
    if a < b {
      assert a[1..] == b[1..][..|a| - 1];
    }
    if a[1..] < b[1..] {
      assert b[..|a|] == [b[0]] + b[1..][..|a| - 1];
    }
    forall k | DiffersBelow(a, b, k) ensures DiffersBelow(a[1..], b[1..], k - 1) {
      assert k != 0;
      assert a[1..][..k - 1] == a[..k][1..] && b[1..][..k - 1] == b[..k][1..];
    }
    forall k | DiffersBelow(a[1..], b[1..], k) ensures DiffersBelow(a, b, k + 1) {
      assert a[..k + 1] == [a[0]] + a[1..][..k] && b[..k + 1] == [b[0]] + b[1..][..k];
    }
  }

  /** Monitored rows first, then longer titles, then title, main title, clean title and season. */
  ghost predicate SonarrFirst(a: SonarrRow, b: SonarrRow) {
    if a.monitored != b.monitored then a.monitored
    else if |a.title| != |b.title| then |a.title| > |b.title|
    else if a.title != b.title then Precedes(a.title, b.title)
    else if a.mainTitle != b.mainTitle then Precedes(a.mainTitle, b.mainTitle)
    else if a.cleanTitle != b.cleanTitle then Precedes(a.cleanTitle, b.cleanTitle)
    else a.seasonNumber < b.seasonNumber
  }

  /** Monitored rows first, then the movies by number and position, then title, main title, year
      and clean title. */
  ghost predicate RadarrFirst(a: RadarrRow, b: RadarrRow) {
    if a.monitored != b.monitored then a.monitored
    else if a.tmdbID != b.tmdbID then a.tmdbID < b.tmdbID
    else if a.sno != b.sno then a.sno < b.sno
    else if a.title != b.title then Precedes(a.title, b.title)
    else if a.mainTitle != b.mainTitle then Precedes(a.mainTitle, b.mainTitle)
    else if a.year != b.year then a.year < b.year
    else Precedes(a.cleanTitle, b.cleanTitle)
  }

  /** A comparison is 0 for equal strings only, and then nothing precedes. */
  lemma StringsSettle(a: string, b: string)
    ensures CompareStrings(a, b) < 0 <==> Precedes(a, b)
    ensures CompareStrings(a, b) == 0 <==> a == b
  {
    StringsCompare(a, b);
    StringsFlip(a, b);
  }

  /** In rows sorted by the comparator of Sonarr none stands behind one that it comes before. */
  lemma SonarrRowsInOrder(a: SonarrRow, b: SonarrRow)
    ensures CompareSonarrRows(a, b) < 0 <==> SonarrFirst(a, b)
  {
    StringsSettle(a.title, b.title);
    StringsSettle(a.mainTitle, b.mainTitle);
    StringsSettle(a.cleanTitle, b.cleanTitle);
  }

  lemma RadarrRowsInOrder(a: RadarrRow, b: RadarrRow)
    ensures CompareRadarrRows(a, b) < 0 <==> RadarrFirst(a, b)
  {
    StringsSettle(a.title, b.title);
    StringsSettle(a.mainTitle, b.mainTitle);
    StringsSettle(a.cleanTitle, b.cleanTitle);
  }

  // ----- The row behind each candidate -----

  /** A row and one of the candidates it emits. */
  datatype Place = Place(row: nat, n: nat)

  ghost predicate Is<T>(rows: seq<T>, emits: T -> seq<Candidate>, p: Place) {
    p.row < |rows| && p.n < |emits(rows[p.row])|
  }

  ghost predicate Before(p: Place, q: Place) {
    p.row < q.row || (p.row == q.row && p.n < q.n)
  }

  ghost predicate Emits<T>(rows: seq<T>, emits: T -> seq<Candidate>, p: Place, query: string) {
    Is(rows, emits, p) && emits(rows[p.row])[p.n].query == query
  }

  /** The place emits the candidate, and none before it emits the same query. */
  ghost predicate FirstAt<T>(rows: seq<T>, emits: T -> seq<Candidate>, p: Place, c: Candidate) {
    && Is(rows, emits, p) && emits(rows[p.row])[p.n] == c
    && forall q | Before(q, p) :: !Emits(rows, emits, q, c.query)
  }

  ghost predicate InOrder(at: seq<Place>) {
    forall k, l | 0 <= k < l < |at| :: Before(at[k], at[l])
  }

  /** What the places before `end` have emitted. */
  ghost function EmittedBefore<T>(rows: seq<T>, emits: T -> seq<Candidate>, end: Place): seq<Candidate>
    requires end.row < |rows| && end.n <= |emits(rows[end.row])|
  {
    AllEmitted(rows[..end.row], emits) + emits(rows[end.row])[..end.n]
  }

  lemma OneMorePlace<T>(rows: seq<T>, emits: T -> seq<Candidate>, end: Place)
    requires Is(rows, emits, end)
    ensures EmittedBefore(rows, emits, end.(n := end.n + 1))
         == EmittedBefore(rows, emits, end) + [emits(rows[end.row])[end.n]]
  {
    var block := emits(rows[end.row]);
    assert block[..end.n + 1] == block[..end.n] + [block[end.n]];
  }

  lemma RowEnds<T>(rows: seq<T>, emits: T -> seq<Candidate>, i: nat)
    requires 0 < i < |rows|
    ensures EmittedBefore(rows, emits, Place(i, 0))
         == EmittedBefore(rows, emits, Place(i - 1, |emits(rows[i - 1])|))
  {
    OneMoreRow(rows, i - 1, emits);
    assert emits(rows[i - 1])[..|emits(rows[i - 1])|] == emits(rows[i - 1]);
  }

  /** Some place before `end` emits the query. */
  ghost predicate Queried<T>(rows: seq<T>, emits: T -> seq<Candidate>, end: Place, query: string) {
    exists p :: Before(p, end) && Emits(rows, emits, p, query)
  }

  lemma {:induction false} QueriedBefore<T>(rows: seq<T>, emits: T -> seq<Candidate>, end: Place, query: string)
    requires end.row < |rows| && end.n <= |emits(rows[end.row])|
    ensures HasQuery(EmittedBefore(rows, emits, end), query) <==> Queried(rows, emits, end, query)
    decreases end.row, end.n
  {
    if end.n > 0 {
      var last := end.(n := end.n - 1);
      QueriedBefore(rows, emits, last, query);
      OneMorePlace(rows, emits, last);
      HasQueryGrows(EmittedBefore(rows, emits, last), emits(rows[last.row])[last.n]);
      QueriedStep(rows, emits, last, query);
    } else if end.row > 0 {
      RowEnds(rows, emits, end.row);
      var last := Place(end.row - 1, |emits(rows[end.row - 1])|);
      QueriedBefore(rows, emits, last, query);
      forall p | Is(rows, emits, p) ensures Before(p, end) <==> Before(p, last) {
      }
    }
  }

  lemma QueriedStep<T>(rows: seq<T>, emits: T -> seq<Candidate>, last: Place, query: string)
    requires Is(rows, emits, last)
    ensures Queried(rows, emits, last.(n := last.n + 1), query)
       <==> Queried(rows, emits, last, query) || emits(rows[last.row])[last.n].query == query
  {
    var end := last.(n := last.n + 1);
    forall p ensures Before(p, end) <==> Before(p, last) || p == last {
    }
    assert Emits(rows, emits, last, query) <==> emits(rows[last.row])[last.n].query == query;
  }

  ghost predicate Places<T>(rows: seq<T>, emits: T -> seq<Candidate>, end: Place, r: seq<Candidate>, at: seq<Place>) {
    && |at| == |r| && InOrder(at)
    && forall k | 0 <= k < |at| :: Before(at[k], end) && FirstAt(rows, emits, at[k], r[k])
  }

  lemma {:induction false} PlacesBefore<T>(rows: seq<T>, emits: T -> seq<Candidate>, end: Place)
      returns (at: seq<Place>)
    requires end.row < |rows| && end.n <= |emits(rows[end.row])|
    ensures Places(rows, emits, end, FirstOfEachQuery(EmittedBefore(rows, emits, end)), at)
    decreases end.row, end.n
  {
    at := [];
    if end.n > 0 {
      var last := end.(n := end.n - 1);
      at := PlacesBefore(rows, emits, last);
      OneMorePlace(rows, emits, last);
      var all, c := EmittedBefore(rows, emits, last), emits(rows[last.row])[last.n];
      assert (all + [c])[..|all|] == all;
      QueriedBefore(rows, emits, last, c.query);
      if !HasQuery(all, c.query) {
        assert FirstAt(rows, emits, last, c);
        at := at + [last];
      }
    } else if end.row > 0 {
      RowEnds(rows, emits, end.row);
      at := PlacesBefore(rows, emits, Place(end.row - 1, |emits(rows[end.row - 1])|));
    }
  }

  /** The candidates are what the rows emit, in order, each query at its first place; and no query
      that a row emits is missing. */
  lemma CandidatesHavePlaces<T>(rows: seq<T>, emits: T -> seq<Candidate>) returns (at: seq<Place>)
    ensures Places(rows, emits, Place(|rows|, 0), FromRows(rows, emits), at)
    ensures forall p, query :: Emits(rows, emits, p, query) ==> HasQuery(FromRows(rows, emits), query)
  {
    at := [];
    if rows != [] {
      var i := |rows| - 1;
      var end := Place(i, |emits(rows[i])|);
      at := PlacesBefore(rows, emits, end);
      assert emits(rows[i])[..end.n] == emits(rows[i]);
      forall p, query | Emits(rows, emits, p, query) ensures HasQuery(FromRows(rows, emits), query) {
        assert Before(p, end);
        QueriedBefore(rows, emits, end, query);
        QueriesAreKept(EmittedBefore(rows, emits, end), query);
      }
    }
  }

  /** The rows behind the candidates of Sonarr, in increasing order: each candidate has the trimmed
      title, main title and season of its row, no row before it has that trimmed title, and no
      trimmed title is missing but the empty one. */
  lemma SonarrCandidatesAre(rows: seq<SonarrRow>, trim: string -> string, emits: SonarrRow -> seq<Candidate>)
      returns (from: seq<nat>)
    requires forall row :: emits(row) == SonarrEmits(row, trim)
    ensures var r := FromRows(rows, emits);
      && |from| == |r| && (forall k, l | 0 <= k < l < |from| :: from[k] < from[l])
      && (forall k | 0 <= k < |from| :: SonarrBehind(rows, trim, from[k], r[k]))
      && (forall i | 0 <= i < |rows| && trim(rows[i].title) != "" :: HasQuery(r, trim(rows[i].title)))
  {
    var at := CandidatesHavePlaces(rows, emits);
    var r := FromRows(rows, emits);
    from := seq(|at|, k requires 0 <= k < |at| => at[k].row);
    forall k | 0 <= k < |at| ensures at[k].n == 0 && SonarrBehind(rows, trim, from[k], r[k]) {
      assert FirstAt(rows, emits, at[k], r[k]);
      forall j | 0 <= j < from[k] ensures trim(rows[j].title) != r[k].query {
        assert Before(Place(j, 0), at[k]) && !Emits(rows, emits, Place(j, 0), r[k].query);
      }
    }
    forall k, l | 0 <= k < l < |from| ensures from[k] < from[l] {
      assert Before(at[k], at[l]);
    }
    forall i | 0 <= i < |rows| && trim(rows[i].title) != "" ensures HasQuery(r, trim(rows[i].title)) {
      assert Emits(rows, emits, Place(i, 0), trim(rows[i].title));
    }
  }

  ghost predicate SonarrBehind(rows: seq<SonarrRow>, trim: string -> string, i: nat, c: Candidate) {
    && i < |rows| && c.query == trim(rows[i].title) && c.query != "" && c.mainTitle == rows[i].mainTitle
    && c.seasonNumber == rows[i].seasonNumber && c.year == 0
    && forall j | 0 <= j < i :: trim(rows[j].title) != c.query
  }

  /** The row with this trimmed title is also searched for with its year behind a space, unless it
      has none or ends so already. */
  ghost predicate Dated(row: RadarrRow, title: string, query: string) {
    row.year > 0 && IsDated(title, row.year, query) && !exists base :: IsDated(base, row.year, title)
  }

  ghost predicate IsDated(title: string, year: nat, query: string) {
    query == title + " " + Format(year)
  }

  ghost predicate Answers(row: RadarrRow, trim: string -> string, query: string) {
    trim(row.title) != "" && (query == trim(row.title) || Dated(row, trim(row.title), query))
  }

  ghost predicate RadarrBehind(rows: seq<RadarrRow>, trim: string -> string, i: nat, c: Candidate) {
    && i < |rows| && Answers(rows[i], trim, c.query)
    && c.mainTitle == rows[i].mainTitle && c.seasonNumber == 0 && c.year == rows[i].year
    && forall j | 0 <= j < i :: !Answers(rows[j], trim, c.query)
  }

  lemma YearSuffixIs(year: nat, title: string)
    ensures HasYearSuffix(title, year) <==> exists base :: IsDated(base, year, title)
  {
    var suffix := " " + Format(year);
    if HasYearSuffix(title, year) {
      SplitSuffix(title, suffix);
      assert IsDated(title[..|title| - |suffix|], year, title);
    }
    if base :| IsDated(base, year, title) {
      assert title == base + suffix;
    }
  }

  lemma SplitSuffix(s: string, suffix: string)
    requires |suffix| <= |s| && s[|s| - |suffix|..] == suffix
    ensures s == s[..|s| - |suffix|] + suffix
  {
  }

  /** A row emits exactly the queries it answers, the one with the year first. */
  lemma RowAnswers(rows: seq<RadarrRow>, trim: string -> string, emits: RadarrRow -> seq<Candidate>, p: Place,
                   query: string)
    requires p.row < |rows| && emits(rows[p.row]) == RadarrEmits(rows[p.row], trim)
    ensures Emits(rows, emits, p, query) ==> Answers(rows[p.row], trim, query) && p.n <= 1
    ensures Answers(rows[p.row], trim, query) ==>
      Emits(rows, emits, Place(p.row, 0), query) || Emits(rows, emits, Place(p.row, 1), query)
    ensures Emits(rows, emits, p, query) && p.n == 0 && |emits(rows[p.row])| == 2 ==>
      Dated(rows[p.row], trim(rows[p.row].title), query)
    ensures Emits(rows, emits, p, query) && p.n == 1 ==> query == trim(rows[p.row].title)
  {
    var row := rows[p.row];
    if row.year > 0 {
      YearSuffixIs(row.year, trim(row.title));
    }
  }

  /** The same for Radarr: a row answers its trimmed title and, before it, the one with its year. */
  lemma RadarrCandidatesAre(rows: seq<RadarrRow>, trim: string -> string, emits: RadarrRow -> seq<Candidate>)
      returns (from: seq<nat>)
    requires forall row :: emits(row) == RadarrEmits(row, trim)
    ensures var r := FromRows(rows, emits);
      && |from| == |r| && (forall k | 0 <= k < |from| :: RadarrBehind(rows, trim, from[k], r[k]))
      && (forall k, l | 0 <= k < l < |from| :: from[k] < from[l] ||
            (from[k] == from[l] && Dated(rows[from[k]], r[l].query, r[k].query)))
      && (forall i, query | 0 <= i < |rows| && Answers(rows[i], trim, query) :: HasQuery(r, query))
  {
    var at := CandidatesHavePlaces(rows, emits);
    var r := FromRows(rows, emits);
    from := seq(|at|, k requires 0 <= k < |at| => at[k].row);
    forall k | 0 <= k < |at| ensures RadarrBehind(rows, trim, from[k], r[k]) {
      assert FirstAt(rows, emits, at[k], r[k]);
      RowAnswers(rows, trim, emits, at[k], r[k].query);
      forall j | 0 <= j < from[k] ensures !Answers(rows[j], trim, r[k].query) {
        RowAnswers(rows, trim, emits, Place(j, 0), r[k].query);
        assert Before(Place(j, 0), at[k]) && Before(Place(j, 1), at[k]);
      }
    }
    forall k, l | 0 <= k < l < |from| ensures from[k] < from[l] ||
      (from[k] == from[l] && Dated(rows[from[k]], r[l].query, r[k].query))
    {
      assert Before(at[k], at[l]) && FirstAt(rows, emits, at[k], r[k]) && FirstAt(rows, emits, at[l], r[l]);
      RowAnswers(rows, trim, emits, at[k], r[k].query);
      RowAnswers(rows, trim, emits, at[l], r[l].query);
    }
    forall i, query | 0 <= i < |rows| && Answers(rows[i], trim, query) ensures HasQuery(r, query) {
      RowAnswers(rows, trim, emits, Place(i, 0), query);
    }
  }
}
