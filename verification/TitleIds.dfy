/** Row ids of synchronised titles (internal/sync/title), and the table they replace
    (internal/store/sqlite/repository_transaction.go). */
module TitleIds {
  import opened Options
  import opened Decimal

  const MAX_INT32 := 2147483647

  /** `stableID`: the numerals of both numbers, one after the other, read as one number. */
  function StableId(external: int, sno: int): (r: Option<int>)
    ensures r.Some? ==> 0 <= r.value <= MAX_INT32
  {
    if external <= 0 || sno < 0 then None
    else
      ConcatDigits(external, sno);
      var value := Value(Format(external) + Format(sno));
      if value > MAX_INT32 then None else Some(value)
  }

  lemma ConcatDigits(external: nat, sno: nat)
    ensures AllDigits(Format(external) + Format(sno))
    ensures Value(Format(external) + Format(sno)) == external * Pow10(|Format(sno)|) + sno
  {
    ValueConcat(Format(external), Format(sno));
    ValueOfFormat(external);
    ValueOfFormat(sno);
  }

  /** The id is e * 10^digits(s) + s, and there is one exactly when that fits in 32 bits. */
  lemma IdIsPositional(external: int, sno: int)
    ensures StableId(external, sno) ==
      if external > 0 && sno >= 0 && external * Pow10(|Format(sno)|) + sno <= MAX_INT32
      then Some(external * Pow10(|Format(sno)|) + sno) else None
  {
    if external > 0 && sno >= 0 {
      ConcatDigits(external, sno);
    }
  }

  lemma {:induction false} Pow10Grows(k: nat, l: nat)
    requires k < l
    ensures 10 * Pow10(k) <= Pow10(l)
    decreases l
  {
    if k + 1 < l {
      Pow10Grows(k, l - 1);
    }
  }

  lemma FormatBelow(n: nat)
    ensures n < Pow10(|Format(n)|)
  {
    ValueOfFormat(n);
    ValueBelowPow10(Format(n));
  }

  lemma TimesGrows(e: nat, a: nat, b: nat)
    requires a <= b
    ensures e * a <= e * b
  {
  }

  lemma TenfoldIsMore(e: nat, p: nat, q: nat)
    requires e > 0 && 10 * p <= q
    ensures e * p + p <= e * q
  {
    TimesGrows(e, 10 * p, q);
    TimesGrows(p, 1, e);
    assert e * (10 * p) == 10 * (e * p);
  }

  lemma ShorterIsSmaller(external: nat, s: nat, t: nat)
    requires external > 0 && |Format(s)| < |Format(t)|
    ensures external * Pow10(|Format(s)|) + s < external * Pow10(|Format(t)|) + t
  {
    FormatBelow(s);
    Pow10Grows(|Format(s)|, |Format(t)|);
    TenfoldIsMore(external, Pow10(|Format(s)|), Pow10(|Format(t)|));
  }

  /** For one series or movie, different positions have different ids. */
  lemma InjectiveInPosition(external: int, s: int, t: int)
    requires StableId(external, s).Some? && StableId(external, s) == StableId(external, t)
    ensures s == t
  {
    IdIsPositional(external, s);
    IdIsPositional(external, t);
    if |Format(s)| < |Format(t)| {
      ShorterIsSmaller(external, s, t);
    } else if |Format(t)| < |Format(s)| {
      ShorterIsSmaller(external, t, s);
    }
  }

  /** A numeral without leading zeros is the one `FormatInt` writes for its value. */
  lemma {:induction false} FormatOfValue(s: string)
    requires AllDigits(s) && s != "" && s[0] != '0'
    ensures Value(s) > 0 && Format(Value(s)) == s
  {
    var n := |s| - 1;
    if n == 0 {
      assert Value(s[..0]) == 0;
      DigitOfChar(s[0]);
    } else {
      FormatOfValue(s[..n]);
      DigitOfChar(s[n]);
      assert Value(s) / 10 == Value(s[..n]) && Value(s) % 10 == DigitValue(s[n]);
    }
  }

  lemma DigitOfChar(c: char)
    requires IsDigit(c)
    ensures DigitChar(DigitValue(c)) == c && (c != '0' ==> DigitValue(c) > 0)
  {
    var d := DigitValue(c);
    assert d == 0 || d == 1 || d == 2 || d == 3 || d == 4 || d == 5 || d == 6 || d == 7 || d == 8 || d == 9;
  }

  /** `digits` moves from the end of the longer external id to the front of the other's
      position. */
  ghost predicate Shifts(external: nat, s: nat, longer: nat, t: nat, digits: string) {
    Format(longer) == Format(external) + digits && Format(s) == digits + Format(t)
  }

  lemma SplitTwice(a: string, b: string, c: string, d: string) returns (digits: string)
    requires a + b == c + d && |a| <= |c|
    ensures c == a + digits && b == digits + d
  {
    digits := c[|a|..];
    assert c[..|a|] == (c + d)[..|a|] == (a + b)[..|a|] == a;
    assert b == (a + b)[|a|..] == (c + d)[|a|..] == digits + d;
  }

  lemma SameNumeral(a: string, b: string)
    requires AllDigits(a) && a != "" && a[0] != '0' && AllDigits(b) && b != "" && b[0] != '0'
    requires Value(a) == Value(b)
    ensures a == b
  {
    FormatOfValue(a);
    FormatOfValue(b);
  }

  /** The id is the value of a numeral without a leading zero. */
  lemma IdNumeral(e: nat, s: nat)
    requires e > 0 && StableId(e, s).Some?
    ensures var text := Format(e) + Format(s);
      AllDigits(text) && text != "" && text[0] != '0' && Value(text) == StableId(e, s).value
  {
    ConcatDigits(e, s);
    assert (Format(e) + Format(s))[0] == Format(e)[0];
  }

  lemma SameIdSameText(e: nat, s: nat, f: nat, t: nat)
    requires e > 0 && f > 0 && StableId(e, s).Some? && StableId(e, s) == StableId(f, t)
    ensures Format(e) + Format(s) == Format(f) + Format(t)
  {
    IdNumeral(e, s);
    IdNumeral(f, t);
    SameNumeral(Format(e) + Format(s), Format(f) + Format(t));
  }

  /** Two different series or movies get the same id exactly when one external id continues
      the other with digits that start the other's position: 1 and 11 do, as 1|11 is 11|1. */
  lemma CollisionsAreShifts(e: nat, s: nat, f: nat, t: nat)
    requires e > 0 && f > 0 && |Format(e)| <= |Format(f)| && StableId(e, s).Some?
    ensures StableId(e, s) == StableId(f, t) <==> exists digits :: Shifts(e, s, f, t, digits)
  {
    if StableId(e, s) == StableId(f, t) {
      SameIdSameText(e, s, f, t);
      var digits := SplitTwice(Format(e), Format(s), Format(f), Format(t));
      assert Shifts(e, s, f, t, digits);
    }
    if digits :| Shifts(e, s, f, t, digits) {
      ShiftCollides(e, s, f, t, digits);
    }
  }

  lemma ShiftCollides(e: nat, s: nat, f: nat, t: nat, digits: string)
    requires e > 0 && f > 0 && Shifts(e, s, f, t, digits)
    ensures StableId(e, s) == StableId(f, t)
  {
    assert Format(e) + (digits + Format(t)) == (Format(e) + digits) + Format(t);
  }

  lemma CollisionExists()
    ensures StableId(1, 11) == StableId(11, 1) == Some(111)
  {
    IdIsPositional(1, 11);
    IdIsPositional(11, 1);
    assert |Format(11)| == 2 && |Format(1)| == 1;
    assert Pow10(2) == 100 && Pow10(1) == 10;
  }

  // ----- MapSonarr -----

  datatype Alternate = Alternate(title: string, seasonNumber: int)

  datatype Series = Series(id: int, tvdbID: int, title: string, slug: string, monitored: bool,
                           alternates: seq<Alternate>)

  datatype Row = Row(id: int, tvdbID: int, sno: int, mainTitle: string, title: string, cleanTitle: string,
                     seasonNumber: int, monitored: bool, seriesID: int)

  predicate Named(v: Series) {
    v.id > 0 && v.tvdbID > 0 && v.title != "" && v.slug != ""
  }

  function Alternates(v: Series): seq<Alternate> {
    [Alternate(v.title, -1), Alternate(v.slug, -1)] + v.alternates
  }

  /** Every candidate of the series has a title and an id of its own. */
  ghost predicate SeriesOk(v: Series) {
    Named(v) && CandidatesOk(v, |Alternates(v)|)
  }

  ghost predicate CandidatesOk(v: Series, n: nat)
    requires n <= |Alternates(v)|
  {
    forall s | 0 <= s < n :: CandidateOk(v, s)
  }

  predicate CandidateOk(v: Series, s: nat)
    requires s < |Alternates(v)|
  {
    Alternates(v)[s].title != "" && StableId(v.tvdbID, s).Some?
  }

  /** Candidates of two different series would share an id. */
  ghost predicate Clash(values: seq<Series>, i: int, s: int, j: int, t: int) {
    && 0 <= i < j < |values| && 0 <= s < |Alternates(values[i])| && 0 <= t < |Alternates(values[j])|
    && StableId(values[i].tvdbID, s) == StableId(values[j].tvdbID, t)
  }

  /** The first `n` series are in order. */
  ghost predicate SeriesUpTo(values: seq<Series>, n: nat)
    requires n <= |values|
  {
    forall i | 0 <= i < n :: SeriesOk(values[i])
  }

  ghost predicate Mappable(values: seq<Series>) {
    && SeriesUpTo(values, |values|)
    && (forall i, s, j, t :: !Clash(values, i, s, j, t))
  }

  function RowOf(v: Series, s: nat, clean: string -> string): Row
    requires s < |Alternates(v)| && StableId(v.tvdbID, s).Some?
  {
    RowWith(v, s, StableId(v.tvdbID, s).value, Alternates(v)[s], clean)
  }

  function RowWith(v: Series, s: nat, id: int, c: Alternate, clean: string -> string): Row {
    Row(id, v.tvdbID, s, v.title, if s >= 2 then c.title else v.title, clean(c.title), c.seasonNumber,
        v.monitored, v.id)
  }

  /** The rows of the first `n` candidates. */
  ghost function RowsUpTo(v: Series, n: nat, clean: string -> string): (rows: seq<Row>)
    requires n <= |Alternates(v)| && CandidatesOk(v, n)
    ensures |rows| == n
  {
    if n == 0 then []
    else
      assert CandidateOk(v, n - 1);
      RowsUpTo(v, n - 1, clean) + [RowOf(v, n - 1, clean)]
  }

  lemma {:induction false} RowsUpToAt(v: Series, n: nat, clean: string -> string, s: nat)
    requires s < n <= |Alternates(v)| && CandidatesOk(v, n)
    ensures CandidateOk(v, s) && RowsUpTo(v, n, clean)[s] == RowOf(v, s, clean)
  {
    assert CandidateOk(v, n - 1);
    if s < n - 1 {
      RowsUpToAt(v, n - 1, clean, s);
    }
  }

  function Flat<T>(blocks: seq<seq<T>>): seq<T> {
    if blocks == [] then [] else Flat(blocks[..|blocks| - 1]) + blocks[|blocks| - 1]
  }

  /** The rows of the first `n` series, series by series. */
  ghost function Blocks(values: seq<Series>, n: nat, clean: string -> string): (blocks: seq<seq<Row>>)
    requires n <= |values| && SeriesUpTo(values, n)
    ensures |blocks| == n
  {
    seq(n, i requires 0 <= i < n => assert SeriesOk(values[i]); RowsUpTo(values[i], |Alternates(values[i])|, clean))
  }

  /** One row for each candidate of the first `n` series, in order. */
  ghost function AllRows(values: seq<Series>, n: nat, clean: string -> string): seq<Row>
    requires n <= |values| && SeriesUpTo(values, n)
  {
    Flat(Blocks(values, n, clean))
  }

  /** The loops have passed candidate `t` of series `j` when they are at candidate `s` of series `i`. */
  predicate Passed(values: seq<Series>, j: int, t: int, i: int, s: int) {
    0 <= j < |values| && 0 <= t < |Alternates(values[j])| && (j < i || (j == i && t < s))
  }

  ghost predicate UsedId(values: seq<Series>, i: int, s: int, id: int) {
    exists j, t :: Passed(values, j, t, i, s) && StableId(values[j].tvdbID, t) == Some(id)
  }

  ghost predicate UsedPlace(values: seq<Series>, i: int, s: int, place: (int, int)) {
    exists j, t :: Passed(values, j, t, i, s) && (values[j].tvdbID, t) == place
  }

  /** No two passed candidates of different series share an id. */
  ghost predicate NoClashYet(values: seq<Series>, i: int, s: int) {
    forall j, t, k, u | Passed(values, k, u, i, s) :: !Clash(values, j, t, k, u)
  }

  /** The two maps of the loops hold what the passed candidates use. */
  ghost predicate Tracks(values: seq<Series>, i: int, s: int, ids: set<int>, places: set<(int, int)>) {
    && (forall x :: x in ids <==> UsedId(values, i, s, x))
    && (forall p :: p in places <==> UsedPlace(values, i, s, p))
    && NoClashYet(values, i, s)
  }

  lemma PassedNext(values: seq<Series>, j: int, t: int, i: int, s: int)
    requires 0 <= i < |values| && 0 <= s < |Alternates(values[i])|
    ensures Passed(values, j, t, i, s + 1) <==> Passed(values, j, t, i, s) || (j == i && t == s)
  {
  }

  lemma UsedNext(values: seq<Series>, i: int, s: int, id: int)
    requires 0 <= i < |values| && 0 <= s < |Alternates(values[i])| && StableId(values[i].tvdbID, s) == Some(id)
    ensures forall x :: UsedId(values, i, s + 1, x) <==> UsedId(values, i, s, x) || x == id
    ensures forall p :: UsedPlace(values, i, s + 1, p) <==> UsedPlace(values, i, s, p) || p == (values[i].tvdbID, s)
  {
    PassedNext(values, i, s, i, s);
    forall x ensures UsedId(values, i, s + 1, x) <==> UsedId(values, i, s, x) || x == id {
      if j, t :| Passed(values, j, t, i, s) && StableId(values[j].tvdbID, t) == Some(x) {
        PassedNext(values, j, t, i, s);
      }
      if j, t :| Passed(values, j, t, i, s + 1) && StableId(values[j].tvdbID, t) == Some(x) {
        PassedNext(values, j, t, i, s);
      }
    }
    forall p ensures UsedPlace(values, i, s + 1, p) <==> UsedPlace(values, i, s, p) || p == (values[i].tvdbID, s) {
      if j, t :| Passed(values, j, t, i, s) && (values[j].tvdbID, t) == p {
        PassedNext(values, j, t, i, s);
      }
      if j, t :| Passed(values, j, t, i, s + 1) && (values[j].tvdbID, t) == p {
        PassedNext(values, j, t, i, s);
      }
    }
  }

  /** A repeated position is a repeated id, and a repeated id is one of another series. */
  lemma RepeatsClash(values: seq<Series>, i: int, s: int, id: int)
    requires 0 <= i < |values| && 0 <= s < |Alternates(values[i])| && StableId(values[i].tvdbID, s) == Some(id)
    ensures UsedPlace(values, i, s, (values[i].tvdbID, s)) ==> UsedId(values, i, s, id)
    ensures UsedId(values, i, s, id) ==> exists j, t :: Clash(values, j, t, i, s)
  {
    if UsedId(values, i, s, id) {
      var j, t :| Passed(values, j, t, i, s) && StableId(values[j].tvdbID, t) == Some(id);
      if j == i {
        InjectiveInPosition(values[i].tvdbID, t, s);
      }
      assert Clash(values, j, t, i, s);
    }
  }

  lemma NoClashNext(values: seq<Series>, i: int, s: int, id: int)
    requires 0 <= i < |values| && 0 <= s < |Alternates(values[i])| && StableId(values[i].tvdbID, s) == Some(id)
    requires NoClashYet(values, i, s) && !UsedId(values, i, s, id)
    ensures NoClashYet(values, i, s + 1)
  {
    forall j, t, k, u | Passed(values, k, u, i, s + 1) ensures !Clash(values, j, t, k, u) {
      PassedNext(values, k, u, i, s);
      if k == i && u == s && Clash(values, j, t, i, s) {
        assert Passed(values, j, t, i, s);
      }
    }
  }

  lemma NextSeries(values: seq<Series>, i: int, n: int, ids: set<int>, places: set<(int, int)>)
    requires 0 <= i < |values| && n == |Alternates(values[i])| && Tracks(values, i, n, ids, places)
    ensures Tracks(values, i + 1, 0, ids, places)
  {
    assert forall j, t :: Passed(values, j, t, i, n) <==> Passed(values, j, t, i + 1, 0);
    assert forall x :: UsedId(values, i, n, x) <==> UsedId(values, i + 1, 0, x);
    assert forall p :: UsedPlace(values, i, n, p) <==> UsedPlace(values, i + 1, 0, p);
  }

  lemma OneMoreRow(before: seq<Row>, v: Series, s: nat, id: int, clean: string -> string)
    requires s < |Alternates(v)| && CandidatesOk(v, s) && Alternates(v)[s].title != "" &&
      StableId(v.tvdbID, s) == Some(id)
    ensures CandidatesOk(v, s + 1)
    ensures before + RowsUpTo(v, s + 1, clean)
         == (before + RowsUpTo(v, s, clean)) + [RowWith(v, s, id, Alternates(v)[s], clean)]
  {
    assert CandidateOk(v, s);
  }

  lemma OneMoreSeries(values: seq<Series>, i: nat, clean: string -> string)
    requires i < |values| && SeriesUpTo(values, i) && Named(values[i]) &&
      CandidatesOk(values[i], |Alternates(values[i])|)
    ensures SeriesUpTo(values, i + 1)
    ensures AllRows(values, i + 1, clean)
         == AllRows(values, i, clean) + RowsUpTo(values[i], |Alternates(values[i])|, clean)
  {
    assert Blocks(values, i + 1, clean)[..i] == Blocks(values, i, clean);
  }

  lemma AllPassed(values: seq<Series>)
    requires SeriesUpTo(values, |values|) && NoClashYet(values, |values|, 0)
    ensures Mappable(values)
  {
    forall i, s, j, t ensures !Clash(values, i, s, j, t) {
      if Clash(values, i, s, j, t) {
        assert Passed(values, j, t, |values|, 0);
      }
    }
  }

  /** What the loop body does with a candidate that has an id. */
  lemma CandidateStep(values: seq<Series>, i: int, s: int, id: int, ids: set<int>, places: set<(int, int)>)
    requires 0 <= i < |values| && 0 <= s < |Alternates(values[i])| && StableId(values[i].tvdbID, s) == Some(id)
    requires Tracks(values, i, s, ids, places)
    ensures (values[i].tvdbID, s) in places || id in ids ==> !Mappable(values)
    ensures id !in ids ==> Tracks(values, i, s + 1, ids + {id}, places + {(values[i].tvdbID, s)})
  {
    RepeatsClash(values, i, s, id);
    UsedNext(values, i, s, id);
    if id !in ids {
      NoClashNext(values, i, s, id);
    }
  }

  lemma NotMappable(values: seq<Series>, i: int, s: int)
    requires 0 <= i < |values|
    requires !Named(values[i]) || (0 <= s < |Alternates(values[i])| && !CandidateOk(values[i], s))
    ensures !Mappable(values)
  {
    assert !SeriesOk(values[i]);
  }

  /** Mapping succeeds exactly when every series is complete, every candidate has an id, and
      no two series share one; then there is one row per candidate. */
  method MapSonarr(values: seq<Series>, clean: string -> string) returns (r: Option<seq<Row>>)
    ensures r.Some? <==> Mappable(values)
    ensures r.Some? ==> r.value == AllRows(values, |values|, clean)
  {
    var rows: seq<Row> := [];
    var ids: set<int> := {};
    var places: set<(int, int)> := {};
    for i := 0 to |values|
      invariant SeriesUpTo(values, i)
      invariant rows == AllRows(values, i, clean)
      invariant Tracks(values, i, 0, ids, places)
    {
      var v := values[i];
      if v.id <= 0 || v.tvdbID <= 0 || v.title == "" || v.slug == "" {
        NotMappable(values, i, 0);
        return None;
      }
      var candidates := Alternates(v);
      ghost var before := rows;
      for s := 0 to |candidates|
        invariant CandidatesOk(v, s)
        invariant rows == before + RowsUpTo(v, s, clean)
        invariant Tracks(values, i, s, ids, places)
      {
        if candidates[s].title == "" {
          NotMappable(values, i, s);
          return None;
        }
        var id := StableId(v.tvdbID, s);
        if id.None? {
          NotMappable(values, i, s);
          return None;
        }
        CandidateStep(values, i, s, id.value, ids, places);
        if (v.tvdbID, s) in places {
          return None;
        }
        places := places + {(v.tvdbID, s)};
        if id.value in ids {
          return None;
        }
        ids := ids + {id.value};
        OneMoreRow(before, v, s, id.value, clean);
        rows := rows + [RowWith(v, s, id.value, candidates[s], clean)];
      }
      NextSeries(values, i, |candidates|, ids, places);
      OneMoreSeries(values, i, clean);
    }
    AllPassed(values);
    r := Some(rows);
  }

  // ----- The rows have distinct ids -----

  ghost predicate DistinctIds(rows: seq<Row>) {
    forall k, l | 0 <= k < l < |rows| :: rows[k].id != rows[l].id
  }

  ghost predicate Apart(a: seq<Row>, b: seq<Row>) {
    forall k, l | 0 <= k < |a| && 0 <= l < |b| :: a[k].id != b[l].id
  }

  ghost predicate DistinctBlocks(blocks: seq<seq<Row>>) {
    && (forall i | 0 <= i < |blocks| :: DistinctIds(blocks[i]))
    && (forall i, j | 0 <= i < j < |blocks| :: Apart(blocks[i], blocks[j]))
  }

  lemma {:induction false} FlatApart(blocks: seq<seq<Row>>, b: seq<Row>)
    requires forall i | 0 <= i < |blocks| :: Apart(blocks[i], b)
    ensures Apart(Flat(blocks), b)
  {
    if blocks != [] {
      FlatApart(blocks[..|blocks| - 1], b);
    }
  }

  lemma {:induction false} FlatIsDistinct(blocks: seq<seq<Row>>)
    requires DistinctBlocks(blocks)
    ensures DistinctIds(Flat(blocks))
  {
    if blocks != [] {
      FlatIsDistinct(blocks[..|blocks| - 1]);
      FlatApart(blocks[..|blocks| - 1], blocks[|blocks| - 1]);
    }
  }

  lemma BlocksAt(values: seq<Series>, n: nat, clean: string -> string, i: nat)
    requires i < n <= |values| && SeriesUpTo(values, n)
    ensures SeriesOk(values[i]) && Blocks(values, n, clean)[i] == RowsUpTo(values[i], |Alternates(values[i])|, clean)
  {
  }

  lemma SeriesIdsAreDistinct(v: Series, n: nat, clean: string -> string, rows: seq<Row>)
    requires n <= |Alternates(v)| && CandidatesOk(v, n) && rows == RowsUpTo(v, n, clean)
    ensures DistinctIds(rows)
  {
    forall k, l | 0 <= k < l < |rows| ensures rows[k].id != rows[l].id {
      RowsUpToAt(v, n, clean, k);
      RowsUpToAt(v, n, clean, l);
      if rows[k].id == rows[l].id {
        InjectiveInPosition(v.tvdbID, k, l);
      }
    }
  }

  lemma SeriesApart(values: seq<Series>, i: nat, j: nat, clean: string -> string, a: seq<Row>, b: seq<Row>)
    requires Mappable(values) && i < j < |values| && SeriesOk(values[i]) && SeriesOk(values[j])
    requires a == RowsUpTo(values[i], |Alternates(values[i])|, clean) &&
      b == RowsUpTo(values[j], |Alternates(values[j])|, clean)
    ensures Apart(a, b)
  {
    forall k, l | 0 <= k < |a| && 0 <= l < |b| ensures a[k].id != b[l].id {
      RowsUpToAt(values[i], |a|, clean, k);
      RowsUpToAt(values[j], |b|, clean, l);
      assert !Clash(values, i, k, j, l);
    }
  }

  /** Whenever mapping succeeds, all ids are distinct. */
  lemma MappedIdsAreDistinct(values: seq<Series>, clean: string -> string)
    requires Mappable(values)
    ensures DistinctIds(AllRows(values, |values|, clean))
  {
    var blocks := Blocks(values, |values|, clean);
    forall i | 0 <= i < |blocks| ensures DistinctIds(blocks[i]) {
      BlocksAt(values, |values|, clean, i);
      SeriesIdsAreDistinct(values[i], |Alternates(values[i])|, clean, blocks[i]);
    }
    forall i, j | 0 <= i < j < |blocks| ensures Apart(blocks[i], blocks[j]) {
      BlocksAt(values, |values|, clean, i);
      BlocksAt(values, |values|, clean, j);
      SeriesApart(values, i, j, clean, blocks[i], blocks[j]);
    }
    FlatIsDistinct(blocks);
  }

  // ----- The table -----

  predicate IsInt32(x: int) {
    -2147483648 <= x <= MAX_INT32
  }

  /** `validateSonarrTitle` on the fields a mapped row has. */
  predicate Storable(r: Row) {
    IsInt32(r.id) && IsInt32(r.tvdbID) && IsInt32(r.sno) && IsInt32(r.seasonNumber) && IsInt32(r.seriesID)
  }

  function Upserted(table: map<int, Row>, rows: seq<Row>): map<int, Row> {
    if rows == [] then table
    else Upserted(table, rows[..|rows| - 1])[rows[|rows| - 1].id := rows[|rows| - 1]]
  }

  const BATCH_LIMIT := 200

  /** The sonarr_title table inside a transaction. */
  class Transaction {
    var table: map<int, Row>

    constructor (table: map<int, Row>)
      ensures this.table == table
    {
      this.table := table;
    }

    method UpsertSonarrTitles(rows: seq<Row>) returns (ok: bool)
      modifies this
      ensures ok <==> forall r | r in rows :: Storable(r)
      ensures ok ==> table == Upserted(old(table), rows)
    {
      var start := 0;
      while start < |rows|
        invariant 0 <= start
        invariant forall k | 0 <= k < start && k < |rows| :: Storable(rows[k])
        invariant table == Upserted(old(table), rows[..if start < |rows| then start else |rows|])
      {
        var end := if start + BATCH_LIMIT < |rows| then start + BATCH_LIMIT else |rows|;
        for k := start to end
          invariant forall l | 0 <= l < k :: Storable(rows[l])
          invariant table == Upserted(old(table), rows[..k])
        {
          if !Storable(rows[k]) {
            assert rows[k] in rows;
            return false;
          }
          assert rows[..k + 1][..k] == rows[..k];
          table := table[rows[k].id := rows[k]];
        }
        start := start + BATCH_LIMIT;
      }
      assert rows[..|rows|] == rows;
      ok := true;
    }

    method ReplaceSonarrTitles(rows: seq<Row>) returns (ok: bool)
      modifies this
      ensures ok <==> forall r | r in rows :: Storable(r)
      ensures ok ==> table == Upserted(map[], rows)
    {
      table := map[];
      ok := UpsertSonarrTitles(rows);
    }
  }

  /** The committed table. */
  class Store {
    var table: map<int, Row>

    /** A replacement that fails leaves the table alone; one that succeeds leaves its rows only. */
    method Replace(rows: seq<Row>) returns (ok: bool)
      modifies this
      ensures ok <==> forall r | r in rows :: Storable(r)
      ensures table == if ok then Upserted(map[], rows) else old(table)
    {
      var tx := new Transaction(table);
      ok := tx.ReplaceSonarrTitles(rows);
      if ok {
        table := tx.table;
      }
    }

    /** `SonarrService.Sync` after the fetch. */
    method Sync(values: seq<Series>, clean: string -> string) returns (ok: bool)
      modifies this
      ensures ok <==> Mappable(values) && forall r | r in AllRows(values, |values|, clean) :: Storable(r)
      ensures table == if ok then Upserted(map[], AllRows(values, |values|, clean)) else old(table)
    {
      var rows := MapSonarr(values, clean);
      if rows.None? {
        return false;
      }
      ok := Replace(rows.value);
    }
  }

  /** The table holds each of the rows under its id and nothing else. */
  ghost predicate HoldsRows(table: map<int, Row>, rows: seq<Row>) {
    && |table| == |rows|
    && (forall id | id in table :: HasId(rows, id))
    && (forall k | 0 <= k < |rows| :: RowIn(table, rows[k]))
  }

  ghost predicate HasId(rows: seq<Row>, id: int) {
    exists k :: 0 <= k < |rows| && rows[k].id == id
  }

  ghost predicate RowIn(table: map<int, Row>, row: Row) {
    row.id in table && table[row.id] == row
  }

  lemma HoldsOneMore(table: map<int, Row>, rows: seq<Row>, last: Row)
    requires HoldsRows(table, rows) && !HasId(rows, last.id)
    ensures HoldsRows(table[last.id := last], rows + [last])
  {
    var next, more := table[last.id := last], rows + [last];
    assert next.Keys == table.Keys + {last.id};
    assert |next| == |next.Keys| && |table| == |table.Keys|;
    forall id | id in next ensures HasId(more, id) {
      if id == last.id {
        assert more[|rows|].id == id;
      } else {
        var k :| 0 <= k < |rows| && rows[k].id == id;
        assert more[k].id == id;
      }
    }
    forall k | 0 <= k < |more| ensures RowIn(next, more[k]) {
      if k < |rows| {
        assert RowIn(table, rows[k]) && rows[k].id != last.id;
      }
    }
  }

  lemma {:induction false} UpsertedRows(rows: seq<Row>)
    requires DistinctIds(rows)
    ensures HoldsRows(Upserted(map[], rows), rows)
  {
    if rows != [] {
      var n := |rows| - 1;
      UpsertedRows(rows[..n]);
      assert rows == rows[..n] + [rows[n]];
      assert !HasId(rows[..n], rows[n].id);
      HoldsOneMore(Upserted(map[], rows[..n]), rows[..n], rows[n]);
    }
  }

  /** After a replacement with mapped titles, the table holds exactly their rows: none was
      overwritten by another. */
  lemma NothingIsOverwritten(values: seq<Series>, clean: string -> string)
    requires Mappable(values)
    ensures var rows := AllRows(values, |values|, clean);
      var table := Upserted(map[], rows);
      && |table| == |rows| && (forall id | id in table :: table[id] in rows)
      && (forall k | 0 <= k < |rows| :: rows[k].id in table && table[rows[k].id] == rows[k])
  {
    MappedIdsAreDistinct(values, clean);
    UpsertedRows(AllRows(values, |values|, clean));
  }

  // ----- What the mapped rows say -----

  /** The row of position `s` of the series: the series' own data, and the title, clean title and
      season that the position stands for. Positions 0 and 1 are the title and the slug, which
      both keep the series' title; the alternates follow. */
  ghost predicate RowSays(row: Row, v: Series, s: nat, clean: string -> string, id: int) {
    && row.id == id && row.sno == s
    && row.tvdbID == v.tvdbID && row.seriesID == v.id && row.mainTitle == v.title && row.monitored == v.monitored
    && (s == 0 ==> row.title == v.title && row.cleanTitle == clean(v.title) && row.seasonNumber == -1)
    && (s == 1 ==> row.title == v.title && row.cleanTitle == clean(v.slug) && row.seasonNumber == -1)
    && (s >= 2 ==> s - 2 < |v.alternates|
                   && row.title == v.alternates[s - 2].title && row.cleanTitle == clean(v.alternates[s - 2].title)
                   && row.seasonNumber == v.alternates[s - 2].seasonNumber)
  }

  lemma RowOfSays(v: Series, s: nat, clean: string -> string, id: int)
    requires s < |Alternates(v)| && StableId(v.tvdbID, s) == Some(id)
    ensures RowSays(RowOf(v, s, clean), v, s, clean, id)
  {
  }

  /** Where block `i` begins in the flat sequence. */
  function Offset<T>(blocks: seq<seq<T>>, i: nat): nat
    requires i <= |blocks|
  {
    if i == 0 then 0 else Offset(blocks, i - 1) + |blocks[i - 1]|
  }

  lemma {:induction false} OffsetInFront<T>(blocks: seq<seq<T>>, n: nat, i: nat)
    requires i <= n <= |blocks|
    ensures Offset(blocks[..n], i) == Offset(blocks, i)
  {
    if i > 0 {
      OffsetInFront(blocks, n, i - 1);
    }
  }

  lemma {:induction false} FlatAt<T>(blocks: seq<seq<T>>, i: nat, k: nat)
    requires i < |blocks| && k < |blocks[i]|
    ensures |Flat(blocks)| == Offset(blocks, |blocks|)
    ensures Offset(blocks, i) + k < |Flat(blocks)| && Flat(blocks)[Offset(blocks, i) + k] == blocks[i][k]
    decreases |blocks|
  {
    var n := |blocks| - 1;
    FlatLength(blocks[..n]);
    OffsetInFront(blocks, n, n);
    if i < n {
      FlatAt(blocks[..n], i, k);
      OffsetInFront(blocks, n, i);
    }
  }

  lemma {:induction false} FlatLength<T>(blocks: seq<seq<T>>)
    ensures |Flat(blocks)| == Offset(blocks, |blocks|)
  {
    if blocks != [] {
      var n := |blocks| - 1;
      FlatLength(blocks[..n]);
      OffsetInFront(blocks, n, n);
    }
  }

  /** How many rows the first `n` series yield. */
  function RowsBefore(values: seq<Series>, n: nat): nat
    requires n <= |values|
  {
    if n == 0 then 0 else RowsBefore(values, n - 1) + 2 + |values[n - 1].alternates|
  }

  lemma {:induction false} OffsetsCount(values: seq<Series>, blocks: seq<seq<Row>>, n: nat)
    requires n <= |values| == |blocks| && forall i | 0 <= i < |blocks| :: |blocks[i]| == 2 + |values[i].alternates|
    ensures Offset(blocks, n) == RowsBefore(values, n)
  {
    if n > 0 {
      OffsetsCount(values, blocks, n - 1);
    }
  }

  lemma BlockSizes(values: seq<Series>, clean: string -> string)
    requires SeriesUpTo(values, |values|)
    ensures var blocks := Blocks(values, |values|, clean);
      forall i | 0 <= i < |blocks| :: |blocks[i]| == 2 + |values[i].alternates|
  {
    forall i | 0 <= i < |values| ensures |Blocks(values, |values|, clean)[i]| == 2 + |values[i].alternates| {
      assert SeriesOk(values[i]);
    }
  }

  lemma BlockSays(values: seq<Series>, clean: string -> string, i: nat, s: nat) returns (id: int, row: Row)
    requires SeriesUpTo(values, |values|) && i < |values| && s < 2 + |values[i].alternates|
    ensures StableId(values[i].tvdbID, s) == Some(id) && RowSays(row, values[i], s, clean, id)
    ensures var block := Blocks(values, |values|, clean)[i];
      s < |block| && block[s] == row
  {
    var v := values[i];
    assert SeriesOk(v);
    RowsUpToAt(v, |Alternates(v)|, clean, s);
    id, row := StableId(v.tvdbID, s).value, RowOf(v, s, clean);
    RowOfSays(v, s, clean, id);
  }

  lemma RowAt(values: seq<Series>, clean: string -> string, i: nat, s: nat)
    requires SeriesUpTo(values, |values|) && i < |values| && s < |Blocks(values, |values|, clean)[i]|
    ensures var rows := AllRows(values, |values|, clean);
      && |rows| == RowsBefore(values, |values|) && RowsBefore(values, i) + s < |rows|
      && rows[RowsBefore(values, i) + s] == Blocks(values, |values|, clean)[i][s]
  {
    BlockSizes(values, clean);
    RowInBlocks(values, Blocks(values, |values|, clean), i, s);
  }

  lemma RowInBlocks(values: seq<Series>, blocks: seq<seq<Row>>, i: nat, s: nat)
    requires |blocks| == |values| && i < |blocks| && s < |blocks[i]|
    requires forall j | 0 <= j < |blocks| :: |blocks[j]| == 2 + |values[j].alternates|
    ensures |Flat(blocks)| == RowsBefore(values, |values|) && RowsBefore(values, i) + s < |Flat(blocks)|
    ensures Flat(blocks)[RowsBefore(values, i) + s] == blocks[i][s]
  {
    OffsetsCount(values, blocks, i);
    OffsetsCount(values, blocks, |values|);
    FlatAt(blocks, i, s);
  }

  /** Mapping yields the rows of the series one after the other, each series with its title, its
      slug and its alternates in this order. */
  lemma MappedRowsSay(values: seq<Series>, clean: string -> string, i: nat, s: nat) returns (id: int, row: Row)
    requires Mappable(values) && i < |values| && s < 2 + |values[i].alternates|
    ensures StableId(values[i].tvdbID, s) == Some(id) && RowSays(row, values[i], s, clean, id)
    ensures var rows := AllRows(values, |values|, clean);
      && |rows| == RowsBefore(values, |values|) && RowsBefore(values, i) + s < |rows|
      && rows[RowsBefore(values, i) + s] == row
  {
    id, row := BlockSays(values, clean, i, s);
    RowAt(values, clean, i, s);
  }
}
