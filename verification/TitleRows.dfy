/** Which series can be mapped and stored (internal/sync/title/sonarr_mapper.go,
    internal/sync/title/id.go, internal/store/sqlite/repository_transaction.go), in terms of the
    series alone. */
module TitleRows {
  import opened Options
  import opened Decimal
  import opened TitleIds

  /** Ids, title and slug are there, and no alternate is without a title. */
  ghost predicate Complete(v: Series) {
    v.id > 0 && v.tvdbID > 0 && v.title != "" && v.slug != "" && forall a | a in v.alternates :: a.title != ""
  }

  function IdAt(v: Series, s: nat): int {
    v.tvdbID * Pow10(|Format(s)|) + s
  }

  /** Position `s` is one of the series: title, slug or an alternate. */
  predicate IsPosition(v: Series, s: int) {
    0 <= s < 2 + |v.alternates|
  }

  lemma SeriesExactly(v: Series)
    ensures SeriesOk(v) <==> Complete(v) && forall s | IsPosition(v, s) :: IdAt(v, s) <= MAX_INT32
  {
    forall s: nat | IsPosition(v, s) && v.tvdbID > 0
      ensures StableId(v.tvdbID, s) == if IdAt(v, s) <= MAX_INT32 then Some(IdAt(v, s)) else None
    {
      IdIsPositional(v.tvdbID, s);
    }
    if SeriesOk(v) {
      forall a | a in v.alternates ensures a.title != "" {
        var k :| 0 <= k < |v.alternates| && v.alternates[k] == a;
        assert CandidateOk(v, k + 2);
      }
      forall s | IsPosition(v, s) ensures IdAt(v, s) <= MAX_INT32 {
        assert CandidateOk(v, s);
      }
    }
    if Complete(v) && forall s | IsPosition(v, s) :: IdAt(v, s) <= MAX_INT32 {
      forall s | 0 <= s < |Alternates(v)| ensures CandidateOk(v, s) {
        assert IsPosition(v, s);
        assert s >= 2 ==> Alternates(v)[s] == v.alternates[s - 2] && v.alternates[s - 2] in v.alternates;
      }
    }
  }

  /** A position of series `i` and one of the later series `j` have one id. */
  ghost predicate Share(values: seq<Series>, i: int, s: int, j: int, t: int) {
    && 0 <= i < j < |values| && IsPosition(values[i], s) && IsPosition(values[j], t)
    && IdAt(values[i], s) == IdAt(values[j], t)
  }

  lemma IdIsAt(v: Series, s: nat)
    requires SeriesOk(v) && IsPosition(v, s)
    ensures StableId(v.tvdbID, s) == Some(IdAt(v, s))
  {
    assert CandidateOk(v, s);
    IdIsPositional(v.tvdbID, s);
  }

  /** Series can be mapped exactly when each is complete, each position of each has an id of at most
      32 bits, and no two series share one. */
  lemma MappableExactly(values: seq<Series>)
    ensures Mappable(values) <==>
      && (forall i | 0 <= i < |values| :: Complete(values[i]))
      && (forall i, s | 0 <= i < |values| && IsPosition(values[i], s) :: IdAt(values[i], s) <= MAX_INT32)
      && (forall i, s, j, t :: !Share(values, i, s, j, t))
  {
    forall i | 0 <= i < |values| ensures SeriesOk(values[i]) <==>
      Complete(values[i]) && forall s | IsPosition(values[i], s) :: IdAt(values[i], s) <= MAX_INT32
    {
      SeriesExactly(values[i]);
    }
    if SeriesUpTo(values, |values|) {
      forall i, s, j, t ensures Clash(values, i, s, j, t) <==> Share(values, i, s, j, t) {
        if 0 <= i < j < |values| && IsPosition(values[i], s) && IsPosition(values[j], t) {
          assert SeriesOk(values[i]) && SeriesOk(values[j]);
          IdIsAt(values[i], s);
          IdIsAt(values[j], t);
        }
      }
    }
  }

  // ----- Which rows can be stored -----

  lemma {:induction false} PlaceOf(values: seq<Series>, n: nat, k: nat) returns (i: nat, s: nat)
    requires n <= |values| && k < RowsBefore(values, n)
    ensures i < n && IsPosition(values[i], s) && k == RowsBefore(values, i) + s
  {
    if k < RowsBefore(values, n - 1) {
      i, s := PlaceOf(values, n - 1, k);
    } else {
      i, s := n - 1, k - RowsBefore(values, n - 1);
    }
  }

  /** The id is greater than the series number and the position in it. */
  lemma IdIsLarge(v: Series, s: nat)
    requires v.tvdbID > 0
    ensures IdAt(v, s) >= v.tvdbID && IdAt(v, s) >= s
  {
    var p := Pow10(|Format(s)|);
    assert p >= 1 && v.tvdbID * p >= v.tvdbID;
  }

  lemma RowStorable(values: seq<Series>, clean: string -> string, i: nat, s: nat) returns (row: Row)
    requires Mappable(values) && i < |values| && IsPosition(values[i], s)
    ensures var rows := AllRows(values, |values|, clean);
      RowsBefore(values, i) + s < |rows| && rows[RowsBefore(values, i) + s] == row
    ensures Storable(row) <==>
      values[i].id <= MAX_INT32 && (s >= 2 ==> IsInt32(values[i].alternates[s - 2].seasonNumber))
  {
    var id;
    id, row := MappedRowsSay(values, clean, i, s);
    assert SeriesOk(values[i]);
    SeriesExactly(values[i]);
    IdIsAt(values[i], s);
    IdIsLarge(values[i], s);
  }

  lemma FittingRow(values: seq<Series>, clean: string -> string, k: nat)
    requires Mappable(values) && forall i | 0 <= i < |values| :: SeriesFits(values[i])
    requires k < |AllRows(values, |values|, clean)|
    ensures Storable(AllRows(values, |values|, clean)[k])
  {
    RowsCount(values, clean);
    var i, s := PlaceOf(values, |values|, k);
    var row := RowStorable(values, clean, i, s);
    assert SeriesFits(values[i]);
    assert s >= 2 ==> values[i].alternates[s - 2] in values[i].alternates;
  }

  /** Mapped rows can all be stored exactly when the own id of each series and the seasons of its
      alternates fit in 32 bits; external ids and positions do if the row ids do. */
  lemma StorableExactly(values: seq<Series>, clean: string -> string)
    requires Mappable(values)
    ensures (forall r | r in AllRows(values, |values|, clean) :: Storable(r)) <==>
      (forall i | 0 <= i < |values| :: SeriesFits(values[i]))
  {
    var rows := AllRows(values, |values|, clean);
    if forall r | r in rows :: Storable(r) {
      forall i | 0 <= i < |values| ensures SeriesFits(values[i]) {
        AllStorable(values, clean, i);
      }
    }
    if forall i | 0 <= i < |values| :: SeriesFits(values[i]) {
      forall k | 0 <= k < |rows| ensures Storable(rows[k]) {
        FittingRow(values, clean, k);
      }
    }
  }

  ghost predicate SeriesFits(v: Series) {
    v.id <= 2147483647 && forall a | a in v.alternates :: -2147483648 <= a.seasonNumber <= 2147483647
  }

  lemma RowsCount(values: seq<Series>, clean: string -> string)
    requires Mappable(values)
    ensures |AllRows(values, |values|, clean)| == RowsBefore(values, |values|)
  {
    if values != [] {
      var id, row := MappedRowsSay(values, clean, 0, 0);
    }
  }

  lemma AllStorable(values: seq<Series>, clean: string -> string, i: nat)
    requires Mappable(values) && i < |values|
    requires forall r | r in AllRows(values, |values|, clean) :: Storable(r)
    ensures SeriesFits(values[i])
  {
    var row := RowStorable(values, clean, i, 0);
    forall a | a in values[i].alternates ensures IsInt32(a.seasonNumber) {
      var k :| 0 <= k < |values[i].alternates| && values[i].alternates[k] == a;
      var other := RowStorable(values, clean, i, k + 2);
    }
  }
}
