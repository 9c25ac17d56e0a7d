/** The loader: keyed lookups into `uploaded_data`, the preprocessing of the
    annual and the per-person tables, and the list of member companies. */
module DataLoader {
  import opened Tables
  import opened Sorting
  import opened FileUploader

  // ---------------------------------------------------------------------
  // Getters

  const AnnualLearningKey := "annual_learning"
  const MonthlyLearningKey := "monthly_learning"
  const IndividualKey := "individual_raw"
  const PopularCardsKey := "popular_cards"
  const SearchKeywordsKey := "search_keywords"
  const AreaStatusKey := "area_status"
  const IndividualFullKey := "individual_full_raw"

  /** The keys the seven getters read, in the order they are defined. */
  const GetterKeys := [AnnualLearningKey, MonthlyLearningKey, IndividualKey, PopularCardsKey,
                       SearchKeywordsKey, AreaStatusKey, IndividualFullKey]

  /** `df` is what a getter for `key` returns: the DataFrame object stored
      under `key`, or null when `uploaded_data` or the key is absent. */
  ghost predicate Serves(session: Session, key: string, df: Frame?)
    reads session, session.Frames()
  {
    && (df == null <==>
          session.View().None? || key !in session.View().value || session.View().value[key].StoredInfo?)
    && (df != null ==> df in session.Frames() && session.View().value[key] == StoredTable(df.Snapshot()))
  }

  /** A getter: the lookup of `key` in `uploaded_data`. */
  function Get(session: Session, key: string): (df: Frame?)
    reads session, session.Frames()
    ensures Serves(session, key, df)
  {
    if session.uploadedData.Some? && key in session.uploadedData.value && session.uploadedData.value[key].Stored?
    then session.uploadedData.value[key].frame
    else null
  }

  function GetAnnualLearningData(session: Session): (df: Frame?)
    reads session, session.Frames()
    ensures Serves(session, AnnualLearningKey, df)
  {
    Get(session, AnnualLearningKey)
  }

  function GetMonthlyLearningData(session: Session): (df: Frame?)
    reads session, session.Frames()
    ensures Serves(session, MonthlyLearningKey, df)
  {
    Get(session, MonthlyLearningKey)
  }

  function GetIndividualData(session: Session): (df: Frame?)
    reads session, session.Frames()
    ensures Serves(session, IndividualKey, df)
  {
    Get(session, IndividualKey)
  }

  function GetPopularCardsData(session: Session): (df: Frame?)
    reads session, session.Frames()
    ensures Serves(session, PopularCardsKey, df)
  {
    Get(session, PopularCardsKey)
  }

  function GetSearchKeywordsData(session: Session): (df: Frame?)
    reads session, session.Frames()
    ensures Serves(session, SearchKeywordsKey, df)
  {
    Get(session, SearchKeywordsKey)
  }

  function GetAreaStatusData(session: Session): (df: Frame?)
    reads session, session.Frames()
    ensures Serves(session, AreaStatusKey, df)
  {
    Get(session, AreaStatusKey)
  }

  function GetIndividualFullRawData(session: Session): (df: Frame?)
    reads session, session.Frames()
    ensures Serves(session, IndividualFullKey, df)
  {
    Get(session, IndividualFullKey)
  }

  /** No getter key ends in "_info", so no info entry is ever stored over
      one. */
  lemma GetterKeysAreNotInfoKeys(key: string)
    ensures forall g :: g in GetterKeys ==> key + InfoSuffix != g
  {
    var s := key + InfoSuffix;
    assert s[|s| - 1] == 'o';
    forall g | g in GetterKeys ensures g[|g| - 1] != 'o' {
    }
  }

  /** After save_to_session a getter finds the table of the last file stored
      under its key. */
  lemma {:induction false} GetAfterSave(m: map<string, EntryView>, saved: seq<Saved>, j: nat)
    requires j < |saved| && saved[j].table.Some? && saved[j].key in GetterKeys
    requires forall i :: j < i < |saved| && saved[i].table.Some? ==> saved[i].key != saved[j].key
    ensures saved[j].key in SavedView(m, saved)
    ensures SavedView(m, saved)[saved[j].key] == StoredTable(saved[j].table.value)
  {
    forall i | j < i < |saved| && saved[i].table.Some?
      ensures saved[i].key + InfoSuffix != saved[j].key
    {
      GetterKeysAreNotInfoKeys(saved[i].key);
    }
    SavedViewLastWins(m, saved, j);
  }

  // ---------------------------------------------------------------------
  // Numeric coercion

  /** `pd.to_numeric(col, errors='coerce')`. */
  function Numeric(col: seq<Value>): (r: seq<Value>)
    ensures |r| == |col| && forall i :: 0 <= i < |col| ==> r[i] == ToNumeric(col[i])
  {
    seq(|col|, i requires 0 <= i < |col| => ToNumeric(col[i]))
  }

  /** `df[name] = pd.to_numeric(df[name], errors='coerce')` when the column
      exists. */
  function CoerceColumn(t: Table, name: string): (r: Table)
    requires WellFormed(t)
    ensures WellFormed(r) && r.columns == t.columns && |r.rows| == |t.rows|
    ensures name in t.columns ==> Column(r, name) == Numeric(Column(t, name))
    ensures forall i, k :: 0 <= i < |t.rows| && 0 <= k < |t.columns| && t.columns[k] != name ==> r.rows[i][k] == t.rows[i][k]
    ensures name !in t.columns ==> r == t
  {
    if name in t.columns then WithColumn(t, name, Numeric(Column(t, name))) else t
  }

  /** The loop over `numeric_columns`. */
  function CoerceColumns(t: Table, names: seq<string>): (r: Table)
    requires WellFormed(t)
    ensures WellFormed(r) && r.columns == t.columns && |r.rows| == |t.rows|
  {
    if names == [] then t
    else CoerceColumn(CoerceColumns(t, names[..|names| - 1]), names[|names| - 1])
  }

  /** Two tables with one header agree on a column when they agree at its
      first position. */
  lemma SameColumn(t: Table, r: Table, name: string)
    requires WellFormed(t) && WellFormed(r) && r.columns == t.columns && |r.rows| == |t.rows|
    requires name in t.columns
    requires forall i :: 0 <= i < |t.rows| ==> r.rows[i][IndexOf(t.columns, name).value] == t.rows[i][IndexOf(t.columns, name).value]
    ensures Column(r, name) == Column(t, name)
  {
  }

  /** Every listed column that exists is coerced once, and every other
      column keeps its cells. */
  lemma {:induction false} CoerceColumnsCells(t: Table, names: seq<string>)
    requires WellFormed(t)
    ensures forall name :: name in names && name in t.columns ==>
              Column(CoerceColumns(t, names), name) == Numeric(Column(t, name))
    ensures forall i, k :: 0 <= i < |t.rows| && 0 <= k < |t.columns| && t.columns[k] !in names ==>
              CoerceColumns(t, names).rows[i][k] == t.rows[i][k]
  {
    if names != [] {
      var n := |names| - 1;
      var last := names[n];
      var front := CoerceColumns(t, names[..n]);
      var r := CoerceColumns(t, names);
      CoerceColumnsCells(t, names[..n]);
      assert forall name :: name in names <==> name in names[..n] || name == last;
      forall name | name in names && name in t.columns
        ensures Column(r, name) == Numeric(Column(t, name))
      {
        var k := IndexOf(t.columns, name).value;
        if name == last {
          if last !in names[..n] {
            SameColumn(t, front, last);
          } else {
            var c := Column(t, last);
            assert Numeric(Numeric(c)) == Numeric(c);
          }
        } else {
          assert name in names[..n];
          SameColumn(front, r, name);
        }
      }
    }
  }

  // ---------------------------------------------------------------------
  // preprocess_annual_data

  const AnnualNumericColumns := ["학습시간", "전년대비변화율", "상반기_학습시간", "하반기_학습시간"]

  /** Where a cell sorts: numbers first, then text, missing values last. */
  function Rank(v: Value): nat
  {
    match v
    case Int(_) => 0
    case Real(_) => 0
    case Text(_) => 1
    case Missing => 2
  }

  /** The order `sort_values('연도')` puts year cells in: numbers by value,
      text by code points, missing values last. */
  predicate YearLe(a: Value, b: Value)
  {
    if Rank(a) != Rank(b) then Rank(a) < Rank(b)
    else if a.Missing? then true
    else if a.Text? then LexLe(a.s, b.s)
    else AsNumber(a).value <= AsNumber(b).value
  }

  /** The year cell of a row, missing for a row too short to hold one. */
  function CellAt(row: seq<Value>, k: nat): Value
  {
    if k < |row| then row[k] else Missing
  }

  /** Rows compared by their cell at position k. */
  function ByCell(k: nat): (seq<Value>, seq<Value>) -> bool
  {
    (a: seq<Value>, b: seq<Value>) => YearLe(CellAt(a, k), CellAt(b, k))
  }

  lemma YearLeTotalPreorder(k: nat)
    ensures TotalPreorder(ByCell(k))
  {
    LexLeTotalPreorder();
    forall a: seq<Value>, b: seq<Value>, c: seq<Value> | ByCell(k)(a, b) && ByCell(k)(b, c)
      ensures ByCell(k)(a, c)
    {
      var x, y, z := CellAt(a, k), CellAt(b, k), CellAt(c, k);
      assert YearLe(x, y) && YearLe(y, z);
      if Rank(x) == Rank(y) == Rank(z) && x.Text? {
        assert LexLe(x.s, z.s);
      }
    }
    forall a: seq<Value>, b: seq<Value> ensures ByCell(k)(a, b) || ByCell(k)(b, a) {
      var x, y := CellAt(a, k), CellAt(b, k);
      if Rank(x) == Rank(y) && x.Text? {
        assert LexLe(x.s, y.s) || LexLe(y.s, x.s);
      }
    }
  }

  /** `df.sort_values('연도')`: a copy whose rows are those of t, ordered by
      year. */
  function SortByYear(t: Table): (r: Table)
    requires WellFormed(t) && YearColumn in t.columns
    ensures WellFormed(r) && r.columns == t.columns && |r.rows| == |t.rows|
    ensures multiset(r.rows) == multiset(t.rows)
  {
    var rows := Sort(t.rows, ByCell(IndexOf(t.columns, YearColumn).value));
    forall i | 0 <= i < |rows| ensures |rows[i]| == |t.columns| {
      assert rows[i] in multiset(rows);
    }
    assert |rows| == |multiset(rows)| == |multiset(t.rows)| == |t.rows|;
    Table(t.columns, rows)
  }

  /** The table preprocess_annual_data returns. */
  function AnnualPrepared(t: Table): (r: Table)
    requires WellFormed(t)
    ensures WellFormed(r) && r.columns == t.columns && |r.rows| == |t.rows|
  {
    CoerceColumns(if YearColumn in t.columns then SortByYear(t) else t, AnnualNumericColumns)
  }

  /** The result lists its years in ascending order, its rows are those of
      the input reordered, and only the four numeric columns change. */
  lemma AnnualSortedByYear(t: Table)
    requires WellFormed(t) && YearColumn in t.columns
    ensures var r := AnnualPrepared(t);
      forall i, j :: 0 <= i < j < |r.rows| ==> YearLe(Column(r, YearColumn)[i], Column(r, YearColumn)[j])
    ensures forall i, k :: 0 <= i < |t.rows| && 0 <= k < |t.columns| && t.columns[k] !in AnnualNumericColumns ==>
              AnnualPrepared(t).rows[i][k] == SortByYear(t).rows[i][k]
  {
    var s := SortByYear(t);
    var k := IndexOf(t.columns, YearColumn).value;
    YearLeTotalPreorder(k);
    SortSorted(t.rows, ByCell(k));
    CoerceColumnsCells(s, AnnualNumericColumns);
    assert YearColumn !in AnnualNumericColumns;
    var r := AnnualPrepared(t);
    forall i, j | 0 <= i < j < |r.rows|
      ensures YearLe(Column(r, YearColumn)[i], Column(r, YearColumn)[j])
    {
      assert ByCell(k)(s.rows[i], s.rows[j]);
    }
  }

  /** Without a year column the rows keep their order and only the four
      numeric columns change. */
  lemma AnnualWithoutYearKeepsOrder(t: Table)
    requires WellFormed(t) && YearColumn !in t.columns
    ensures forall i, k :: 0 <= i < |t.rows| && 0 <= k < |t.columns| && t.columns[k] !in AnnualNumericColumns ==>
              AnnualPrepared(t).rows[i][k] == t.rows[i][k]
  {
    CoerceColumnsCells(t, AnnualNumericColumns);
  }

  /** Every numeric column the result has holds only numbers and missing
      values. */
  lemma AnnualNumericCells(t: Table, name: string)
    requires WellFormed(t) && name in AnnualNumericColumns && name in t.columns
    ensures forall i :: 0 <= i < |t.rows| ==> !Column(AnnualPrepared(t), name)[i].Text?
  {
    var s := if YearColumn in t.columns then SortByYear(t) else t;
    CoerceColumnsCells(s, AnnualNumericColumns);
  }

  /** preprocess_annual_data. With a year column, `sort_values` makes a
      sorted copy and the caller's object is left alone; without one the
      numeric columns are converted on the caller's object itself. */
  method PreprocessAnnualData(df: Frame?) returns (r: Frame?)
    requires df != null ==> df.Valid()
    modifies df
    ensures df == null ==> r == null
    ensures df != null ==> r != null && r.Valid() && r.Snapshot() == AnnualPrepared(old(df.Snapshot()))
    ensures df != null && YearColumn in old(df.columns) ==> fresh(r) && unchanged(df)
    ensures df != null && YearColumn !in old(df.columns) ==> r == df
  {
    if df == null {
      return null;
    }
    r := df;
    if YearColumn in df.columns {
      r := new Frame(SortByYear(df.Snapshot()));
    }
    ghost var start := r.Snapshot();
    for i := 0 to |AnnualNumericColumns|
      invariant r.Valid() && r.Snapshot() == CoerceColumns(start, AnnualNumericColumns[..i])
      invariant YearColumn in old(df.columns) ==> fresh(r) && unchanged(df)
      invariant YearColumn !in old(df.columns) ==> r == df
    {
      assert AnnualNumericColumns[..i + 1][..i] == AnnualNumericColumns[..i];
      var name := AnnualNumericColumns[i];
      if name in r.columns {
        r.SetColumn(name, Numeric(Column(r.Snapshot(), name)));
      }
    }
    assert AnnualNumericColumns[..|AnnualNumericColumns|] == AnnualNumericColumns;
  }

  // ---------------------------------------------------------------------
  // preprocess_individual_data

  const OrganisationColumn := "조직"
  const DivisionColumn := "사업부"

  /** The value `unique()` files a cell under: numbers by value, so 2024 and
      2024.0 are one year. */
  function UniqueKey(v: Value): Value
  {
    match AsNumber(v)
    case Some(x) => Real(x)
    case None => v
  }

  /** `df['연도'].unique()`. */
  function DistinctYears(col: seq<Value>): (r: seq<Value>)
    ensures forall v :: v in r <==> exists i :: 0 <= i < |col| && UniqueKey(col[i]) == v
    ensures NoDuplicates(r)
  {
    var keys := seq(|col|, i requires 0 <= i < |col| => UniqueKey(col[i]));
    forall v ensures v in keys <==> exists i :: 0 <= i < |col| && UniqueKey(col[i]) == v {
      if v in keys {
        var i :| 0 <= i < |keys| && keys[i] == v;
        assert UniqueKey(col[i]) == v;
      }
      if exists i :: 0 <= i < |col| && UniqueKey(col[i]) == v {
        var i :| 0 <= i < |col| && UniqueKey(col[i]) == v;
        assert keys[i] == v;
      }
    }
    Dedup(keys)
  }

  /** The year filter applies: a year column with more than one distinct
      value. */
  predicate KeepsLatestOnly(t: Table)
    requires WellFormed(t)
  {
    YearColumn in t.columns && |DistinctYears(Column(t, YearColumn))| > 1
  }

  /** The largest text among the cells in Python's string order, none when
      no cell is a text. */
  function MaxText(col: seq<Value>): (m: Option<string>)
    ensures m.None? <==> forall i :: 0 <= i < |col| ==> !col[i].Text?
    ensures m.Some? ==> forall i :: 0 <= i < |col| && col[i].Text? ==> LexLe(col[i].s, m.value)
    ensures m.Some? ==> Text(m.value) in col
  {
    if col == [] then None
    else
      var rest := MaxText(col[1..]);
      assert forall i :: 1 <= i < |col| ==> col[1..][i - 1] == col[i];
      match col[0]
      case Text(x) =>
        LexLeTotal(x, x);
        if rest.None? then Some(x)
        else if LexLe(rest.value, x) then
          assert forall i :: 1 <= i < |col| && col[i].Text? ==> LexLe(col[i].s, x) by {
            forall i | 1 <= i < |col| && col[i].Text? ensures LexLe(col[i].s, x) {
              LexLeTransitive(col[i].s, rest.value, x);
            }
          }
          Some(x)
        else
          LexLeTotal(rest.value, x);
          rest
      case _ => rest
  }

  /** `df['연도'] == df['연도'].max()`. In a column with numbers the rows of
      the largest number are kept; in a column of texts (missing cells
      skipped) the rows of the largest text; in a column of missing cells
      none. */
  function LatestMask(col: seq<Value>): (keep: seq<bool>)
    ensures |keep| == |col|
    ensures MaxNumber(col).Some? ==>
      forall i :: 0 <= i < |col| ==> (keep[i] <==> AsNumber(col[i]) == MaxNumber(col))
    ensures MaxNumber(col).None? ==>
      forall i :: 0 <= i < |col| ==>
        (keep[i] <==> col[i].Text? && forall j :: 0 <= j < |col| && col[j].Text? ==> LexLe(col[j].s, col[i].s))
  {
    var latest := MaxNumber(col);
    if latest.Some? then
      seq(|col|, i requires 0 <= i < |col| => AsNumber(col[i]) == latest)
    else
      var top := MaxText(col);
      var keep := seq(|col|, i requires 0 <= i < |col| => top.Some? && col[i] == Text(top.value));
      assert forall i :: 0 <= i < |col| ==>
        (keep[i] <==> col[i].Text? && forall j :: 0 <= j < |col| && col[j].Text? ==> LexLe(col[j].s, col[i].s)) by {
        forall i | 0 <= i < |col|
          ensures keep[i] <==> col[i].Text? && forall j :: 0 <= j < |col| && col[j].Text? ==> LexLe(col[j].s, col[i].s)
        {
          if col[i].Text? && forall j :: 0 <= j < |col| && col[j].Text? ==> LexLe(col[j].s, col[i].s) {
            var j :| 0 <= j < |col| && col[j] == Text(top.value);
            LexLeAntisymmetric(col[i].s, top.value);
          }
        }
      }
      keep
  }

  /** `df[df['연도'] == latest_year].copy()` when the filter applies, the
      table itself otherwise. */
  function LatestYearRows(t: Table): (r: Table)
    requires WellFormed(t)
    ensures WellFormed(r) && r.columns == t.columns
  {
    if KeepsLatestOnly(t) then FilterRows(t, LatestMask(Column(t, YearColumn))) else t
  }

  /** `df['조직'] = df['사업부']` when there is a 사업부 column and no 조직
      column. */
  function WithOrganisation(t: Table): (r: Table)
    requires WellFormed(t)
    ensures WellFormed(r) && |r.rows| == |t.rows|
  {
    if DivisionColumn in t.columns && OrganisationColumn !in t.columns
    then WithColumn(t, OrganisationColumn, Column(t, DivisionColumn))
    else t
  }

  /** `dropna(subset=['학습시간'])`. */
  function DropMissingHours(t: Table): (r: Table)
    requires WellFormed(t) && HoursColumn in t.columns
    ensures WellFormed(r) && r.columns == t.columns
  {
    var hours := Column(t, HoursColumn);
    FilterRows(t, seq(|hours|, i requires 0 <= i < |hours| => !hours[i].Missing?))
  }

  /** The table preprocess_individual_data returns; none when it raises
      KeyError because there is no 학습시간 column to drop missing values
      from. */
  function IndividualPrepared(t: Table): (r: Option<Table>)
    requires WellFormed(t)
    ensures r.None? <==> HoursColumn !in t.columns
  {
    var coerced := CoerceColumn(t, HoursColumn);
    var organised := WithOrganisation(LatestYearRows(coerced));
    if HoursColumn in organised.columns then Some(DropMissingHours(organised)) else None
  }

  /** The caller's object after preprocess_individual_data: its hours are
      converted, and it gains the 조직 column when no year filter made a
      copy first. */
  function IndividualCallerAfter(t: Table): (r: Table)
    requires WellFormed(t)
    ensures WellFormed(r) && |r.rows| == |t.rows|
  {
    var coerced := CoerceColumn(t, HoursColumn);
    if KeepsLatestOnly(coerced) then coerced else WithOrganisation(coerced)
  }

  /** preprocess_individual_data. Returns the prepared table, or
      `keyError` when there is no 학습시간 column. The caller's object is
      changed in place as IndividualCallerAfter says, even when the call
      raises. */
  method PreprocessIndividualData(df: Frame?) returns (r: Frame?, keyError: bool)
    requires df != null ==> df.Valid()
    modifies df
    ensures df == null ==> r == null && !keyError
    ensures df != null ==> df.Valid() && df.Snapshot() == IndividualCallerAfter(old(df.Snapshot()))
    ensures df != null ==> (keyError <==> IndividualPrepared(old(df.Snapshot())).None?)
    ensures df != null && !keyError ==>
      r != null && fresh(r) && r.Valid() && r.Snapshot() == IndividualPrepared(old(df.Snapshot())).value
  {
    if df == null {
      return null, false;
    }
    ghost var t := df.Snapshot();
    if HoursColumn in df.columns {
      df.SetColumn(HoursColumn, Numeric(Column(df.Snapshot(), HoursColumn)));
    }
    assert df.Snapshot() == CoerceColumn(t, HoursColumn);
    var cur := df;
    if YearColumn in cur.columns {
      var years := Column(cur.Snapshot(), YearColumn);
      if |DistinctYears(years)| > 1 {
        cur := new Frame(FilterRows(cur.Snapshot(), LatestMask(years)));
      }
    }
    assert cur.Snapshot() == LatestYearRows(CoerceColumn(t, HoursColumn));
    if DivisionColumn in cur.columns && OrganisationColumn !in cur.columns {
      cur.SetColumn(OrganisationColumn, Column(cur.Snapshot(), DivisionColumn));
    }
    if HoursColumn !in cur.columns {
      return null, true;
    }
    r := new Frame(DropMissingHours(cur.Snapshot()));
    keyError := false;
  }

  /** With the year filter, a row is kept exactly when its year is the
      largest year in the column: the largest number, or in a column
      without numbers the largest text. */
  lemma LatestYearOnly(t: Table)
    requires WellFormed(t) && KeepsLatestOnly(t)
    ensures var years := Column(t, YearColumn);
            var k := IndexOf(t.columns, YearColumn).value;
      && MaxNumber(years).Some? ==> (forall row: seq<Value> :: row in LatestYearRows(t).rows ==> AsNumber(row[k]) == MaxNumber(years))
    ensures var years := Column(t, YearColumn);
      forall i :: 0 <= i < |t.rows| && MaxNumber(years).Some? && AsNumber(years[i]) == MaxNumber(years) ==>
        t.rows[i] in LatestYearRows(t).rows
    ensures var years := Column(t, YearColumn);
            var k := IndexOf(t.columns, YearColumn).value;
      MaxNumber(years).None? ==>
        forall row: seq<Value> :: row in LatestYearRows(t).rows ==>
          row[k].Text? && forall j :: 0 <= j < |years| && years[j].Text? ==> LexLe(years[j].s, row[k].s)
    ensures var years := Column(t, YearColumn);
      forall i :: 0 <= i < |t.rows| && MaxNumber(years).None? && years[i].Text?
                  && (forall j :: 0 <= j < |years| && years[j].Text? ==> LexLe(years[j].s, years[i].s)) ==>
        t.rows[i] in LatestYearRows(t).rows
    ensures MaxNumber(Column(t, YearColumn)).None? && MaxText(Column(t, YearColumn)).None? ==> LatestYearRows(t).rows == []
  {
    var years := Column(t, YearColumn);
    var mask := LatestMask(years);
    FilterRowsMembers(t, mask);
    if MaxNumber(years).None? && MaxText(years).None? {
      FilterRowsNone(t, mask);
    }
  }

  /** An all-text year column: the rows of the largest text year are kept,
      as `max()` picks "2025년" over "2024년". */
  lemma TextYearsKeepLatest()
    ensures LatestYearRows(Table([YearColumn], [[Text("2024년")], [Text("2025년")]])).rows == [[Text("2025년")]]
  {
    var t := Table([YearColumn], [[Text("2024년")], [Text("2025년")]]);
    var years := Column(t, YearColumn);
    assert years == [Text("2024년"), Text("2025년")];
    LexLeFirstDifference("2024년", "2025년", 3);
    assert |DistinctYears(years)| > 1 by {
      assert UniqueKey(years[0]) in DistinctYears(years) && UniqueKey(years[1]) in DistinctYears(years);
    }
    assert MaxNumber(years).None?;
    var mask := LatestMask(years);
    assert !mask[0] && mask[1];
    var t1 := Table(t.columns, t.rows[1..]);
    var t2 := Table(t.columns, t1.rows[1..]);
    assert t2.rows == [];
    assert FilterRows(t1, mask[1..]).rows == [t.rows[1]];
  }

  /** When every row has the same year, the year filter removes nothing. */
  lemma OneYearKeepsAllRows(t: Table)
    requires WellFormed(t) && YearColumn in t.columns
    requires var years := Column(t, YearColumn);
      forall i, j :: 0 <= i < |years| && 0 <= j < |years| ==> UniqueKey(years[i]) == UniqueKey(years[j])
    ensures LatestYearRows(t) == t
  {
    var years := Column(t, YearColumn);
    var d := DistinctYears(years);
    if years != [] {
      var x := UniqueKey(years[0]);
      forall i | 0 <= i < |d| ensures d[i] == x {
        assert d[i] in d;
      }
      SingleValueCount(d, x);
      NoDuplicatesCount(d, x);
    }
  }

  /** A 조직 column is added as a copy of 사업부 when it is missing and never
      overwritten when present. */
  lemma OrganisationCopied(t: Table)
    requires WellFormed(t)
    ensures DivisionColumn in t.columns && OrganisationColumn !in t.columns ==>
      Column(WithOrganisation(t), OrganisationColumn) == Column(t, DivisionColumn)
    ensures OrganisationColumn in t.columns ==> WithOrganisation(t) == t
  {
  }

  /** Every row of the result has hours, and every row of the table before
      dropna that has hours is in the result. */
  lemma NoRowWithoutHours(t: Table)
    requires WellFormed(t) && HoursColumn in t.columns
    ensures var k := IndexOf(t.columns, HoursColumn).value;
      forall row: seq<Value> :: row in DropMissingHours(t).rows ==> !row[k].Missing?
    ensures var k := IndexOf(t.columns, HoursColumn).value;
      forall i :: 0 <= i < |t.rows| && !t.rows[i][k].Missing? ==> t.rows[i] in DropMissingHours(t).rows
  {
    var hours := Column(t, HoursColumn);
    FilterRowsMembers(t, seq(|hours|, i requires 0 <= i < |hours| => !hours[i].Missing?));
  }

  /** After the conversion no hours cell holds text. */
  lemma CoercedHoursNotText(t: Table)
    requires WellFormed(t) && HoursColumn in t.columns
    ensures var k := IndexOf(t.columns, HoursColumn).value;
      forall row: seq<Value> :: row in CoerceColumn(t, HoursColumn).rows ==> !row[k].Text?
  {
    var c := CoerceColumn(t, HoursColumn);
    forall row: seq<Value> | row in c.rows ensures !row[IndexOf(t.columns, HoursColumn).value].Text? {
      var i :| 0 <= i < |c.rows| && c.rows[i] == row;
      assert Column(c, HoursColumn)[i] == ToNumeric(Column(t, HoursColumn)[i]);
    }
  }

  /** Adding 조직 keeps every existing column where it was. */
  lemma OrganisationKeepsColumns(t: Table, name: string)
    requires WellFormed(t) && name in t.columns
    ensures var r := WithOrganisation(t);
            var k := IndexOf(t.columns, name).value;
      && IndexOf(r.columns, name) == Some(k)
      && forall i :: 0 <= i < |t.rows| ==> r.rows[i][k] == t.rows[i][k]
  {
    if DivisionColumn in t.columns && OrganisationColumn !in t.columns {
      IndexOfExtend(t.columns, OrganisationColumn, name);
    }
  }

  /** In the result a row's hours are a number, so text hours are dropped
      with the missing ones. */
  lemma HoursAreNumbers(t: Table)
    requires WellFormed(t) && HoursColumn in t.columns
    ensures var r := IndividualPrepared(t).value;
            var k := IndexOf(r.columns, HoursColumn).value;
      forall row: seq<Value> :: row in r.rows ==> row[k].Int? || row[k].Real?
  {
    var coerced := CoerceColumn(t, HoursColumn);
    var filtered := LatestYearRows(coerced);
    var organised := WithOrganisation(filtered);
    var k := IndexOf(t.columns, HoursColumn).value;
    CoercedHoursNotText(t);
    assert forall row: seq<Value> :: row in filtered.rows ==> !row[k].Text?;
    OrganisationKeepsColumns(filtered, HoursColumn);
    assert forall i :: 0 <= i < |organised.rows| ==> !organised.rows[i][k].Text? by {
      forall i | 0 <= i < |organised.rows| ensures !organised.rows[i][k].Text? {
        assert filtered.rows[i] in filtered.rows;
      }
    }
    NoRowWithoutHours(organised);
    var r := DropMissingHours(organised);
    forall row: seq<Value> | row in r.rows ensures row[k].Int? || row[k].Real? {
      var i :| 0 <= i < |organised.rows| && organised.rows[i] == row;
      assert !row[k].Missing?;
    }
  }

  // ---------------------------------------------------------------------
  // get_company_list

  const CompanyColumn := "멤버사명"

  /** The names among the cells, in order. */
  function Texts(col: seq<Value>): (r: seq<string>)
    ensures forall x :: x in r <==> Text(x) in col
  {
    if col == [] then []
    else
      assert forall v :: v in col <==> v == col[0] || v in col[1..];
      match col[0]
      case Text(s) => [s] + Texts(col[1..])
      case _ => Texts(col[1..])
  }

  /** get_company_list: the distinct company names of the annual table,
      ascending; empty when that table or its 멤버사명 column is absent. */
  function GetCompanyList(session: Session): (r: seq<string>)
    requires session.Valid()
    reads session, session.Frames()
    ensures var df := GetAnnualLearningData(session);
      (df == null || CompanyColumn !in df.columns) ==> r == []
    ensures var df := GetAnnualLearningData(session);
      df != null && CompanyColumn in df.columns ==>
        forall x :: x in r <==> Text(x) in Column(df.Snapshot(), CompanyColumn)
    ensures forall i, j :: 0 <= i < j < |r| ==> LexLe(r[i], r[j]) && r[i] != r[j]
  {
    var df := GetAnnualLearningData(session);
    if df != null && CompanyColumn in df.columns
    then SortStrings(Dedup(Texts(Column(df.Snapshot(), CompanyColumn))))
    else []
  }
}
