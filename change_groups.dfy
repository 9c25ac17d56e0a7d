/** The change-group classifier (modules/change_group_analyzer.py): pivots
    (person, year, hours) rows into a person x year table, picks two
    comparison years, and puts every person into one of five groups by a
    first-match-wins chain of rules; then summarises each group. */
module ChangeGroups {
  import opened Tables
  import opened Sorting

  // ---------------------------------------------------------------------
  // Input

  /** A year cell: an integer, a float or a text. Only integer labels pass
      the `isinstance(col, int)` filter of the pivot's columns. */
  datatype YearKey = IntYear(year: int) | FloatYear(value: real) | TextYear(name: string)

  /** One row of the long table, cut down to the three columns the analysis
      reads; `None` is a missing cell. */
  datatype Observation = Observation(person: Option<string>, year: Option<YearKey>, hours: Option<real>)

  /** The dtype pandas gave the year column when it read the upload. A
      selection of rows, such as the dashboard's company filter, keeps the
      dtype of the frame it was cut from. */
  datatype YearType = Int64 | Float64 | Object

  /** The DataFrame handed to the analysis: its header, its rows and the
      dtype of its year column. */
  datatype ObservationTable = ObservationTable(columns: seq<string>, rows: seq<Observation>, yearType: YearType)

  const YearColumn := "연도"
  const HoursColumn := "학습시간"
  const PersonColumn := "개인ID"

  /** The first year the analysis looks at. */
  const FirstYear := 2022

  /** `df is None or df.empty` */
  predicate NoTable(df: Option<ObservationTable>)
  {
    df.None? || |df.value.rows| == 0 || |df.value.columns| == 0
  }

  // ---------------------------------------------------------------------
  // Thresholds

  datatype Thresholds = Thresholds(low: real, high: real, increase: real, decrease: real)

  const DefaultThresholds := Thresholds(0.5, 1.5, 0.1, -0.1)

  const ThresholdsSection := "change_group_thresholds"

  /** load_thresholds: `config` is the parsed configuration file, `None` when
      there is no file. */
  function LoadThresholds(config: Option<map<string, Thresholds>>): (t: Thresholds)
    ensures config.None? ==> t == DefaultThresholds
    ensures config.Some? && ThresholdsSection !in config.value ==> t == DefaultThresholds
    ensures config.Some? && ThresholdsSection in config.value ==> t == config.value[ThresholdsSection]
  {
    match config
    case None => DefaultThresholds
    case Some(m) => if ThresholdsSection in m then m[ThresholdsSection] else DefaultThresholds
  }

  // ---------------------------------------------------------------------
  // The pivot table

  /** groupby drops the rows whose person or year is missing. */
  predicate Grouped(o: Observation)
  {
    o.person.Some? && o.year.Some?
  }

  /** The cells a year column of each dtype can hold: int64 only integers,
      float64 no text, object anything. */
  predicate Admits(t: YearType, o: Observation)
  {
    match t
    case Int64 => o.year.Some? && o.year.value.IntYear?
    case Float64 => o.year.None? || !o.year.value.TextYear?
    case Object => true
  }

  predicate WellTyped(table: ObservationTable)
  {
    forall i :: 0 <= i < |table.rows| ==> Admits(table.yearType, table.rows[i])
  }

  predicate HasTextYear(rows: seq<Observation>)
  {
    exists i :: 0 <= i < |rows| && rows[i].year.Some? && rows[i].year.value.TextYear?
  }

  /** A numeric column with a missing cell or a fractional year, and no
      text. */
  predicate FloatColumn(rows: seq<Observation>)
  {
    && (exists i :: 0 <= i < |rows| && (rows[i].year.None? || rows[i].year.value.FloatYear?))
    && !HasTextYear(rows)
  }

  /** The dtype pandas infers when it reads the column: object once a cell
      is a text, float64 once a numeric column has a missing cell or a
      fractional year, int64 otherwise. */
  function InferredYearType(rows: seq<Observation>): (t: YearType)
    ensures t == Object <==> HasTextYear(rows)
    ensures t == Float64 <==> FloatColumn(rows)
    ensures forall i :: 0 <= i < |rows| ==> Admits(t, rows[i])
  {
    if HasTextYear(rows) then Object
    else if FloatColumn(rows) then Float64
    else Int64
  }

  /** An integer year cell read from a float64 column. */
  function AsFloat(o: Observation): (r: Observation)
    ensures r.person == o.person && r.hours == o.hours && (r.year.None? <==> o.year.None?)
    ensures o.year.Some? && o.year.value.IntYear? ==> r.year == Some(FloatYear(o.year.value.year as real))
    ensures o.year.None? || !o.year.value.IntYear? ==> r == o
  {
    match o.year
    case Some(IntYear(y)) => o.(year := Some(FloatYear(y as real)))
    case _ => o
  }

  /** The rows with the year labels the pivot sees: in a float64 column no
      year is an integer (2024 is the label 2024.0); int64 and object
      columns keep their cells as they are. */
  function YearLabels(table: ObservationTable): (labelled: seq<Observation>)
    ensures |labelled| == |table.rows|
    ensures table.yearType != Float64 ==> labelled == table.rows
    ensures forall i :: 0 <= i < |table.rows| ==>
      && labelled[i].person == table.rows[i].person && labelled[i].hours == table.rows[i].hours
      && (labelled[i].year.None? <==> table.rows[i].year.None?)
    ensures table.yearType == Float64 ==> forall i :: 0 <= i < |labelled| && labelled[i].year.Some? ==> !labelled[i].year.value.IntYear?
  {
    var rows := table.rows;
    if table.yearType == Float64 then seq(|rows|, i requires 0 <= i < |rows| => AsFloat(rows[i])) else rows
  }

  /** The persons of the grouped rows, in row order. */
  function Persons(rows: seq<Observation>): seq<string>
  {
    if rows == [] then []
    else (if Grouped(rows[0]) then [rows[0].person.value] else []) + Persons(rows[1..])
  }

  /** The integer years of the grouped rows, in row order. */
  function IntYears(rows: seq<Observation>): seq<int>
  {
    if rows == [] then []
    else (if Grouped(rows[0]) && rows[0].year.value.IntYear? then [rows[0].year.value.year] else []) + IntYears(rows[1..])
  }

  /** The integer years from FirstYear on, in row order. */
  function RecentYears(rows: seq<Observation>): seq<int>
  {
    if rows == [] then []
    else (if Grouped(rows[0]) && rows[0].year.value.IntYear? && rows[0].year.value.year >= FirstYear
          then [rows[0].year.value.year] else []) + RecentYears(rows[1..])
  }

  /** The pivot's index: every grouped person once, in ascending order. */
  function PivotIndex(rows: seq<Observation>): (index: seq<string>)
    ensures forall p :: p in index <==> p in Persons(rows)
    ensures NoDuplicates(index)
    ensures forall i, j :: 0 <= i < j < |index| ==> LexLe(index[i], index[j]) && index[i] != index[j]
  {
    SortStrings(Dedup(Persons(rows)))
  }

  /** `available_years`: the distinct integer year columns from FirstYear
      on, ascending. */
  function AvailableYears(rows: seq<Observation>): (years: seq<int>)
    ensures forall y :: y in years <==> y in RecentYears(rows)
    ensures forall i, j :: 0 <= i < j < |years| ==> years[i] < years[j]
  {
    SortInts(Dedup(RecentYears(rows)))
  }

  function HoursOf(o: Observation): real
  {
    match o.hours
    case Some(h) => h
    case None => 0.0
  }

  /** What one row adds to the pivot cell (p, y). */
  function Contribution(o: Observation, p: string, y: int): real
  {
    if o.person == Some(p) && o.year == Some(IntYear(y)) then HoursOf(o) else 0.0
  }

  /** The pivot cell (p, y): `pivot_table(aggfunc='sum').fillna(0)`. A
      missing hours cell adds nothing, and a (person, year) pair without
      rows is 0. */
  function CellHours(rows: seq<Observation>, p: string, y: int): real
  {
    if rows == [] then 0.0 else Contribution(rows[0], p, y) + CellHours(rows[1..], p, y)
  }

  /** The sum of column y over the persons ps. */
  function ColumnSum(rows: seq<Observation>, ps: seq<string>, y: int): real
  {
    if ps == [] then 0.0 else ColumnSum(rows, ps[..|ps| - 1], y) + CellHours(rows, ps[|ps| - 1], y)
  }

  /** The mean of column y over the persons ps. */
  function ColumnMean(rows: seq<Observation>, ps: seq<string>, y: int): real
    requires |ps| > 0
  {
    ColumnSum(rows, ps, y) / (|ps| as real)
  }

  /** All hours recorded for year y in rows that reach the pivot. */
  function YearTotal(rows: seq<Observation>, y: int): real
  {
    if rows == [] then 0.0
    else (if rows[0].person.Some? && rows[0].year == Some(IntYear(y)) then HoursOf(rows[0]) else 0.0)
         + YearTotal(rows[1..], y)
  }

  // ---------------------------------------------------------------------
  // Comparison years, baseline and rate

  /** The cases in which classify_change_groups returns `{}`. */
  predicate Unclassifiable(df: Option<ObservationTable>)
  {
    || NoTable(df)
    || YearColumn !in df.value.columns
    || HoursColumn !in df.value.columns
    || PersonColumn !in df.value.columns
    || |IntYears(YearLabels(df.value))| == 0
    || |AvailableYears(YearLabels(df.value))| < 2
  }

  lemma {:induction false} NoIntYears(rows: seq<Observation>)
    requires forall i :: 0 <= i < |rows| && rows[i].year.Some? ==> !rows[i].year.value.IntYear?
    ensures IntYears(rows) == []
  {
    if rows != [] {
      assert forall i :: 0 <= i < |rows[1..]| ==> rows[1..][i] == rows[i + 1];
      NoIntYears(rows[1..]);
    }
  }

  /** A float64 year column leaves the pivot without integer year columns:
      the classifier returns `{}` and the statistics have no year to
      average. */
  lemma FloatColumnUnclassifiable(df: Option<ObservationTable>)
    requires !NoTable(df) && df.value.yearType == Float64
    ensures Unclassifiable(df) && AvailableYears(YearLabels(df.value)) == []
  {
    var rows := YearLabels(df.value);
    NoIntYears(rows);
    PersonsCoverYears(rows);
  }

  /** Two persons, one of whose rows has no year: the upload's year column
      is float64 and the classification is `{}` although A has hours in
      2024 and 2025. */
  lemma MissingYearGivesNoGroups()
    ensures var rows := [Observation(Some("A"), Some(IntYear(2024)), Some(10.0)),
                         Observation(Some("A"), Some(IntYear(2025)), Some(20.0)),
                         Observation(Some("B"), None, Some(5.0))];
            InferredYearType(rows) == Float64
            && Unclassifiable(Some(ObservationTable([PersonColumn, YearColumn, HoursColumn], rows, InferredYearType(rows))))
  {
    var rows := [Observation(Some("A"), Some(IntYear(2024)), Some(10.0)),
                 Observation(Some("A"), Some(IntYear(2025)), Some(20.0)),
                 Observation(Some("B"), None, Some(5.0))];
    assert rows[2].year.None?;
    FloatColumnUnclassifiable(Some(ObservationTable([PersonColumn, YearColumn, HoursColumn], rows, InferredYearType(rows))));
  }

  /** A's two rows read as a file of their own: an int64 column with the
      years 2024 and 2025, which the classifier accepts. */
  lemma TwoIntYearsClassified(own: seq<Observation>)
    requires own == [Observation(Some("A"), Some(IntYear(2024)), Some(10.0)),
                     Observation(Some("A"), Some(IntYear(2025)), Some(20.0))]
    ensures InferredYearType(own) == Int64
    ensures !Unclassifiable(Some(ObservationTable([PersonColumn, YearColumn, HoursColumn], own, InferredYearType(own))))
  {
    assert !HasTextYear(own) && !FloatColumn(own);
    assert own[1..][1..] == [];
    assert IntYears(own[1..]) == [2025];
    assert IntYears(own) == [2024, 2025];
    assert RecentYears(own[1..]) == [2025];
    assert RecentYears(own) == [2024, 2025];
    var years := AvailableYears(own);
    assert 2024 in years && 2025 in years;
  }

  /** The same upload filtered down to A's rows: the selection keeps the
      upload's float64 column and is not classified, while the same rows
      read as a file of their own (int64) are. */
  lemma SelectionKeepsUploadType()
    ensures var rows := [Observation(Some("A"), Some(IntYear(2024)), Some(10.0)),
                         Observation(Some("A"), Some(IntYear(2025)), Some(20.0)),
                         Observation(Some("B"), None, Some(5.0))];
            var columns := [PersonColumn, YearColumn, HoursColumn];
            && Unclassifiable(Some(ObservationTable(columns, rows[..2], InferredYearType(rows))))
            && !Unclassifiable(Some(ObservationTable(columns, rows[..2], InferredYearType(rows[..2]))))
  {
    var rows := [Observation(Some("A"), Some(IntYear(2024)), Some(10.0)),
                 Observation(Some("A"), Some(IntYear(2025)), Some(20.0)),
                 Observation(Some("B"), None, Some(5.0))];
    var columns := [PersonColumn, YearColumn, HoursColumn];
    assert rows[2].year.None?;
    FloatColumnUnclassifiable(Some(ObservationTable(columns, rows[..2], InferredYearType(rows))));
    TwoIntYearsClassified(rows[..2]);
  }

  /** The two comparison years: 2024 and 2025 when both are present,
      otherwise the two latest years from FirstYear on. */
  function ComparisonYears(rows: seq<Observation>): (ab: (int, int))
    requires |AvailableYears(rows)| >= 2
    ensures ab.0 < ab.1 && ab.0 in RecentYears(rows) && ab.1 in RecentYears(rows)
    ensures 2024 in RecentYears(rows) && 2025 in RecentYears(rows) ==> ab == (2024, 2025)
    ensures !(2024 in RecentYears(rows) && 2025 in RecentYears(rows)) ==>
      && (forall y :: y in RecentYears(rows) ==> y <= ab.1)
      && (forall y :: y in RecentYears(rows) && y != ab.1 ==> y <= ab.0)
  {
    var years := AvailableYears(rows);
    if 2024 in years && 2025 in years then (2024, 2025)
    else
      var n := |years|;
      assert forall i :: 0 <= i < n - 2 ==> years[i] < years[n - 2];
      (years[n - 2], years[n - 1])
  }

  /** What the per-person loop reads: the pivot index, the comparison years
      and the baseline `overall_mean`. */
  datatype Comparison = Comparison(index: seq<string>, yearA: int, yearB: int, overallMean: real)

  lemma {:induction false} PersonsCoverYears(rows: seq<Observation>)
    ensures |RecentYears(rows)| > 0 ==> |Persons(rows)| > 0
    ensures |RecentYears(rows)| <= |IntYears(rows)|
  {
    if rows != [] {
      PersonsCoverYears(rows[1..]);
    }
  }

  function Compare(rows: seq<Observation>): (c: Comparison)
    requires |AvailableYears(rows)| >= 2
    ensures |c.index| > 0
  {
    PersonsCoverYears(rows);
    var index := PivotIndex(rows);
    assert Persons(rows)[0] in index;
    var (a, b) := ComparisonYears(rows);
    Comparison(index, a, b, (ColumnMean(rows, index, a) + ColumnMean(rows, index, b)) / 2.0)
  }

  /** A year-over-year rate in percent. pandas divides floats, so a zero
      denominator gives an infinity, and 0/0 gives NaN, which `fillna(0)`
      turns into 0. */
  datatype Rate = Finite(percent: real) | PlusInfinity | MinusInfinity

  /** `(h_b - h_a) / (h_a + 1) * 100`, the `+ 1` keeping the usual
      denominator (hours are not negative) away from zero. */
  function ChangeRate(ha: real, hb: real): (r: Rate)
    ensures ha + 1.0 != 0.0 ==> r.Finite? && r.percent * (ha + 1.0) == (hb - ha) * 100.0
    ensures ha > -1.0 ==> (r.Finite? && r.percent > 0.0 <==> hb > ha)
    ensures ha > -1.0 ==> (r.Finite? && r.percent < 0.0 <==> hb < ha)
    ensures ha + 1.0 == 0.0 ==> (r == PlusInfinity <==> hb > ha) && (r == MinusInfinity <==> hb < ha)
    ensures ha + 1.0 == 0.0 && hb == ha ==> r == Finite(0.0)
  {
    if ha + 1.0 != 0.0 then Finite((hb - ha) / (ha + 1.0) * 100.0)
    else if hb - ha > 0.0 then PlusInfinity
    else if hb - ha < 0.0 then MinusInfinity
    else Finite(0.0)
  }

  predicate AtLeast(r: Rate, bound: real)
  {
    match r
    case Finite(v) => v >= bound
    case PlusInfinity => true
    case MinusInfinity => false
  }

  predicate AtMost(r: Rate, bound: real)
  {
    match r
    case Finite(v) => v <= bound
    case PlusInfinity => false
    case MinusInfinity => true
  }

  // ---------------------------------------------------------------------
  // Groups

  datatype Group = PersistentlyLow | PersistentlyHigh | Rising | Falling | Irregular

  /** The keys of the result, in the order the result lists them. */
  const GroupOrder: seq<Group> := [PersistentlyLow, PersistentlyHigh, Rising, Falling, Irregular]

  function GroupName(g: Group): string
  {
    match g
    case PersistentlyLow => "지속 저학습군"
    case PersistentlyHigh => "지속 고학습군"
    case Rising => "상승군"
    case Falling => "하락군"
    case Irregular => "불규칙군"
  }

  predicate IsLow(h: real, mean: real, t: Thresholds) { h < mean * t.low }

  predicate IsHigh(h: real, mean: real, t: Thresholds) { h > mean * t.high }

  /** The rule chain, first match wins: low in both years, high in both
      years, rate at least the increase threshold, rate at most the
      decrease threshold, otherwise irregular. */
  function Classify(ha: real, hb: real, mean: real, t: Thresholds): Group
  {
    var rate := ChangeRate(ha, hb);
    if IsLow(ha, mean, t) && IsLow(hb, mean, t) then PersistentlyLow
    else if IsHigh(ha, mean, t) && IsHigh(hb, mean, t) then PersistentlyHigh
    else if AtLeast(rate, t.increase * 100.0) then Rising
    else if AtMost(rate, t.decrease * 100.0) then Falling
    else Irregular
  }

  /** The group of person p. */
  function PersonGroup(rows: seq<Observation>, c: Comparison, t: Thresholds, p: string): Group
  {
    Classify(CellHours(rows, p, c.yearA), CellHours(rows, p, c.yearB), c.overallMean, t)
  }

  /** The persons of ps in group g, in the order of ps. */
  function Members(rows: seq<Observation>, c: Comparison, t: Thresholds, g: Group, ps: seq<string>): seq<string>
  {
    if ps == [] then []
    else
      Members(rows, c, t, g, ps[..|ps| - 1])
        + (if PersonGroup(rows, c, t, ps[|ps| - 1]) == g then [ps[|ps| - 1]] else [])
  }

  /** `groups` is the classifier's dict after the persons ps: the five
      labels in order, each with the members of its group among ps. */
  predicate ClassifiedSoFar(groups: seq<(string, seq<string>)>, rows: seq<Observation>, c: Comparison, t: Thresholds, ps: seq<string>)
  {
    && |groups| == 5
    && forall k :: 0 <= k < 5 ==> groups[k] == (GroupName(GroupOrder[k]), Members(rows, c, t, GroupOrder[k], ps))
  }

  /** The classifier's dict for the whole pivot index. */
  predicate IsClassification(groups: seq<(string, seq<string>)>, rows: seq<Observation>, c: Comparison, t: Thresholds)
  {
    ClassifiedSoFar(groups, rows, c, t, c.index)
  }

  /** The position of g's key in the dict. */
  function Position(g: Group): (k: nat)
    ensures k < 5 && GroupOrder[k] == g
  {
    match g
    case PersistentlyLow => 0
    case PersistentlyHigh => 1
    case Rising => 2
    case Falling => 3
    case Irregular => 4
  }

  lemma MembersAppend(rows: seq<Observation>, c: Comparison, t: Thresholds, g: Group, ps: seq<string>, p: string)
    ensures Members(rows, c, t, g, ps + [p])
         == Members(rows, c, t, g, ps) + (if PersonGroup(rows, c, t, p) == g then [p] else [])
  {
    assert (ps + [p])[..|ps|] == ps;
  }

  /** Appending p to the list of its own group keeps the dict in step with
      the persons seen so far. */
  lemma {:induction false} ClassifyStep(groups: seq<(string, seq<string>)>, rows: seq<Observation>, c: Comparison, t: Thresholds,
                                        ps: seq<string>, p: string)
    requires ClassifiedSoFar(groups, rows, c, t, ps)
    ensures var k := Position(PersonGroup(rows, c, t, p));
            ClassifiedSoFar(groups[k := (groups[k].0, groups[k].1 + [p])], rows, c, t, ps + [p])
  {
    var k := Position(PersonGroup(rows, c, t, p));
    var after := groups[k := (groups[k].0, groups[k].1 + [p])];
    forall j | 0 <= j < 5
      ensures after[j] == (GroupName(GroupOrder[j]), Members(rows, c, t, GroupOrder[j], ps + [p]))
    {
      assert GroupOrder[j] == GroupOrder[k] <==> j == k;
      MembersAppend(rows, c, t, GroupOrder[j], ps, p);
      assert groups[j] == (GroupName(GroupOrder[j]), Members(rows, c, t, GroupOrder[j], ps));
      if j == k {
        assert after[j] == (groups[j].0, groups[j].1 + [p]);
        assert PersonGroup(rows, c, t, p) == GroupOrder[j];
        assert Members(rows, c, t, GroupOrder[j], ps + [p]) == Members(rows, c, t, GroupOrder[j], ps) + [p];
        assert after[j].1 == Members(rows, c, t, GroupOrder[j], ps + [p]);
        assert after[j].0 == GroupName(GroupOrder[j]);
      } else {
        assert after[j] == groups[j];
        assert Members(rows, c, t, GroupOrder[j], ps + [p]) == Members(rows, c, t, GroupOrder[j], ps);
      }
    }
  }

  /** The loop of classify_change_groups over the pivot index: appends each
      person to the list of the first rule that matches. */
  method GroupPersons(rows: seq<Observation>, c: Comparison, t: Thresholds) returns (groups: seq<(string, seq<string>)>)
    ensures IsClassification(groups, rows, c, t)
  {
    var lowBound := c.overallMean * t.low;
    var highBound := c.overallMean * t.high;
    groups := [(GroupName(PersistentlyLow), []), (GroupName(PersistentlyHigh), []), (GroupName(Rising), []),
               (GroupName(Falling), []), (GroupName(Irregular), [])];
    for i := 0 to |c.index|
      invariant ClassifiedSoFar(groups, rows, c, t, c.index[..i])
    {
      var p := c.index[i];
      var timeA := CellHours(rows, p, c.yearA);
      var timeB := CellHours(rows, p, c.yearB);
      var rate := ChangeRate(timeA, timeB);
      assert (timeA < lowBound && timeB < lowBound) == (IsLow(timeA, c.overallMean, t) && IsLow(timeB, c.overallMean, t));
      assert (timeA > highBound && timeB > highBound) == (IsHigh(timeA, c.overallMean, t) && IsHigh(timeB, c.overallMean, t));
      var g: Group;
      if timeA < lowBound && timeB < lowBound {
        g := PersistentlyLow;
      } else if timeA > highBound && timeB > highBound {
        g := PersistentlyHigh;
      } else if AtLeast(rate, t.increase * 100.0) {
        g := Rising;
      } else if AtMost(rate, t.decrease * 100.0) {
        g := Falling;
      } else {
        g := Irregular;
      }
      assert g == Classify(timeA, timeB, c.overallMean, t);
      assert g == PersonGroup(rows, c, t, p);
      ClassifyStep(groups, rows, c, t, c.index[..i], p);
      assert c.index[..i + 1] == c.index[..i] + [p];
      var k := Position(g);
      groups := groups[k := (groups[k].0, groups[k].1 + [p])];
    }
    assert c.index[..|c.index|] == c.index;
  }

  /** classify_change_groups, with the thresholds passed in. Returns `[]` for
      `{}`. */
  method ClassifyChangeGroups(df: Option<ObservationTable>, t: Thresholds) returns (groups: seq<(string, seq<string>)>)
    ensures groups == [] <==> Unclassifiable(df)
    ensures !Unclassifiable(df) ==> IsClassification(groups, YearLabels(df.value), Compare(YearLabels(df.value)), t)
  {
    if df.None? || |df.value.rows| == 0 || |df.value.columns| == 0 {
      return [];
    }
    var table := df.value;
    if YearColumn !in table.columns || HoursColumn !in table.columns {
      return [];
    }
    if PersonColumn !in table.columns {
      return [];
    }
    var rows := YearLabels(table);
    if |IntYears(rows)| == 0 {
      return [];
    }
    var available := AvailableYears(rows);
    if |available| < 2 {
      return [];
    }
    groups := GroupPersons(rows, Compare(rows), t);
  }

  // ---------------------------------------------------------------------
  // What the classification promises

  lemma {:induction false} MembersCount(rows: seq<Observation>, c: Comparison, t: Thresholds, g: Group, ps: seq<string>, p: string)
    ensures multiset(Members(rows, c, t, g, ps))[p] == if PersonGroup(rows, c, t, p) == g then multiset(ps)[p] else 0
  {
    if ps != [] {
      var n := |ps| - 1;
      var front, last := ps[..n], ps[n];
      MembersCount(rows, c, t, g, front, p);
      assert ps == front + [last];
      assert multiset(ps) == multiset(front) + multiset{last};
      assert Members(rows, c, t, g, ps) == Members(rows, c, t, g, front) + (if PersonGroup(rows, c, t, last) == g then [last] else []);
    }
  }

  lemma {:induction false} PersonsOfGroupedRows(rows: seq<Observation>, i: nat)
    requires i < |rows| && Grouped(rows[i])
    ensures rows[i].person.value in Persons(rows)
  {
    if i > 0 {
      PersonsOfGroupedRows(rows[1..], i - 1);
    }
  }

  /** Every person of the pivot is listed exactly once, under its own group,
      and nobody else is listed: the five lists partition the pivot index,
      persons whose rows all lie outside the comparison years included. */
  lemma EveryPersonListedOnce(df: Option<ObservationTable>, t: Thresholds, groups: seq<(string, seq<string>)>, p: string)
    requires !Unclassifiable(df)
    requires IsClassification(groups, YearLabels(df.value), Compare(YearLabels(df.value)), t)
    ensures var rows := YearLabels(df.value);
            forall k :: 0 <= k < 5 ==>
              multiset(groups[k].1)[p]
                == if p in Persons(rows) && GroupOrder[k] == PersonGroup(rows, Compare(rows), t, p) then 1 else 0
  {
    var rows := YearLabels(df.value);
    var c := Compare(rows);
    NoDuplicatesCount(c.index, p);
    forall k | 0 <= k < 5 {
      MembersCount(rows, c, t, GroupOrder[k], c.index, p);
    }
  }

  lemma {:induction false} MembersWithin(rows: seq<Observation>, c: Comparison, t: Thresholds, g: Group, ps: seq<string>, x: string)
    requires x in Members(rows, c, t, g, ps)
    ensures x in ps
  {
    MembersCount(rows, c, t, g, ps, x);
    assert x in multiset(Members(rows, c, t, g, ps));
  }

  lemma {:induction false} MembersOrdered(rows: seq<Observation>, c: Comparison, t: Thresholds, g: Group, ps: seq<string>)
    requires forall i, j :: 0 <= i < j < |ps| ==> LexLe(ps[i], ps[j]) && ps[i] != ps[j]
    ensures var m := Members(rows, c, t, g, ps);
            forall i, j :: 0 <= i < j < |m| ==> LexLe(m[i], m[j]) && m[i] != m[j]
  {
    if ps != [] {
      var n := |ps| - 1;
      var front := ps[..n];
      MembersOrdered(rows, c, t, g, front);
      var m := Members(rows, c, t, g, front);
      forall i | 0 <= i < |m| ensures LexLe(m[i], ps[n]) && m[i] != ps[n] {
        MembersWithin(rows, c, t, g, front, m[i]);
        var k :| 0 <= k < n && front[k] == m[i];
        assert ps[k] == m[i];
      }
    }
  }

  /** Each list names its members in ascending id order, the order of the
      pivot index. */
  lemma ListsAscending(df: Option<ObservationTable>, t: Thresholds, groups: seq<(string, seq<string>)>, k: nat)
    requires !Unclassifiable(df)
    requires IsClassification(groups, YearLabels(df.value), Compare(YearLabels(df.value)), t)
    requires k < 5
    ensures forall i, j :: 0 <= i < j < |groups[k].1| ==> LexLe(groups[k].1[i], groups[k].1[j]) && groups[k].1[i] != groups[k].1[j]
  {
    var rows := YearLabels(df.value);
    var c := Compare(rows);
    assert c.index == PivotIndex(rows);
    MembersOrdered(rows, c, t, GroupOrder[k], c.index);
    assert groups[k].1 == Members(rows, c, t, GroupOrder[k], c.index);
  }

  function Sizes(rows: seq<Observation>, c: Comparison, t: Thresholds, ps: seq<string>): nat
  {
    |Members(rows, c, t, PersistentlyLow, ps)| + |Members(rows, c, t, PersistentlyHigh, ps)|
      + |Members(rows, c, t, Rising, ps)| + |Members(rows, c, t, Falling, ps)| + |Members(rows, c, t, Irregular, ps)|
  }

  lemma {:induction false} SizesAddUp(rows: seq<Observation>, c: Comparison, t: Thresholds, ps: seq<string>)
    ensures Sizes(rows, c, t, ps) == |ps|
  {
    if ps != [] {
      SizesAddUp(rows, c, t, ps[..|ps| - 1]);
    }
  }

  /** The list sizes add up to the number of persons in the pivot. */
  lemma GroupSizesAddUp(df: Option<ObservationTable>, t: Thresholds, groups: seq<(string, seq<string>)>)
    requires !Unclassifiable(df)
    requires IsClassification(groups, YearLabels(df.value), Compare(YearLabels(df.value)), t)
    ensures |groups[0].1| + |groups[1].1| + |groups[2].1| + |groups[3].1| + |groups[4].1| == |PivotIndex(YearLabels(df.value))|
  {
    var rows := YearLabels(df.value);
    SizesAddUp(rows, Compare(rows), t, Compare(rows).index);
  }

  // ---------------------------------------------------------------------
  // The baseline

  /** The hours one row spreads over the cells of the persons ps. */
  function RowSpread(o: Observation, ps: seq<string>, y: int): real
  {
    if ps == [] then 0.0 else RowSpread(o, ps[..|ps| - 1], y) + Contribution(o, ps[|ps| - 1], y)
  }

  lemma {:induction false} ColumnSumSplit(rows: seq<Observation>, ps: seq<string>, y: int)
    requires rows != []
    ensures ColumnSum(rows, ps, y) == RowSpread(rows[0], ps, y) + ColumnSum(rows[1..], ps, y)
  {
    if ps != [] {
      ColumnSumSplit(rows, ps[..|ps| - 1], y);
    }
  }

  lemma {:induction false} RowSpreadOnce(o: Observation, ps: seq<string>, y: int)
    requires NoDuplicates(ps)
    requires Grouped(o) ==> o.person.value in ps
    ensures RowSpread(o, ps, y) == if o.person.Some? && o.year == Some(IntYear(y)) then HoursOf(o) else 0.0
  {
    if ps != [] {
      var n := |ps| - 1;
      if o.person == Some(ps[n]) {
        assert ps[n] !in ps[..n];
        RowSpreadNone(o, ps[..n], y);
      } else {
        assert Grouped(o) ==> o.person.value in ps[..n] by {
          if Grouped(o) {
            assert ps == ps[..n] + [ps[n]];
          }
        }
        RowSpreadOnce(o, ps[..n], y);
      }
    }
  }

  lemma {:induction false} RowSpreadNone(o: Observation, ps: seq<string>, y: int)
    requires o.person.None? || o.person.value !in ps
    ensures RowSpread(o, ps, y) == 0.0
  {
    if ps != [] {
      RowSpreadNone(o, ps[..|ps| - 1], y);
    }
  }

  lemma {:induction false} ColumnSumIsYearTotal(rows: seq<Observation>, ps: seq<string>, y: int)
    requires NoDuplicates(ps)
    requires forall i :: 0 <= i < |rows| && Grouped(rows[i]) ==> rows[i].person.value in ps
    ensures ColumnSum(rows, ps, y) == YearTotal(rows, y)
  {
    if rows == [] {
      ColumnSumEmpty(ps, y);
    } else {
      ColumnSumSplit(rows, ps, y);
      RowSpreadOnce(rows[0], ps, y);
      assert forall i :: 0 <= i < |rows[1..]| ==> rows[1..][i] == rows[i + 1];
      ColumnSumIsYearTotal(rows[1..], ps, y);
    }
  }

  lemma {:induction false} ColumnSumEmpty(ps: seq<string>, y: int)
    ensures ColumnSum([], ps, y) == 0.0
  {
    if ps != [] {
      ColumnSumEmpty(ps[..|ps| - 1], y);
    }
  }

  lemma MeanOfMeans(x: real, y: real, n: real)
    requires n > 0.0
    ensures (x / n + y / n) / 2.0 == (x + y) / (2.0 * n)
  {
  }

  /** `overall_mean`, the mean of the two column means over all persons of
      the pivot, is the hours recorded in the two comparison years divided
      by twice the number of persons. */
  lemma OverallMeanFromTotals(rows: seq<Observation>)
    requires |AvailableYears(rows)| >= 2
    ensures var c := Compare(rows);
            c.overallMean == (YearTotal(rows, c.yearA) + YearTotal(rows, c.yearB)) / (2.0 * |c.index| as real)
  {
    var c := Compare(rows);
    forall i | 0 <= i < |rows| && Grouped(rows[i]) ensures rows[i].person.value in c.index {
      PersonsOfGroupedRows(rows, i);
    }
    ColumnMeansFromTotals(rows, c.index, c.yearA, c.yearB);
  }

  /** The mean of two column means over persons that cover every grouped
      row is the hours of the two years divided by twice their number. */
  lemma ColumnMeansFromTotals(rows: seq<Observation>, ps: seq<string>, a: int, b: int)
    requires |ps| > 0 && NoDuplicates(ps)
    requires forall i :: 0 <= i < |rows| && Grouped(rows[i]) ==> rows[i].person.value in ps
    ensures (ColumnMean(rows, ps, a) + ColumnMean(rows, ps, b)) / 2.0
         == (YearTotal(rows, a) + YearTotal(rows, b)) / (2.0 * |ps| as real)
  {
    ColumnSumIsYearTotal(rows, ps, a);
    ColumnSumIsYearTotal(rows, ps, b);
    MeanOfMeans(YearTotal(rows, a), YearTotal(rows, b), |ps| as real);
  }

  // ---------------------------------------------------------------------
  // The rules

  /** The rule chain, group by group: the two level rules come first, so a
      person high in both years is persistently high even when the rate also
      says rising. */
  lemma RuleChain(ha: real, hb: real, mean: real, t: Thresholds)
    ensures var g := Classify(ha, hb, mean, t);
            var low := IsLow(ha, mean, t) && IsLow(hb, mean, t);
            var high := IsHigh(ha, mean, t) && IsHigh(hb, mean, t);
            var rate := ChangeRate(ha, hb);
            && (g == PersistentlyLow <==> low)
            && (g == PersistentlyHigh <==> !low && high)
            && (g == Rising <==> !low && !high && AtLeast(rate, t.increase * 100.0))
            && (g == Falling <==> !low && !high && !AtLeast(rate, t.increase * 100.0) && AtMost(rate, t.decrease * 100.0))
            && (g == Irregular <==> !low && !high && !AtLeast(rate, t.increase * 100.0) && !AtMost(rate, t.decrease * 100.0))
  {
  }

  /** With a non-negative baseline and low <= high, nobody is both low and
      high in a year, so "high in both years" alone decides persistently
      high. */
  lemma HighBothIsPersistentlyHigh(ha: real, hb: real, mean: real, t: Thresholds)
    requires mean >= 0.0 && t.low <= t.high
    ensures Classify(ha, hb, mean, t) == PersistentlyHigh <==> IsHigh(ha, mean, t) && IsHigh(hb, mean, t)
  {
    assert mean * t.low <= mean * t.high;
  }

  /** A rising person grew and a falling person shrank, when the thresholds
      have their usual signs and hours are not negative. */
  lemma RateGroupsFollowTheTrend(ha: real, hb: real, mean: real, t: Thresholds)
    requires ha >= 0.0 && t.increase > 0.0 && t.decrease < 0.0
    ensures Classify(ha, hb, mean, t) == Rising ==> hb > ha
    ensures Classify(ha, hb, mean, t) == Falling ==> hb < ha
  {
  }

  /** A level exactly at `overall_mean * low` is not low: the test is strict. */
  lemma LowIsStrict(mean: real, t: Thresholds)
    ensures !IsLow(mean * t.low, mean, t)
    ensures IsLow(mean * t.low - 1.0, mean, t)
  {
  }

  /** The `+ 1` smoothing: from 0 to 50 hours is a 5000% rise, so under the
      default thresholds such a person is rising unless both years are low,
      which 50 hours is not when the baseline is at most 100. */
  lemma SmoothedRateExample(mean: real)
    requires 0.0 <= mean <= 100.0
    ensures ChangeRate(0.0, 50.0) == Finite(5000.0)
    ensures Classify(0.0, 50.0, mean, DefaultThresholds) == Rising
  {
  }

  // ---------------------------------------------------------------------
  // Statistics per group

  /** One row of the statistics table: the label, `len(member_ids)`, the
      mean hours of every available year and, when it exists, the change of
      the mean from 2024 to 2025 in percent. */
  datatype GroupStat = GroupStat(group: string, count: nat, yearMeans: seq<(int, real)>, meanChangeRate: Option<real>)

  /** What get_change_group_statistics gives back: `None`, a table, or the
      KeyError that `pivot_table(index='개인ID')` raises when that column is
      absent. */
  datatype StatsOutcome = NoStatistics | Statistics(table: seq<GroupStat>) | PersonColumnMissing

  /** `pivot_df[pivot_df.index.isin(member_ids)]`: the persons of the index
      that are listed among the members, in index order. */
  function InPivot(index: seq<string>, members: seq<string>): (ps: seq<string>)
    ensures forall p :: p in ps <==> p in index && p in members
  {
    if index == [] then []
    else
      var n := |index| - 1;
      assert forall p :: p in index <==> p in index[..n] || p == index[n] by {
        assert index == index[..n] + [index[n]];
      }
      InPivot(index[..n], members) + (if index[n] in members then [index[n]] else [])
  }

  /** The mean of every year of `years` over the persons ps, in the order of
      `years`. */
  function YearMeans(rows: seq<Observation>, ps: seq<string>, years: seq<int>): (means: seq<(int, real)>)
    requires |ps| > 0
    ensures |means| == |years|
    ensures forall i :: 0 <= i < |years| ==> means[i] == (years[i], ColumnMean(rows, ps, years[i]))
  {
    if years == [] then []
    else YearMeans(rows, ps, years[..|years| - 1]) + [(years[|years| - 1], ColumnMean(rows, ps, years[|years| - 1]))]
  }

  /** The change of the group mean from 2024 to 2025 in percent; there is
      none unless both years are available and the 2024 mean is positive. */
  function MeanChangeRate(rows: seq<Observation>, ps: seq<string>, years: seq<int>): (r: Option<real>)
    requires |ps| > 0
    ensures r.Some? <==> 2024 in years && 2025 in years && ColumnMean(rows, ps, 2024) > 0.0
  {
    if 2024 in years && 2025 in years then
      var m24 := ColumnMean(rows, ps, 2024);
      var m25 := ColumnMean(rows, ps, 2025);
      if m24 > 0.0 then Some((m25 - m24) / m24 * 100.0) else None
    else None
  }

  /** The rate, when there is one, is the growth of the 2025 mean over the
      2024 mean in percent, and it is positive exactly when the mean grew. */
  lemma MeanChangeRateMeaning(rows: seq<Observation>, ps: seq<string>, years: seq<int>)
    requires |ps| > 0
    ensures var r := MeanChangeRate(rows, ps, years);
            var m24 := ColumnMean(rows, ps, 2024);
            var m25 := ColumnMean(rows, ps, 2025);
            r.Some? ==> r.value * m24 == (m25 - m24) * 100.0 && (r.value > 0.0 <==> m25 > m24)
  {
  }

  /** The row of one dict entry, none when its list is empty or names
      nobody in the pivot. */
  function GroupStatOf(rows: seq<Observation>, index: seq<string>, years: seq<int>, name: string, members: seq<string>): (r: Option<GroupStat>)
    ensures r.None? <==> members == [] || InPivot(index, members) == []
    ensures r.Some? ==>
      var ps := InPivot(index, members);
      && r.value.group == name && r.value.count == |members|
      && |r.value.yearMeans| == |years|
      && (forall i :: 0 <= i < |years| ==> r.value.yearMeans[i] == (years[i], ColumnMean(rows, ps, years[i])))
      && (r.value.meanChangeRate.Some? <==> 2024 in years && 2025 in years && ColumnMean(rows, ps, 2024) > 0.0)
  {
    var ps := InPivot(index, members);
    if members == [] || ps == [] then None
    else Some(GroupStat(name, |members|, YearMeans(rows, ps, years), MeanChangeRate(rows, ps, years)))
  }

  /** The rows for the dict entries `groups`, in dict order, over the pivot
      index `index` and the available years `years`. */
  function StatsRows(rows: seq<Observation>, index: seq<string>, years: seq<int>, groups: seq<(string, seq<string>)>): (stats: seq<GroupStat>)
    ensures |stats| <= |groups|
    ensures forall i :: 0 <= i < |stats| ==> stats[i].count > 0 && |stats[i].yearMeans| == |years|
  {
    if groups == [] then []
    else
      var n := |groups| - 1;
      StatsRows(rows, index, years, groups[..n])
        + match GroupStatOf(rows, index, years, groups[n].0, groups[n].1)
          case Some(row) => [row]
          case None => []
  }

  /** The cases in which get_change_group_statistics returns `None`. */
  predicate NoStatsInput(df: Option<ObservationTable>, groups: seq<(string, seq<string>)>)
  {
    NoTable(df) || groups == [] || YearColumn !in df.value.columns || HoursColumn !in df.value.columns
  }

  /** get_change_group_statistics: `groups` is the dict as its items in
      order. */
  method GetChangeGroupStatistics(df: Option<ObservationTable>, groups: seq<(string, seq<string>)>) returns (out: StatsOutcome)
    ensures out == NoStatistics <==> NoStatsInput(df, groups)
    ensures out == PersonColumnMissing <==> !NoStatsInput(df, groups) && PersonColumn !in df.value.columns
    ensures out.Statistics? ==>
      out.table == StatsRows(YearLabels(df.value), PivotIndex(YearLabels(df.value)), AvailableYears(YearLabels(df.value)), groups)
  {
    if df.None? || |df.value.rows| == 0 || |df.value.columns| == 0 || groups == [] {
      return NoStatistics;
    }
    var table := df.value;
    if !(YearColumn in table.columns && HoursColumn in table.columns) {
      return NoStatistics;
    }
    if PersonColumn !in table.columns {
      return PersonColumnMissing;
    }
    var rows := YearLabels(table);
    var index := PivotIndex(rows);
    var years := AvailableYears(rows);
    var stats: seq<GroupStat> := [];
    for gi := 0 to |groups|
      invariant stats == StatsRows(rows, index, years, groups[..gi])
    {
      assert groups[..gi + 1][..gi] == groups[..gi];
      var row := GroupRow(rows, index, years, groups[gi].0, groups[gi].1);
      if row.Some? {
        stats := stats + [row.value];
      }
    }
    assert groups[..|groups|] == groups;
    return Statistics(stats);
  }

  /** The body of the loop over the dict: the row of one entry. */
  method GroupRow(rows: seq<Observation>, index: seq<string>, years: seq<int>, name: string, members: seq<string>)
    returns (row: Option<GroupStat>)
    ensures row == GroupStatOf(rows, index, years, name, members)
  {
    if members == [] {
      return None;
    }
    var ps := InPivot(index, members);
    if ps == [] {
      return None;
    }
    var means := MeansByYear(rows, ps, years);
    var rate: Option<real> := None;
    if 2024 in years && 2025 in years {
      var time2024 := ColumnMean(rows, ps, 2024);
      var time2025 := ColumnMean(rows, ps, 2025);
      if time2024 > 0.0 {
        rate := Some((time2025 - time2024) / time2024 * 100.0);
      }
    }
    return Some(GroupStat(name, |members|, means, rate));
  }

  /** The loop over `available_years`: one mean per year. */
  method MeansByYear(rows: seq<Observation>, ps: seq<string>, years: seq<int>) returns (means: seq<(int, real)>)
    requires |ps| > 0
    ensures means == YearMeans(rows, ps, years)
  {
    means := [];
    for yi := 0 to |years|
      invariant means == YearMeans(rows, ps, years[..yi])
    {
      assert years[..yi + 1][..yi] == years[..yi];
      means := means + [(years[yi], ColumnMean(rows, ps, years[yi]))];
    }
    assert years[..|years|] == years;
  }

  // ---------------------------------------------------------------------
  // Statistics of a classification

  lemma {:induction false} InPivotSameMembership(index: seq<string>, a: seq<string>, b: seq<string>)
    requires forall x :: x in index ==> (x in a <==> x in b)
    ensures InPivot(index, a) == InPivot(index, b)
  {
    if index != [] {
      var n := |index| - 1;
      assert index == index[..n] + [index[n]];
      InPivotSameMembership(index[..n], a, b);
    }
  }

  /** A list the classifier built names only pivot persons, in pivot order,
      so selecting the pivot rows it lists gives back the list itself. */
  lemma {:induction false} InPivotOfMembers(rows: seq<Observation>, c: Comparison, t: Thresholds, g: Group, ps: seq<string>)
    requires NoDuplicates(ps)
    ensures InPivot(ps, Members(rows, c, t, g, ps)) == Members(rows, c, t, g, ps)
  {
    if ps != [] {
      var n := |ps| - 1;
      var front := ps[..n];
      var last := ps[n];
      var m := Members(rows, c, t, g, ps);
      var mf := Members(rows, c, t, g, front);
      assert ps == front + [last];
      assert last !in front;
      forall x | x in front ensures x in m <==> x in mf {
      }
      InPivotSameMembership(front, m, mf);
      InPivotOfMembers(rows, c, t, g, front);
      if last in mf {
        MembersWithin(rows, c, t, g, front, last);
      }
    }
  }

  /** The statistics a reader expects of a classification: one row per
      non-empty list, in dict order, averaged over exactly the persons the
      list names. */
  function Summary(rows: seq<Observation>, years: seq<int>, groups: seq<(string, seq<string>)>): (stats: seq<GroupStat>)
    ensures |stats| <= |groups|
  {
    if groups == [] then []
    else
      var n := |groups| - 1;
      var (name, members) := groups[n];
      Summary(rows, years, groups[..n])
        + if members == [] then []
          else [GroupStat(name, |members|, YearMeans(rows, members, years), MeanChangeRate(rows, members, years))]
  }

  lemma {:induction false} StatsRowsAreSummary(rows: seq<Observation>, index: seq<string>, years: seq<int>,
                                               groups: seq<(string, seq<string>)>)
    requires forall k :: 0 <= k < |groups| ==> InPivot(index, groups[k].1) == groups[k].1
    ensures StatsRows(rows, index, years, groups) == Summary(rows, years, groups)
  {
    if groups != [] {
      var n := |groups| - 1;
      assert forall k :: 0 <= k < n ==> groups[..n][k] == groups[k];
      StatsRowsAreSummary(rows, index, years, groups[..n]);
    }
  }

  /** On the classifier's own dict, every statistics row counts the persons
      it averages over: each non-empty group gets a row, in the order of the
      labels, and its means are taken over exactly its members. */
  lemma StatisticsOfClassification(df: Option<ObservationTable>, t: Thresholds, groups: seq<(string, seq<string>)>)
    requires !Unclassifiable(df)
    requires IsClassification(groups, YearLabels(df.value), Compare(YearLabels(df.value)), t)
    ensures var rows := YearLabels(df.value);
            StatsRows(rows, PivotIndex(rows), AvailableYears(rows), groups) == Summary(rows, AvailableYears(rows), groups)
  {
    var rows := YearLabels(df.value);
    var c := Compare(rows);
    assert c.index == PivotIndex(rows);
    forall k | 0 <= k < |groups| ensures InPivot(c.index, groups[k].1) == groups[k].1 {
      assert groups[k].1 == Members(rows, c, t, GroupOrder[k], c.index);
      InPivotOfMembers(rows, c, t, GroupOrder[k], c.index);
    }
    StatsRowsAreSummary(rows, c.index, AvailableYears(rows), groups);
  }

  lemma ColumnSumAppend(rows: seq<Observation>, ps: seq<string>, p: string, y: int)
    ensures ColumnSum(rows, ps + [p], y) == ColumnSum(rows, ps, y) + CellHours(rows, p, y)
  {
    assert (ps + [p])[..|ps|] == ps;
  }

  function GroupSums(rows: seq<Observation>, c: Comparison, t: Thresholds, ps: seq<string>, y: int): real
  {
    ColumnSum(rows, Members(rows, c, t, PersistentlyLow, ps), y) + ColumnSum(rows, Members(rows, c, t, PersistentlyHigh, ps), y)
      + ColumnSum(rows, Members(rows, c, t, Rising, ps), y) + ColumnSum(rows, Members(rows, c, t, Falling, ps), y)
      + ColumnSum(rows, Members(rows, c, t, Irregular, ps), y)
  }

  lemma MemberSumStep(rows: seq<Observation>, c: Comparison, t: Thresholds, g: Group, ps: seq<string>, y: int)
    requires ps != []
    ensures var n := |ps| - 1;
            ColumnSum(rows, Members(rows, c, t, g, ps), y)
            == ColumnSum(rows, Members(rows, c, t, g, ps[..n]), y)
               + if PersonGroup(rows, c, t, ps[n]) == g then CellHours(rows, ps[n], y) else 0.0
  {
    var n := |ps| - 1;
    var m := Members(rows, c, t, g, ps[..n]);
    if PersonGroup(rows, c, t, ps[n]) == g {
      assert Members(rows, c, t, g, ps) == m + [ps[n]];
      ColumnSumAppend(rows, m, ps[n], y);
    } else {
      assert Members(rows, c, t, g, ps) == m;
    }
  }

  lemma {:induction false} GroupSumsSplitColumn(rows: seq<Observation>, c: Comparison, t: Thresholds, ps: seq<string>, y: int)
    ensures GroupSums(rows, c, t, ps, y) == ColumnSum(rows, ps, y)
  {
    if ps != [] {
      var n := |ps| - 1;
      GroupSumsSplitColumn(rows, c, t, ps[..n], y);
      MemberSumStep(rows, c, t, PersistentlyLow, ps, y);
      MemberSumStep(rows, c, t, PersistentlyHigh, ps, y);
      MemberSumStep(rows, c, t, Rising, ps, y);
      MemberSumStep(rows, c, t, Falling, ps, y);
      MemberSumStep(rows, c, t, Irregular, ps, y);
    }
  }

  /** The groups split every year's hours without loss: summed over the five
      lists, the hours of year y are all hours recorded for y, so the group
      means weighted by the group sizes give back the whole cohort. */
  lemma GroupHoursAddUp(df: Option<ObservationTable>, t: Thresholds, groups: seq<(string, seq<string>)>, y: int)
    requires !Unclassifiable(df)
    requires IsClassification(groups, YearLabels(df.value), Compare(YearLabels(df.value)), t)
    ensures var rows := YearLabels(df.value);
            ColumnSum(rows, groups[0].1, y) + ColumnSum(rows, groups[1].1, y) + ColumnSum(rows, groups[2].1, y)
              + ColumnSum(rows, groups[3].1, y) + ColumnSum(rows, groups[4].1, y)
            == YearTotal(rows, y)
  {
    var rows := YearLabels(df.value);
    var c := Compare(rows);
    GroupSumsSplitColumn(rows, c, t, c.index, y);
    forall i | 0 <= i < |rows| && Grouped(rows[i]) ensures rows[i].person.value in c.index {
      PersonsOfGroupedRows(rows, i);
    }
    ColumnSumIsYearTotal(rows, c.index, y);
  }
}
