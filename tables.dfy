/** Cells, tables and the DataFrame object that the loader and the uploader
    update in place. A DataFrame is a header (labels may repeat, as pandas
    allows) and rows whose cell k sits under column k. */
module Tables {

  datatype Option<T> = None | Some(value: T)

  /** One cell. `Missing` is pandas' NaN / None / NA. */
  datatype Value = Int(i: int) | Real(r: real) | Text(s: string) | Missing

  datatype Table = Table(columns: seq<string>, rows: seq<seq<Value>>)

  /** Every row has one cell per column. */
  predicate WellFormed(t: Table)
  {
    forall i :: 0 <= i < |t.rows| ==> |t.rows[i]| == |t.columns|
  }

  /** `DataFrame.empty`: no rows or no columns. */
  predicate IsEmpty(t: Table)
  {
    |t.rows| == 0 || |t.columns| == 0
  }

  /** Position of the first column labelled `name`. */
  function IndexOf(cols: seq<string>, name: string): (k: Option<nat>)
    ensures k.None? <==> name !in cols
    ensures k.Some? ==> k.value < |cols| && cols[k.value] == name && name !in cols[..k.value]
  {
    if cols == [] then None
    else if cols[0] == name then Some(0)
    else
      match IndexOf(cols[1..], name)
      case None => None
      case Some(k) =>
        assert cols[..k + 1] == [cols[0]] + cols[1..][..k];
        Some(k + 1)
  }

  /** `df[name]`: the cells of the first column labelled `name`. */
  function Column(t: Table, name: string): (c: seq<Value>)
    requires WellFormed(t) && name in t.columns
    ensures |c| == |t.rows|
  {
    var k := IndexOf(t.columns, name).value;
    seq(|t.rows|, i requires 0 <= i < |t.rows| => t.rows[i][k])
  }

  /** `df[name] = values`: overwrites the first column labelled `name`, or
      appends a new column at the right end. */
  function WithColumn(t: Table, name: string, values: seq<Value>): (r: Table)
    requires WellFormed(t) && |values| == |t.rows|
    ensures WellFormed(r) && |r.rows| == |t.rows|
    ensures name in t.columns ==> r.columns == t.columns
    ensures name !in t.columns ==> r.columns == t.columns + [name]
    ensures name in r.columns && Column(r, name) == values
    ensures forall i, k :: 0 <= i < |t.rows| && 0 <= k < |t.columns| && t.columns[k] != name ==> r.rows[i][k] == t.rows[i][k]
  {
    match IndexOf(t.columns, name)
    case Some(k) =>
      Table(t.columns, seq(|t.rows|, i requires 0 <= i < |t.rows| => t.rows[i][k := values[i]]))
    case None =>
      var cols := t.columns + [name];
      assert IndexOf(cols, name) == Some(|t.columns|) by {
        IndexOfAppend(t.columns, name);
      }
      Table(cols, seq(|t.rows|, i requires 0 <= i < |t.rows| => t.rows[i] + [values[i]]))
  }

  lemma {:induction false} IndexOfAppend(cols: seq<string>, name: string)
    requires name !in cols
    ensures IndexOf(cols + [name], name) == Some(|cols|)
  {
    if cols != [] {
      assert (cols + [name])[1..] == cols[1..] + [name];
      IndexOfAppend(cols[1..], name);
    }
  }

  /** Appending a column keeps the position of every existing label. */
  lemma {:induction false} IndexOfExtend(cols: seq<string>, x: string, name: string)
    requires name in cols
    ensures IndexOf(cols + [x], name) == IndexOf(cols, name)
  {
    if cols[0] != name {
      assert (cols + [x])[1..] == cols[1..] + [x];
      IndexOfExtend(cols[1..], x, name);
    }
  }

  /** The rows of t at which `keep` holds, in order. */
  function FilterRows(t: Table, keep: seq<bool>): (r: Table)
    requires |keep| == |t.rows|
    ensures r.columns == t.columns
    ensures WellFormed(t) ==> WellFormed(r)
    ensures forall row :: row in r.rows ==> row in t.rows
    decreases |t.rows|
  {
    if t.rows == [] then t
    else
      var rest := FilterRows(Table(t.columns, t.rows[1..]), keep[1..]);
      if keep[0] then Table(t.columns, [t.rows[0]] + rest.rows) else rest
  }

  /** With nothing marked, FilterRows keeps no row. */
  lemma {:induction false} FilterRowsNone(t: Table, keep: seq<bool>)
    requires |keep| == |t.rows|
    requires forall i :: 0 <= i < |keep| ==> !keep[i]
    ensures FilterRows(t, keep).rows == []
    decreases |t.rows|
  {
    if t.rows != [] {
      FilterRowsNone(Table(t.columns, t.rows[1..]), keep[1..]);
    }
  }

  /** FilterRows keeps exactly the rows marked in `keep`. */
  lemma {:induction false} FilterRowsMembers(t: Table, keep: seq<bool>)
    requires |keep| == |t.rows|
    ensures forall i :: 0 <= i < |t.rows| && keep[i] ==> t.rows[i] in FilterRows(t, keep).rows
    ensures forall row :: row in FilterRows(t, keep).rows ==> exists i :: 0 <= i < |t.rows| && keep[i] && t.rows[i] == row
    decreases |t.rows|
  {
    if t.rows != [] {
      var tail := Table(t.columns, t.rows[1..]);
      FilterRowsMembers(tail, keep[1..]);
      forall row | row in FilterRows(t, keep).rows
        ensures exists i :: 0 <= i < |t.rows| && keep[i] && t.rows[i] == row
      {
        if !(keep[0] && row == t.rows[0]) {
          var i :| 0 <= i < |tail.rows| && keep[1..][i] && tail.rows[i] == row;
          assert keep[i + 1] && t.rows[i + 1] == row;
        }
      }
    }
  }

  /** `pd.to_numeric(..., errors='coerce')` on one cell; text is never read
      as a number. */
  function ToNumeric(v: Value): (r: Value)
    ensures r.Int? || r.Real? || r.Missing?
    ensures !v.Text? ==> r == v
  {
    if v.Text? then Missing else v
  }

  /** The number a numeric cell holds. */
  function AsNumber(v: Value): Option<real>
  {
    match v
    case Int(i) => Some(i as real)
    case Real(r) => Some(r)
    case _ => None
  }

  /** A pandas DataFrame object: methods that assign a column or the header
      change it in place, so every variable bound to it sees the change. */
  class Frame {
    var columns: seq<string>
    var rows: seq<seq<Value>>

    ghost predicate Valid()
      reads this
    {
      WellFormed(Table(columns, rows))
    }

    function Snapshot(): Table
      reads this
    {
      Table(columns, rows)
    }

    constructor (t: Table)
      requires WellFormed(t)
      ensures Valid() && Snapshot() == t
    {
      columns := t.columns;
      rows := t.rows;
    }

    /** `df[name] = values` */
    method SetColumn(name: string, values: seq<Value>)
      requires Valid() && |values| == |rows|
      modifies this
      ensures Valid() && Snapshot() == WithColumn(old(Snapshot()), name, values)
    {
      var t := WithColumn(Table(columns, rows), name, values);
      columns, rows := t.columns, t.rows;
    }

    /** `df.columns = labels` */
    method SetColumns(labels: seq<string>)
      requires Valid() && |labels| == |columns|
      modifies this
      ensures Valid() && columns == labels && rows == old(rows)
    {
      columns := labels;
    }
  }
}
