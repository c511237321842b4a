/**
 * pandas DataFrames as the model sees them: an ordered list of column names
 * and rows keyed by those names. `Table` is the value of a frame; `Frame` is
 * the mutable pandas object whose columns the source assigns in place.
 */
module Frames {
  import opened Common

  type Row = map<string, Value>

  /** A pandas Series: one cell per row. */
  type Series = seq<Value>

  datatype Table = Table(columns: seq<string>, rows: seq<Row>)

  predicate Distinct(names: seq<string>) {
    forall i, j | 0 <= i < j < |names| :: names[i] != names[j]
  }

  function Names(names: seq<string>): set<string> {
    set c | c in names
  }

  /** No column twice, and every row has a cell for exactly the frame's columns. */
  predicate WellFormed(t: Table) {
    && Distinct(t.columns)
    && forall i | 0 <= i < |t.rows| :: t.rows[i].Keys == Names(t.columns)
  }

  /** Every row has a cell named `name`. */
  predicate HasCells(t: Table, name: string) {
    forall i | 0 <= i < |t.rows| :: name in t.rows[i]
  }

  lemma ColumnHasCells(t: Table, name: string)
    requires WellFormed(t) && name in t.columns
    ensures HasCells(t, name)
  {
    assert name in Names(t.columns);
  }

  /** `df[name]`: the cells of one column, top to bottom. */
  function Column(t: Table, name: string): (s: Series)
    requires HasCells(t, name)
    ensures |s| == |t.rows|
    ensures forall i | 0 <= i < |s| :: s[i] == t.rows[i][name]
  {
    seq(|t.rows|, i requires 0 <= i < |t.rows| => t.rows[i][name])
  }

  /** `df[name] = values`: an existing column is overwritten where it stands, a new one is appended. */
  function WithColumn(t: Table, name: string, values: Series): (r: Table)
    requires |values| == |t.rows|
    ensures |r.rows| == |t.rows|
    ensures forall i | 0 <= i < |r.rows| :: r.rows[i] == t.rows[i][name := values[i]]
    ensures WellFormed(t) ==> WellFormed(r) && Names(r.columns) == Names(t.columns) + {name}
    ensures name in t.columns ==> r.columns == t.columns
    ensures name !in t.columns ==> r.columns == t.columns + [name]
  {
    var columns := if name in t.columns then t.columns else t.columns + [name];
    var r := Table(columns, seq(|t.rows|, i requires 0 <= i < |t.rows| => t.rows[i][name := values[i]]));
    assert Names(columns) == Names(t.columns) + {name};
    r
  }

  lemma DistinctCons(a: string, rest: seq<string>)
    requires a !in rest && Distinct(rest)
    ensures Distinct([a] + rest)
  {
    var s := [a] + rest;
    forall i, j | 0 <= i < j < |s| ensures s[i] != s[j] {
      assert s[j] == rest[j - 1];
      if i > 0 { assert s[i] == rest[i - 1]; }
    }
  }

  /** The names in order, without `name`. */
  function Remove(names: seq<string>, name: string): (r: seq<string>)
    ensures Names(r) == Names(names) - {name}
    ensures Distinct(names) ==> Distinct(r)
    ensures name !in names ==> r == names
  {
    if names == [] then []
    else
      var rest := Remove(names[1..], name);
      assert Names(names) == {names[0]} + Names(names[1..]);
      assert Distinct(names) ==> Distinct(names[1..]) && names[0] !in names[1..];
      assert names[0] !in names[1..] ==> names[0] !in rest by {
        assert names[0] in rest ==> names[0] in Names(rest);
      }
      if names[0] == name then rest
      else
        assert Names([names[0]] + rest) == {names[0]} + Names(rest);
        if Distinct(names) then DistinctCons(names[0], rest); [names[0]] + rest
        else [names[0]] + rest
  }

  /** `df.drop(columns=name)`. */
  function WithoutColumn(t: Table, name: string): (r: Table)
    ensures |r.rows| == |t.rows|
    ensures r.columns == Remove(t.columns, name)
    ensures forall i | 0 <= i < |r.rows| :: r.rows[i] == t.rows[i] - {name}
    ensures WellFormed(t) ==> WellFormed(r)
  {
    Table(Remove(t.columns, name), seq(|t.rows|, i requires 0 <= i < |t.rows| => t.rows[i] - {name}))
  }

  /** `fillna(fill)` applied to the cells of `row` in the listed columns. */
  function FillRow(row: Row, names: seq<string>, fill: Value): (r: Row)
    ensures r.Keys == row.Keys
    ensures forall c | c in r :: r[c] == if c in names && row[c].Missing? then fill else row[c]
  {
    map c | c in row :: if c in names && row[c].Missing? then fill else row[c]
  }

  /** `df[names] = df[names].fillna(fill)`. */
  function FillMissing(t: Table, names: seq<string>, fill: Value): (r: Table)
    ensures r.columns == t.columns && |r.rows| == |t.rows|
    ensures forall i | 0 <= i < |r.rows| :: r.rows[i] == FillRow(t.rows[i], names, fill)
    ensures WellFormed(t) ==> WellFormed(r)
  {
    Table(t.columns, seq(|t.rows|, i requires 0 <= i < |t.rows| => FillRow(t.rows[i], names, fill)))
  }

  /** The row has a non-NaN cell in each of the `subset` columns. */
  predicate HasValues(row: Row, subset: seq<string>) {
    forall c | c in subset :: c in row && !row[c].Missing?
  }

  /** The rows `dropna(subset=...)` keeps, in their original order. */
  function DropNaRows(rows: seq<Row>, subset: seq<string>): (r: seq<Row>)
    ensures |r| <= |rows|
    ensures forall k | 0 <= k < |r| :: HasValues(r[k], subset) && r[k] in rows
  {
    if rows == [] then []
    else
      var last := rows[|rows| - 1];
      DropNaRows(rows[..|rows| - 1], subset) + (if HasValues(last, subset) then [last] else [])
  }

  /** The positions of the rows that `DropNaRows` keeps. */
  function KeptPositions(rows: seq<Row>, subset: seq<string>): (idx: seq<nat>)
  {
    if rows == [] then []
    else
      var n := |rows| - 1;
      KeptPositions(rows[..n], subset) + (if HasValues(rows[n], subset) then [n] else [])
  }

  lemma {:induction false} KeptPositionsMatch(rows: seq<Row>, subset: seq<string>)
    ensures var r, idx := DropNaRows(rows, subset), KeptPositions(rows, subset);
      |idx| == |r| && forall k | 0 <= k < |idx| :: idx[k] < |rows| && r[k] == rows[idx[k]]
  {
    if rows != [] {
      var n := |rows| - 1;
      KeptPositionsMatch(rows[..n], subset);
    }
  }

  lemma {:induction false} KeptPositionsBounded(rows: seq<Row>, subset: seq<string>)
    ensures forall k | 0 <= k < |KeptPositions(rows, subset)| :: KeptPositions(rows, subset)[k] < |rows|
  {
    if rows != [] {
      var n := |rows| - 1;
      KeptPositionsBounded(rows[..n], subset);
    }
  }

  predicate Increasing(idx: seq<nat>) {
    forall k, l | 0 <= k < l < |idx| :: idx[k] < idx[l]
  }

  lemma {:induction false} KeptPositionsIncrease(rows: seq<Row>, subset: seq<string>)
    ensures Increasing(KeptPositions(rows, subset))
  {
    if rows != [] {
      var n := |rows| - 1;
      KeptPositionsIncrease(rows[..n], subset);
      KeptPositionsBounded(rows[..n], subset);
      var idx, idx0 := KeptPositions(rows, subset), KeptPositions(rows[..n], subset);
      assert idx == idx0 + (if HasValues(rows[n], subset) then [n] else []);
      forall k, l | 0 <= k < l < |idx| ensures idx[k] < idx[l] {
        assert idx[k] == idx0[k] && idx0[k] < |rows[..n]|;
        if l < |idx0| {
          assert idx[l] == idx0[l];
          assert idx0[k] < idx0[l];
        } else {
          assert idx[l] == n;
        }
      }
    }
  }

  lemma {:induction false} KeptPositionsExact(rows: seq<Row>, subset: seq<string>)
    ensures forall i | 0 <= i < |rows| :: HasValues(rows[i], subset) <==> i in KeptPositions(rows, subset)
  {
    if rows != [] {
      var n := |rows| - 1;
      var front := rows[..n];
      KeptPositionsExact(front, subset);
      KeptPositionsBounded(front, subset);
      var idx0 := KeptPositions(front, subset);
      assert n !in idx0 by {
        forall k | 0 <= k < |idx0| ensures idx0[k] != n { }
      }
      forall i | 0 <= i < n ensures HasValues(rows[i], subset) <==> i in KeptPositions(rows, subset) {
        assert rows[i] == front[i];
      }
    }
  }

  /**
   * `dropna` keeps exactly the rows with values in every `subset` column and
   * leaves their relative order alone: the kept rows are the input rows at a
   * strictly increasing list of positions, and a position is on that list
   * exactly when its row has all the values.
   */
  lemma DropNaSelects(rows: seq<Row>, subset: seq<string>)
    ensures var r, idx := DropNaRows(rows, subset), KeptPositions(rows, subset);
      && |idx| == |r|
      && (forall k | 0 <= k < |idx| :: idx[k] < |rows| && r[k] == rows[idx[k]])
      && Increasing(idx)
      && (forall i | 0 <= i < |rows| :: HasValues(rows[i], subset) <==> i in idx)
  {
    KeptPositionsMatch(rows, subset);
    KeptPositionsBounded(rows, subset);
    KeptPositionsIncrease(rows, subset);
    KeptPositionsExact(rows, subset);
  }

  /** `df.dropna(subset=...)`: a new frame with the incomplete rows removed. */
  function WithoutIncompleteRows(t: Table, subset: seq<string>): (r: Table)
    ensures r.columns == t.columns
    ensures WellFormed(t) ==> WellFormed(r)
  {
    Table(t.columns, DropNaRows(t.rows, subset))
  }

  /** A Python dict: its keys in insertion order and the value of each key. */
  datatype Record = Record(keys: seq<string>, values: map<string, Value>)

  predicate ValidRecord(d: Record) {
    Distinct(d.keys) && d.values.Keys == Names(d.keys)
  }

  /** The (key, value) pairs of a dict in insertion order. */
  function Items(d: Record): (items: seq<(string, Value)>)
    requires ValidRecord(d)
    ensures |items| == |d.keys|
    ensures forall i | 0 <= i < |items| :: items[i] == (d.keys[i], d.values[d.keys[i]])
  {
    seq(|d.keys|, i requires 0 <= i < |d.keys| => assert d.keys[i] in Names(d.keys); (d.keys[i], d.values[d.keys[i]]))
  }

  /** The keys of a list of (key, value) pairs, in order. */
  function KeysOf(items: seq<(string, Value)>): (keys: seq<string>)
    ensures |keys| == |items|
    ensures forall i | 0 <= i < |items| :: keys[i] == items[i].0
  {
    seq(|items|, i requires 0 <= i < |items| => items[i].0)
  }

  /** A dict literal: the dict whose items are exactly `items`, in that order. */
  function FromItems(items: seq<(string, Value)>): (d: Record)
    requires Distinct(KeysOf(items))
    ensures ValidRecord(d) && d.keys == KeysOf(items)
    ensures Items(d) == items
  {
    var keys := KeysOf(items);
    var values := map i | 0 <= i < |items| :: items[i].0 := items[i].1;
    assert values.Keys == Names(keys) by {
      forall c | c in Names(keys) ensures c in values.Keys {
        var i :| 0 <= i < |keys| && keys[i] == c;
        assert items[i].0 in values.Keys;
      }
    }
    var d := Record(keys, values);
    assert forall i | 0 <= i < |items| :: values[items[i].0] == items[i].1;
    d
  }

  /** `pd.DataFrame([d])`: a one-row frame whose columns are the dict's keys in order. */
  function OneRowTable(d: Record): (t: Table)
    requires ValidRecord(d)
    ensures WellFormed(t) && |t.rows| == 1
    ensures t.columns == d.keys && t.rows[0] == d.values
  {
    Table(d.keys, [d.values])
  }

  /** A pandas DataFrame, updated in place by the transformations of the source. */
  class Frame {
    var columns: seq<string>
    var rows: seq<Row>

    function View(): Table
      reads this
    {
      Table(columns, rows)
    }

    predicate Valid()
      reads this
    {
      WellFormed(View())
    }

    /** `pd.DataFrame(...)` or `pd.read_csv(...)`: a frame holding `t`. */
    constructor (t: Table)
      ensures View() == t
    {
      columns := t.columns;
      rows := t.rows;
    }

    /** `name in df.columns`. */
    predicate Has(name: string)
      reads this
    {
      name in columns
    }

    /** `df[name]`. */
    function Get(name: string): (s: Series)
      reads this
      requires Valid() && Has(name)
      ensures s == Column(View(), name)
    {
      ColumnHasCells(View(), name);
      Column(View(), name)
    }

    /** `df.copy()`. */
    method Copy() returns (c: Frame)
      ensures fresh(c) && c.View() == View()
    {
      c := new Frame(View());
    }

    /** `df[name] = values`. */
    method Assign(name: string, values: Series)
      requires |values| == |rows|
      modifies this
      ensures View() == WithColumn(old(View()), name, values)
    {
      var t := WithColumn(View(), name, values);
      columns, rows := t.columns, t.rows;
    }

    /** `df[names] = df[names].fillna(fill)`. */
    method FillNa(names: seq<string>, fill: Value)
      modifies this
      ensures View() == FillMissing(old(View()), names, fill)
    {
      rows := FillMissing(View(), names, fill).rows;
    }

    /** `df.drop(columns=name, inplace=True)`. */
    method Drop(name: string)
      modifies this
      ensures View() == WithoutColumn(old(View()), name)
    {
      var t := WithoutColumn(View(), name);
      columns, rows := t.columns, t.rows;
    }

    /** `df.dropna(subset=subset)`, which returns a new frame. */
    method DropNa(subset: seq<string>) returns (r: Frame)
      ensures fresh(r) && r.View() == WithoutIncompleteRows(View(), subset)
    {
      r := new Frame(WithoutIncompleteRows(View(), subset));
    }
  }
}
