/** `WeekdayImputer` (features.py lines 10-33): fills the missing cells of the
    weekday column with the day name of the same row's date, cut to
    `len_day_name` characters. The null rows are found anew by every
    `transform`; `fit` learns nothing. */
module WeekdayImputation {
  import opened Wrappers
  import opened Frame
  import opened Calendar

  /** The positions of the null cells, in ascending order. */
  function NullPositions(col: seq<Cell>): (r: seq<nat>)
    ensures forall k :: 0 <= k < |r| ==> r[k] < |col| && col[r[k]].Null?
    ensures forall i :: 0 <= i < |col| && col[i].Null? ==> i in r
    ensures forall k, l :: 0 <= k < l < |r| ==> r[k] < r[l]
    decreases |col|
  {
    if col == [] then []
    else
      var init := col[..|col| - 1];
      var prev := NullPositions(init);
      assert forall i :: 0 <= i < |init| ==> init[i] == col[i];
      if col[|col| - 1].Null? then prev + [|col| - 1] else prev
  }

  /** The index labels of the null rows: `X1[X1[var].isnull() == True].index`. */
  function NullLabels(index: seq<int>, col: seq<Cell>): (r: seq<int>)
    requires |index| == |col|
    ensures forall i :: 0 <= i < |col| && col[i].Null? ==> index[i] in r
    ensures forall l :: l in r ==> exists i :: 0 <= i < |col| && col[i].Null? && index[i] == l
  {
    var rows := NullPositions(col);
    var r := seq(|rows|, k requires 0 <= k < |rows| => index[rows[k]]);
    assert forall i :: 0 <= i < |col| && col[i].Null? ==> index[i] in r by {
      forall i | 0 <= i < |col| && col[i].Null? ensures index[i] in r {
        var k :| 0 <= k < |rows| && rows[k] == i;
        assert r[k] == index[i];
      }
    }
    r
  }

  /** `col.loc[positions] = values`: each value lands at its position. */
  function Assign(col: seq<Cell>, positions: seq<nat>, values: seq<Cell>): (r: seq<Cell>)
    requires |positions| == |values|
    requires forall k :: 0 <= k < |positions| ==> positions[k] < |col|
    ensures |r| == |col|
    ensures forall i :: 0 <= i < |col| && i !in positions ==> r[i] == col[i]
    ensures (forall k, l :: 0 <= k < l < |positions| ==> positions[k] != positions[l]) ==>
      forall k :: 0 <= k < |positions| ==> r[positions[k]] == values[k]
    decreases |positions|
  {
    if positions == [] then col
    else
      var rest := Assign(col[positions[0] := values[0]], positions[1..], values[1..]);
      assert forall k :: 1 <= k < |positions| ==> positions[1..][k - 1] == positions[k];
      rest
  }

  /** `.dt` needs a datetime column: dates and NaT only. */
  predicate IsDatetime(col: seq<Cell>)
    ensures !IsDatetime(col) <==> exists i :: 0 <= i < |col| && (col[i].Str? || col[i].Num? || col[i].Int?)
  {
    forall i :: 0 <= i < |col| ==> col[i].Date? || col[i].Null?
  }

  /** Lines 31-32 once the dates of the null rows are known to be present: only
      the null weekday cells change, each to its own row's day name cut to `n`
      characters. */
  function FillNullRows(weekday: seq<Cell>, dteday: seq<Cell>, n: int): (r: seq<Cell>)
    requires |weekday| == |dteday|
    requires forall i :: 0 <= i < |weekday| && weekday[i].Null? ==> dteday[i].Date?
    ensures |r| == |weekday|
    ensures forall i :: 0 <= i < |weekday| && !weekday[i].Null? ==> r[i] == weekday[i]
    ensures forall i :: 0 <= i < |weekday| && weekday[i].Null? ==> r[i] == Str(ShortDayName(dteday[i].day, n))
  {
    var rows := NullPositions(weekday);
    var names := seq(|rows|, k requires 0 <= k < |rows| => Str(ShortDayName(dteday[rows[k]].day, n)));
    var filled := Assign(weekday, rows, names);
    assert forall i :: 0 <= i < |weekday| && weekday[i].Null? ==> filled[i] == Str(ShortDayName(dteday[i].day, n)) by {
      forall i | 0 <= i < |weekday| && weekday[i].Null?
        ensures filled[i] == Str(ShortDayName(dteday[i].day, n))
      {
        var k :| 0 <= k < |rows| && rows[k] == i;
        assert filled[rows[k]] == names[k];
      }
    }
    filled
  }

  /** Lines 30-32 on the two columns. On a column that is not datetime, `.dt`
      raises AttributeError; a missing date (NaT) on a null row has a NaN day
      name, which cannot be sliced (TypeError). Otherwise no null is left. */
  function FillWeekdays(weekday: seq<Cell>, dteday: seq<Cell>, n: int): (r: Result<seq<Cell>, Error>)
    requires |weekday| == |dteday|
    ensures !IsDatetime(dteday) ==> r == Failure(AttributeError("dt"))
    ensures IsDatetime(dteday) ==>
      (r.Failure? <==> exists i :: 0 <= i < |weekday| && weekday[i].Null? && dteday[i].Null?)
    ensures r.Failure? ==> r.error in {AttributeError("dt"), TypeError}
    ensures r.Success? ==> forall i :: 0 <= i < |weekday| && weekday[i].Null? ==> dteday[i].Date?
    ensures r.Success? ==> r.value == FillNullRows(weekday, dteday, n)
    ensures r.Success? ==> forall i :: 0 <= i < |r.value| ==> !r.value[i].Null?
  {
    if !IsDatetime(dteday) then Failure(AttributeError("dt"))
    else if exists i :: 0 <= i < |weekday| && weekday[i].Null? && dteday[i].Null? then Failure(TypeError)
    else Success(FillNullRows(weekday, dteday, n))
  }

  class WeekdayImputer {
    const variables: string
    const refVariables: string
    const lenDayName: int
    /** `wkday_null_idx`: the null rows the last `transform` found; absent until then. */
    var wkdayNullIdx: Option<seq<int>>

    constructor (variables: string, refVariables: string, lenDayName: int)
      ensures this.variables == variables && this.refVariables == refVariables
      ensures this.lenDayName == lenDayName && wkdayNullIdx.None?
    {
      this.variables := variables;
      this.refVariables := refVariables;
      this.lenDayName := lenDayName;
      wkdayNullIdx := None;
    }

    /** `WeekdayImputer(variables, ref_variables, len_day_name)`: two `str` and an
        `int` (a `bool` passes), checked in order. */
    static method Create(variables: PyValue, refVariables: PyValue, lenDayName: PyValue)
      returns (r: Result<WeekdayImputer, Error>)
      ensures r.Success? <==> variables.PyStr? && refVariables.PyStr? && (lenDayName.PyInt? || lenDayName.PyBool?)
      ensures !variables.PyStr? ==> r == Failure(ValueError("variables should be a str"))
      ensures variables.PyStr? && !refVariables.PyStr? ==>
        r == Failure(ValueError("reference variables should be a str"))
      ensures variables.PyStr? && refVariables.PyStr? && !(lenDayName.PyInt? || lenDayName.PyBool?) ==>
        r == Failure(ValueError("len day name should be an int"))
      ensures r.Success? ==>
        && fresh(r.value) && r.value.wkdayNullIdx.None?
        && r.value.variables == variables.s && r.value.refVariables == refVariables.s
        && r.value.lenDayName == RequireInt(lenDayName, "len day name should be an int").value
    {
      var v := RequireStr(variables, "variables should be a str");
      if v.Failure? { return Failure(v.error); }
      var ref := RequireStr(refVariables, "reference variables should be a str");
      if ref.Failure? { return Failure(ref.error); }
      var len := RequireInt(lenDayName, "len day name should be an int");
      if len.Failure? { return Failure(len.error); }
      var w := new WeekdayImputer(v.value, ref.value, len.value);
      return Success(w);
    }

    /** `fit` learns nothing and returns the transformer itself. */
    method Fit(x: Table) returns (r: WeekdayImputer)
      ensures r == this
    {
      return this;
    }

    /** `transform`: records the null rows of the current table (line 30) and fills
        them (line 32) in a copy. The record is made before the reference column
        is looked up. */
    method Transform(x: Table) returns (r: Result<Table, Error>)
      requires x.Wf()
      modifies this`wkdayNullIdx
      ensures variables !in x.names ==> r == Failure(KeyError(variables)) && wkdayNullIdx == old(wkdayNullIdx)
      ensures variables in x.names ==>
        wkdayNullIdx == Some(NullLabels(x.index, x.columns[ColumnIndex(x, variables).value]))
      ensures variables in x.names && refVariables !in x.names ==> r == Failure(KeyError(refVariables))
      ensures variables in x.names && refVariables in x.names ==>
        var j := ColumnIndex(x, variables).value;
        var filled := FillWeekdays(x.columns[j], x.columns[ColumnIndex(x, refVariables).value], lenDayName);
        && (r.Success? <==> filled.Success?)
        && (r.Failure? ==> r.error == filled.error)
        && (r.Success? ==> r.value == WithColumn(x, j, filled.value))
    {
      var found := ColumnIndex(x, variables);
      if found.Failure? { return Failure(found.error); }
      var j := found.value;
      wkdayNullIdx := Some(NullLabels(x.index, x.columns[j]));
      var ref := ColumnIndex(x, refVariables);
      if ref.Failure? { return Failure(ref.error); }
      var filled := FillWeekdays(x.columns[j], x.columns[ref.value], lenDayName);
      if filled.Failure? { return Failure(filled.error); }
      return Success(WithColumn(x, j, filled.value));
    }
  }
}
