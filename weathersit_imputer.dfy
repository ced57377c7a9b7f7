/** `WeathersitImputer` (features.py lines 35-51): `fit` learns a most frequent
    value of one column, `transform` puts it into every missing cell. */
module WeathersitImputation {
  import opened Wrappers
  import opened Frame
  import opened Counting

  /** `fillna(v)` on one column. */
  function FillNulls(col: seq<Cell>, v: Cell): (r: seq<Cell>)
    ensures |r| == |col|
    ensures forall i :: 0 <= i < |col| && !col[i].Null? ==> r[i] == col[i]
    ensures forall i :: 0 <= i < |col| && col[i].Null? ==> r[i] == v
    ensures !v.Null? ==> forall i :: 0 <= i < |r| ==> !r[i].Null?
  {
    seq(|col|, i requires 0 <= i < |col| => if col[i].Null? then v else col[i])
  }

  /** Filling a column one cell longer appends that cell, filled. */
  lemma FillNullsSnoc(init: seq<Cell>, last: Cell, v: Cell)
    ensures FillNulls(init + [last], v) == FillNulls(init, v) + [if last.Null? then v else last]
  {
  }

  /** Appending a cell adds one to its own count and to no other. */
  lemma CountSnoc(s: seq<Cell>, x: Cell, u: Cell)
    ensures Count(s + [x], u) == Count(s, u) + (if x == u then 1 else 0)
  {
    assert multiset(s + [x]) == multiset(s) + multiset{x};
  }

  /** Filling moves every null onto `v`: `v` gains exactly the number of nulls,
      nulls disappear and every other count is unchanged. */
  lemma {:induction false} FillNullsCounts(col: seq<Cell>, v: Cell, u: Cell)
    requires !v.Null?
    ensures Count(FillNulls(col, v), u) ==
      if u == v then Count(col, v) + Count(col, Null)
      else if u.Null? then 0
      else Count(col, u)
    decreases |col|
  {
    if col != [] {
      var init := col[..|col| - 1];
      var last := col[|col| - 1];
      var filled := if last.Null? then v else last;
      assert col == init + [last];
      FillNullsSnoc(init, last, v);
      FillNullsCounts(init, v, u);
      CountSnoc(FillNulls(init, v), filled, u);
      CountSnoc(init, last, u);
      CountSnoc(init, last, v);
      CountSnoc(init, last, Null);
    }
  }

  /** Filling with a most frequent value keeps it a most frequent value. */
  lemma FillKeepsMode(col: seq<Cell>, v: Cell)
    requires !v.Null? && forall u: Cell :: !u.Null? ==> Count(col, u) <= Count(col, v)
    ensures forall u: Cell :: Count(FillNulls(col, v), u) <= Count(FillNulls(col, v), v)
  {
    forall u: Cell ensures Count(FillNulls(col, v), u) <= Count(FillNulls(col, v), v) {
      FillNullsCounts(col, v, u);
      FillNullsCounts(col, v, v);
    }
  }

  class WeathersitImputer {
    const variables: string
    /** `fill_value`; absent until a `fit` succeeds. */
    var fillValue: Option<Cell>

    constructor (variables: string)
      ensures this.variables == variables && fillValue.None?
    {
      this.variables := variables;
      fillValue := None;
    }

    /** `WeathersitImputer(variables)`: `variables` must be a `str`. */
    static method Create(variables: PyValue) returns (r: Result<WeathersitImputer, Error>)
      ensures r.Success? <==> variables.PyStr?
      ensures !variables.PyStr? ==> r == Failure(ValueError("variables should be a str"))
      ensures r.Success? ==> fresh(r.value) && r.value.variables == variables.s && r.value.fillValue.None?
    {
      var v := RequireStr(variables, "variables should be a str");
      if v.Failure? { return Failure(v.error); }
      var w := new WeathersitImputer(v.value);
      return Success(w);
    }

    /** `fit`: `mode()[0]`, a most frequent non-null value. A column of nulls only
        has an empty mode, and indexing it raises KeyError(0). */
    method Fit(x: Table) returns (r: Result<WeathersitImputer, Error>)
      requires x.Wf()
      modifies this`fillValue
      ensures variables !in x.names ==> r == Failure(KeyError(variables)) && fillValue == old(fillValue)
      ensures variables in x.names ==>
        var col := x.columns[ColumnIndex(x, variables).value];
        && (r.Success? <==> exists i :: 0 <= i < |col| && !col[i].Null?)
        && (r.Failure? ==> r == Failure(KeyError("0")) && fillValue == old(fillValue))
        && (r.Success? ==> r.value == this && fillValue == Mode(col))
      ensures r.Success? ==> fillValue.Some? && !fillValue.value.Null?
    {
      var found := ColumnIndex(x, variables);
      if found.Failure? { return Failure(found.error); }
      var m := Mode(x.columns[found.value]);
      if m.None? { return Failure(KeyError("0")); }
      fillValue := m;
      return Success(this);
    }

    /** `transform`: the column with its nulls filled, in a copy. The column is
        read (KeyError) before `fill_value` (AttributeError before any fit). */
    method Transform(x: Table) returns (r: Result<Table, Error>)
      requires x.Wf()
      ensures variables !in x.names ==> r == Failure(KeyError(variables))
      ensures variables in x.names && fillValue.None? ==> r == Failure(AttributeError("fill_value"))
      ensures variables in x.names && fillValue.Some? ==>
        var j := ColumnIndex(x, variables).value;
        r == Success(WithColumn(x, j, FillNulls(x.columns[j], fillValue.value)))
    {
      var found := ColumnIndex(x, variables);
      if found.Failure? { return Failure(found.error); }
      if fillValue.None? { return Failure(AttributeError("fill_value")); }
      var j := found.value;
      return Success(WithColumn(x, j, FillNulls(x.columns[j], fillValue.value)));
    }
  }

  /** Fitting on a column and transforming the same column leaves no null and
      keeps the learned value a most frequent one. */
  lemma FitThenTransform(col: seq<Cell>)
    requires exists i :: 0 <= i < |col| && !col[i].Null?
    ensures Mode(col).Some?
    ensures var filled := FillNulls(col, Mode(col).value);
      && (forall i :: 0 <= i < |filled| ==> !filled[i].Null?)
      && (forall u: Cell :: Count(filled, u) <= Count(filled, Mode(col).value))
  {
    FillKeepsMode(col, Mode(col).value);
  }
}
