/** `OutlierHandler` (features.py lines 85-119): `fit` turns two quartile
    statistics into interquartile-range fences, `transform` pulls every value of
    one column back inside them, row by row. */
module OutlierHandling {
  import opened Wrappers
  import opened Frame

  /** `lower_bound` (line 108): below `q1` exactly when the quartiles are in
      order, and equal to it exactly when they coincide. */
  function LowerFence(q1: real, q3: real): (r: real)
    ensures r <= q1 <==> q1 <= q3
    ensures r == q1 <==> q1 == q3
  {
    q1 - 1.5 * (q3 - q1)
  }

  /** `upper_bound` (line 109): above `q3` exactly when the quartiles are in
      order, and equal to it exactly when they coincide. */
  function UpperFence(q1: real, q3: real): (r: real)
    ensures r >= q3 <==> q1 <= q3
    ensures r == q3 <==> q1 == q3
  {
    q3 + 1.5 * (q3 - q1)
  }

  /** The fences lie outside the quartiles, span four interquartile ranges and
      share the quartiles' midpoint. */
  lemma FencesAroundQuartiles(q1: real, q3: real)
    requires q1 <= q3
    ensures LowerFence(q1, q3) <= q1 <= q3 <= UpperFence(q1, q3)
    ensures UpperFence(q1, q3) - LowerFence(q1, q3) == 4.0 * (q3 - q1)
    ensures LowerFence(q1, q3) + UpperFence(q1, q3) == q1 + q3
  {
  }

  /** The two comparisons of lines 115-118 on one value: first down to `upper`,
      then up to `lower`. */
  function ClipValue(x: real, lower: real, upper: real): (r: real)
    ensures lower <= upper ==> lower <= r <= upper
    ensures lower <= x <= upper ==> r == x
    ensures x > upper && lower <= upper ==> r == upper
    ensures x < lower ==> r == lower
    ensures upper < lower ==> r == lower
  {
    var y := if x > upper then upper else x;
    if y < lower then lower else y
  }

  /** A cell that `>` and `<` accept against a float; anything else raises TypeError. */
  predicate Comparable(c: Cell)
    ensures !Comparable(c) <==> c.Str? || c.Date?
  {
    c.Null? || c.Num? || c.Int?
  }

  /** `c > b` in pandas: false for a missing value. */
  predicate Above(c: Cell, b: real)
    requires Comparable(c)
    ensures Above(c, b) <==> !c.Null? && NumericValue(c) > b
  {
    (c.Num? && c.x > b) || (c.Int? && c.n as real > b)
  }

  /** `c < b` in pandas: false for a missing value. */
  predicate Below(c: Cell, b: real)
    requires Comparable(c)
    ensures Below(c, b) <==> !c.Null? && NumericValue(c) < b
  {
    (c.Num? && c.x < b) || (c.Int? && c.n as real < b)
  }

  /** The number a numeric cell holds (other cells are not compared). */
  function NumericValue(c: Cell): real {
    match c
    case Num(x) => x
    case Int(n) => n as real
    case _ => 0.0
  }

  /** One cell after the loop body. A missing value compares false both ways and
      stays missing; an integer that is overwritten becomes a float. */
  function ClipCell(c: Cell, lower: real, upper: real): (r: Cell)
    requires Comparable(c)
    ensures Comparable(r) && (r.Null? <==> c.Null?)
    ensures !c.Null? ==> NumericValue(r) == ClipValue(NumericValue(c), lower, upper)
    ensures !c.Null? && lower <= NumericValue(c) <= upper ==> r == c
  {
    match c
    case Null => Null
    case Num(x) => Num(ClipValue(x, lower, upper))
    case Int(n) => if lower <= n as real <= upper then c else Num(ClipValue(n as real, lower, upper))
  }

  /** The column after the loop: a clamp. Every present value ends inside the
      fences; values inside are kept, values above become exactly `upper`,
      values below exactly `lower`, and missing values stay missing. */
  function ClipColumn(col: seq<Cell>, lower: real, upper: real): (r: seq<Cell>)
    requires forall i :: 0 <= i < |col| ==> Comparable(col[i])
    ensures |r| == |col|
    ensures forall i :: 0 <= i < |col| ==> (r[i].Null? <==> col[i].Null?)
    ensures lower <= upper ==>
      forall i :: 0 <= i < |col| && !col[i].Null? ==> lower <= NumericValue(r[i]) <= upper
    ensures forall i :: 0 <= i < |col| && !col[i].Null? && lower <= NumericValue(col[i]) <= upper ==> r[i] == col[i]
    ensures lower <= upper ==>
      forall i :: 0 <= i < |col| && !col[i].Null? && NumericValue(col[i]) > upper ==> r[i] == Num(upper)
    ensures forall i :: 0 <= i < |col| && !col[i].Null? && NumericValue(col[i]) < lower ==> r[i] == Num(lower)
  {
    seq(|col|, i requires 0 <= i < |col| => ClipCell(col[i], lower, upper))
  }

  /** Clipping twice is clipping once, whatever the fences. */
  lemma ClipColumnIdempotent(col: seq<Cell>, lower: real, upper: real)
    requires forall k :: 0 <= k < |col| ==> Comparable(col[k])
    ensures var once := ClipColumn(col, lower, upper);
      ClipColumn(once, lower, upper) == once
  {
  }

  /** With crossed fences (lower above upper) every present value becomes `lower`. */
  lemma ClipColumnCrossedFences(col: seq<Cell>, lower: real, upper: real, i: nat)
    requires forall k :: 0 <= k < |col| ==> Comparable(col[k])
    requires upper < lower && i < |col| && !col[i].Null?
    ensures ClipColumn(col, lower, upper)[i] == Num(lower)
  {
  }

  class OutlierHandler {
    const variables: string
    const lowerBoundVal: string
    const upperBoundVal: string
    /** Whether `lower_bound` and `upper_bound` exist, i.e. some `fit` completed. */
    var fitted: bool
    var q1: real
    var q3: real
    var iqr: real
    var lowerBound: real
    var upperBound: real

    constructor (variables: string, lowerBoundVal: string, upperBoundVal: string)
      ensures this.variables == variables && this.lowerBoundVal == lowerBoundVal
      ensures this.upperBoundVal == upperBoundVal && !fitted
    {
      this.variables := variables;
      this.lowerBoundVal := lowerBoundVal;
      this.upperBoundVal := upperBoundVal;
      fitted := false;
    }

    /** `OutlierHandler(variables, lower_bound_val, upper_bound_val)`: each argument
        must be a `str`, checked in order. */
    static method Create(variables: PyValue, lowerBoundVal: PyValue, upperBoundVal: PyValue)
      returns (r: Result<OutlierHandler, Error>)
      ensures r.Success? <==> variables.PyStr? && lowerBoundVal.PyStr? && upperBoundVal.PyStr?
      ensures !variables.PyStr? ==> r == Failure(ValueError("variables should be a str"))
      ensures variables.PyStr? && !lowerBoundVal.PyStr? ==>
        r == Failure(ValueError("lower bound variables should be a str"))
      ensures variables.PyStr? && lowerBoundVal.PyStr? && !upperBoundVal.PyStr? ==>
        r == Failure(ValueError("upper bound variables should be a str"))
      ensures r.Success? ==>
        && fresh(r.value) && !r.value.fitted && r.value.variables == variables.s
        && r.value.lowerBoundVal == lowerBoundVal.s && r.value.upperBoundVal == upperBoundVal.s
    {
      var v := RequireStr(variables, "variables should be a str");
      if v.Failure? { return Failure(v.error); }
      var lo := RequireStr(lowerBoundVal, "lower bound variables should be a str");
      if lo.Failure? { return Failure(lo.error); }
      var hi := RequireStr(upperBoundVal, "upper bound variables should be a str");
      if hi.Failure? { return Failure(hi.error); }
      var h := new OutlierHandler(v.value, lo.value, hi.value);
      return Success(h);
    }

    /** `fit`: `describe` is `X.describe()`, the summary statistics of each numeric
        column by label. Line 105 stores `q1` before line 106 can fail. */
    method Fit(describe: map<string, map<string, real>>) returns (r: Result<OutlierHandler, Error>)
      modifies this
      ensures variables !in describe ==> r == Failure(KeyError(variables)) && unchanged(this)
      ensures variables in describe && lowerBoundVal !in describe[variables] ==>
        r == Failure(KeyError(lowerBoundVal)) && unchanged(this)
      ensures variables in describe && lowerBoundVal in describe[variables] && upperBoundVal !in describe[variables] ==>
        && r == Failure(KeyError(upperBoundVal)) && q1 == describe[variables][lowerBoundVal]
        && q3 == old(q3) && iqr == old(iqr) && fitted == old(fitted)
        && lowerBound == old(lowerBound) && upperBound == old(upperBound)
      ensures r.Success? <==> variables in describe && lowerBoundVal in describe[variables] && upperBoundVal in describe[variables]
      ensures r.Success? ==>
        && r.value == this && fitted
        && q1 == describe[variables][lowerBoundVal] && q3 == describe[variables][upperBoundVal]
        && iqr == q3 - q1 && lowerBound == LowerFence(q1, q3) && upperBound == UpperFence(q1, q3)
    {
      if variables !in describe { return Failure(KeyError(variables)); }
      var stats := describe[variables];
      if lowerBoundVal !in stats { return Failure(KeyError(lowerBoundVal)); }
      q1 := stats[lowerBoundVal];
      if upperBoundVal !in stats { return Failure(KeyError(upperBoundVal)); }
      q3 := stats[upperBoundVal];
      iqr := q3 - q1;
      lowerBound := q1 - 1.5 * iqr;
      upperBound := q3 + 1.5 * iqr;
      fitted := true;
      return Success(this);
    }

    /** `transform`: a loop over the rows of a copy of the column. The loop body
        reads the cell (KeyError on a missing column) and then `upper_bound`
        (AttributeError before any fit), so a table without rows passes through
        untouched either way. */
    method Transform(x: Table) returns (r: Result<Table, Error>)
      requires x.Wf()
      ensures x.Rows() == 0 ==> r == Success(x)
      ensures x.Rows() > 0 && variables !in x.names ==> r == Failure(KeyError(variables))
      ensures x.Rows() > 0 && variables in x.names && !fitted ==> r == Failure(AttributeError("upper_bound"))
      ensures x.Rows() > 0 && variables in x.names && fitted ==>
        var j := ColumnIndex(x, variables).value;
        && (r.Success? <==> forall i :: 0 <= i < x.Rows() ==> Comparable(x.columns[j][i]))
        && (r.Failure? ==> r.error == TypeError)
        && (r.Success? ==> r.value == WithColumn(x, j, ClipColumn(x.columns[j], lowerBound, upperBound)))
    {
      if x.Rows() == 0 { return Success(x); }
      var found := ColumnIndex(x, variables);
      if found.Failure? { return Failure(found.error); }
      if !fitted { return Failure(AttributeError("upper_bound")); }
      var j := found.value;
      var col := x.columns[j];
      var a := new Cell[|col|](i requires 0 <= i < |col| => col[i]);
      var i := 0;
      while i < a.Length
        invariant 0 <= i <= a.Length == |col|
        invariant forall k :: 0 <= k < i ==> Comparable(col[k]) && a[k] == ClipCell(col[k], lowerBound, upperBound)
        invariant forall k :: i <= k < a.Length ==> a[k] == col[k]
      {
        if !Comparable(a[i]) { return Failure(TypeError); }
        if Above(a[i], upperBound) { a[i] := Num(upperBound); }
        if Below(a[i], lowerBound) { a[i] := Num(lowerBound); }
        i := i + 1;
      }
      assert a[..] == ClipColumn(col, lowerBound, upperBound);
      return Success(WithColumn(x, j, a[..]));
    }
  }
}
