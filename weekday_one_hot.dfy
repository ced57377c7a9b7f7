/** `WeekdayOneHotEncoder` (features.py lines 121-144): `fit` trains sklearn's
    `OneHotEncoder` on the weekday column, `transform` appends one indicator
    column per learned category to the right of the table and keeps the
    weekday column itself. */
module WeekdayOneHot {
  import opened Wrappers
  import opened Frame
  import opened Counting
  import opened Lexicographic

  /** The encoder held in `self.encoder`. Line 131 stores a fresh, `Unfitted`
      encoder before line 132 fits it. sklearn's `fit` records the input's
      feature count and names before it checks the rows, and sets `categories_`
      to an empty list before it sorts the values; a fit that fails at either
      point leaves `FitFailed`, which `check_is_fitted` accepts as fitted. */
  datatype Encoder =
    | Unfitted
    | FitFailed(hasCategories: bool)  // `categories_` is `[]` when present
    | Fitted(categories: seq<Cell>)

  /** sklearn's category order: strings ascending, the missing-value category last. */
  predicate CategoryOrder(cats: seq<Cell>) {
    forall i, j :: 0 <= i < j < |cats| ==> cats[i].Str? && (cats[j].Str? ==> Less(cats[i].s, cats[j].s))
  }

  /** A column of strings, possibly with missing values. */
  predicate IsStringColumn(col: seq<Cell>) {
    forall i :: 0 <= i < |col| ==> col[i].Str? || col[i].Null?
  }

  /** The strings held by a column of string cells. */
  function Strings(present: seq<Cell>): (r: seq<string>)
    requires forall i :: 0 <= i < |present| ==> present[i].Str?
    ensures forall t :: t in r <==> Str(t) in present
    ensures NoDup(present) ==> NoDup(r)
  {
    var r := seq(|present|, i requires 0 <= i < |present| => present[i].s);
    assert forall i :: 0 <= i < |present| ==> present[i] == Str(r[i]);
    r
  }

  /** Strings back to cells. */
  function StrCells(strings: seq<string>): (r: seq<Cell>)
    ensures forall v :: v in r <==> v.Str? && v.s in strings
    ensures StrictlySorted(strings) ==> NoDup(r) && CategoryOrder(r)
  {
    var r := seq(|strings|, i requires 0 <= i < |strings| => Str(strings[i]));
    assert forall v :: v in r ==> v.Str? && v.s in strings;
    assert forall t :: t in strings ==> Str(t) in r by {
      forall t | t in strings ensures Str(t) in r {
        var i :| 0 <= i < |strings| && strings[i] == t;
        assert r[i] == Str(t);
      }
    }
    assert StrictlySorted(strings) ==> NoDup(strings) by {
      if StrictlySorted(strings) { StrictlySortedNoDup(strings); }
    }
    r
  }

  /** The string categories as cells, in increasing order. */
  function SortedStringCells(present: seq<Cell>): (r: seq<Cell>)
    requires NoDup(present) && forall i :: 0 <= i < |present| ==> present[i].Str?
    ensures NoDup(r) && CategoryOrder(r)
    ensures forall v :: v in r <==> v in present
  {
    var strings := Strings(present);
    var sorted := SortStrings(strings);
    StrCells(sorted)
  }

  /** The categories `OneHotEncoder.fit` learns from one column: every distinct
      value, each once, in sklearn's order. An empty column fails sklearn's
      input check; a column mixing strings with other values cannot be sorted. */
  function Categories(col: seq<Cell>): (r: Result<seq<Cell>, Error>)
    ensures |col| == 0 ==> r == Failure(ValueError("Found array with 0 sample(s)"))
    ensures |col| > 0 ==> (r.Success? <==> IsStringColumn(col))
    ensures |col| > 0 && !IsStringColumn(col) ==> r == Failure(TypeError)
    ensures r.Success? ==> NoDup(r.value) && CategoryOrder(r.value)
    ensures r.Success? ==> forall v :: v in r.value <==> v in col
  {
    if |col| == 0 then Failure(ValueError("Found array with 0 sample(s)"))
    else if !IsStringColumn(col) then Failure(TypeError)
    else
      var present := DistinctValues(col);
      assert forall i :: 0 <= i < |present| ==> present[i].Str? by {
        forall i | 0 <= i < |present| ensures present[i].Str? {
          assert present[i] in present;
        }
      }
      var cells := SortedStringCells(present);
      if Null in col then Success(cells + [Null]) else Success(cells)
  }

  /** The name `get_feature_names_out` gives a category's column. */
  function FeatureName(variables: string, category: Cell): (r: string)
    ensures |r| > |variables| && r[..|variables| + 1] == variables + "_"
    ensures r[|variables| + 1..] == if category.Str? then category.s else "nan"
  {
    variables + "_" + (if category.Str? then category.s else "nan")
  }

  /** Distinct string categories get distinct column names. */
  lemma FeatureNameInjective(variables: string, a: string, b: string)
    requires FeatureName(variables, Str(a)) == FeatureName(variables, Str(b))
    ensures a == b
  {
    var n := FeatureName(variables, Str(a));
    assert a == n[|variables| + 1..];
  }

  /** One indicator column: 1.0 where the row holds `category`, 0.0 elsewhere. */
  function Indicator(col: seq<Cell>, category: Cell): (r: seq<Cell>)
    ensures |r| == |col|
    ensures forall i :: 0 <= i < |col| ==> r[i] == if col[i] == category then Num(1.0) else Num(0.0)
  {
    seq(|col|, i requires 0 <= i < |col| => if col[i] == category then Num(1.0) else Num(0.0))
  }

  /** The encoder's output: one indicator column per category, in category order. */
  function IndicatorBlock(col: seq<Cell>, cats: seq<Cell>): (b: seq<seq<Cell>>)
    ensures |b| == |cats|
    ensures forall k :: 0 <= k < |cats| ==> b[k] == Indicator(col, cats[k])
  {
    seq(|cats|, k requires 0 <= k < |cats| => Indicator(col, cats[k]))
  }

  function FeatureNames(variables: string, cats: seq<Cell>): (r: seq<string>)
    ensures |r| == |cats|
    ensures forall k :: 0 <= k < |cats| ==> r[k] == FeatureName(variables, cats[k])
  {
    seq(|cats|, k requires 0 <= k < |cats| => FeatureName(variables, cats[k]))
  }

  /** Lines 136-142 once the encoder accepted the column: the index reset to
      0 .. n - 1, the original columns kept, and one indicator column per
      category appended on the right. */
  function AppendIndicators(x: Table, variables: string, j: nat, cats: seq<Cell>): (r: Table)
    requires x.Wf() && j < |x.columns|
    ensures r.Wf() && r.Rows() == x.Rows()
    ensures forall i :: 0 <= i < r.Rows() ==> r.index[i] == i
    ensures r.names == x.names + FeatureNames(variables, cats)
    ensures r.columns == x.columns + IndicatorBlock(x.columns[j], cats)
  {
    Table(seq(x.Rows(), i => i), x.names + FeatureNames(variables, cats), x.columns + IndicatorBlock(x.columns[j], cats))
  }

  /** A row whose value is one of the (distinct) categories has exactly one
      indicator at 1.0, in that category's column, and 0.0 in all others. */
  lemma ExactlyOneHot(col: seq<Cell>, cats: seq<Cell>, i: nat)
    requires NoDup(cats) && i < |col| && col[i] in cats
    ensures var b := IndicatorBlock(col, cats);
      exists k :: 0 <= k < |cats| && cats[k] == col[i] && b[k][i] == Num(1.0)
        && forall l :: 0 <= l < |cats| && l != k ==> b[l][i] == Num(0.0)
  {
    var b := IndicatorBlock(col, cats);
    var k :| 0 <= k < |cats| && cats[k] == col[i];
    assert b[k][i] == Num(1.0);
  }

  class WeekdayOneHotEncoder {
    const variables: string
    /** `self.encoder`; absent until the first `fit`. */
    var encoder: Option<Encoder>

    constructor (variables: string)
      ensures this.variables == variables && encoder.None?
    {
      this.variables := variables;
      encoder := None;
    }

    /** `WeekdayOneHotEncoder(variables)`: `variables` must be a `str`. */
    static method Create(variables: PyValue) returns (r: Result<WeekdayOneHotEncoder, Error>)
      ensures r.Success? <==> variables.PyStr?
      ensures !variables.PyStr? ==> r == Failure(ValueError("variables should be a str"))
      ensures r.Success? ==> fresh(r.value) && r.value.variables == variables.s && r.value.encoder.None?
    {
      var v := RequireStr(variables, "variables should be a str");
      if v.Failure? { return Failure(v.error); }
      var e := new WeekdayOneHotEncoder(v.value);
      return Success(e);
    }

    /** `fit`: a new encoder is stored first and then fitted on the column. A
        missing column fails while `X[[var]]` is built, before sklearn runs; a
        column without rows fails before `categories_` exists, a column of other
        values after it was set to `[]`. */
    method Fit(x: Table) returns (r: Result<WeekdayOneHotEncoder, Error>)
      requires x.Wf()
      modifies this`encoder
      ensures variables !in x.names ==> r == Failure(KeyError(variables)) && encoder == Some(Unfitted)
      ensures variables in x.names ==>
        var cats := Categories(x.columns[ColumnIndex(x, variables).value]);
        && (r.Success? <==> cats.Success?)
        && (r.Failure? ==> r.error == cats.error && encoder == Some(FitFailed(x.Rows() > 0)))
        && (r.Success? ==> r.value == this && encoder == Some(Fitted(cats.value)))
    {
      encoder := Some(Unfitted);
      var found := ColumnIndex(x, variables);
      if found.Failure? { return Failure(found.error); }
      var cats := Categories(x.columns[found.value]);
      if cats.Failure? {
        encoder := Some(FitFailed(x.Rows() > 0));
        return Failure(cats.error);
      }
      encoder := Some(Fitted(cats.value));
      return Success(this);
    }

    /** `transform`. `self.encoder.transform` is looked up (AttributeError before any
        fit) before its argument `X1[[var]]` is built (KeyError); sklearn then
        checks that it is fitted, that there is a row, and that every value is a
        known category (the default `handle_unknown='error'`). After a failed fit
        that last check reads `categories_[0]`: an AttributeError when the list
        was never set, an IndexError when it is empty. */
    method Transform(x: Table) returns (r: Result<Table, Error>)
      requires x.Wf()
      ensures encoder.None? ==> r == Failure(AttributeError("encoder"))
      ensures encoder.Some? && variables !in x.names ==> r == Failure(KeyError(variables))
      ensures encoder == Some(Unfitted) && variables in x.names ==> r == Failure(NotFittedError)
      ensures encoder.Some? && encoder.value.FitFailed? && variables in x.names ==>
        && (x.Rows() == 0 ==> r == Failure(ValueError("Found array with 0 sample(s)")))
        && (x.Rows() > 0 && encoder.value.hasCategories ==> r == Failure(IndexError))
        && (x.Rows() > 0 && !encoder.value.hasCategories ==> r == Failure(AttributeError("categories_")))
      ensures encoder.Some? && encoder.value.Fitted? && variables in x.names ==>
        var j := ColumnIndex(x, variables).value;
        var cats := encoder.value.categories;
        && (x.Rows() == 0 ==> r == Failure(ValueError("Found array with 0 sample(s)")))
        && (x.Rows() > 0 && (exists i :: 0 <= i < x.Rows() && x.columns[j][i] !in cats) ==>
              r == Failure(UnknownCategoryError))
        && (x.Rows() > 0 && (forall i :: 0 <= i < x.Rows() ==> x.columns[j][i] in cats) ==>
              r == Success(AppendIndicators(x, variables, j, cats)))
    {
      if encoder.None? { return Failure(AttributeError("encoder")); }
      var found := ColumnIndex(x, variables);
      if found.Failure? { return Failure(found.error); }
      if encoder.value.Unfitted? { return Failure(NotFittedError); }
      var j := found.value;
      var col := x.columns[j];
      if |col| == 0 { return Failure(ValueError("Found array with 0 sample(s)")); }
      if encoder.value.FitFailed? {
        if encoder.value.hasCategories { return Failure(IndexError); }
        return Failure(AttributeError("categories_"));
      }
      var cats := encoder.value.categories;
      if exists i :: 0 <= i < |col| && col[i] !in cats { return Failure(UnknownCategoryError); }
      return Success(AppendIndicators(x, variables, j, cats));
    }
  }

  /** Fitting and transforming the same non-empty string column succeeds: every
      value was seen, so every row gets exactly one indicator at 1.0. */
  lemma FitThenTransform(col: seq<Cell>)
    requires |col| > 0 && IsStringColumn(col)
    ensures var cats := Categories(col);
      && cats.Success?
      && (forall i :: 0 <= i < |col| ==> col[i] in cats.value)
      && var b := IndicatorBlock(col, cats.value);
         forall i :: 0 <= i < |col| ==>
           exists k :: 0 <= k < |cats.value| && cats.value[k] == col[i] && b[k][i] == Num(1.0)
             && forall l :: 0 <= l < |cats.value| && l != k ==> b[l][i] == Num(0.0)
  {
    var cats := Categories(col).value;
    forall i | 0 <= i < |col| ensures col[i] in cats {
      assert col[i] in col;
    }
    forall i | 0 <= i < |col|
      ensures var b := IndicatorBlock(col, cats);
        exists k :: 0 <= k < |cats| && cats[k] == col[i] && b[k][i] == Num(1.0)
          && forall l :: 0 <= l < |cats| && l != k ==> b[l][i] == Num(0.0)
    {
      ExactlyOneHot(col, cats, i);
    }
  }
}
