/** The part of a pandas DataFrame that the feature transformers see: an index,
    column labels and one sequence of cells per column. Tables are values, so
    every transformer that starts with `X.copy()` leaves its input untouched by
    construction. */
module Frame {
  import opened Wrappers

  /** One cell. `Null` stands for every missing marker (None, NaN, NaT); `Date` is a
      timestamp at day resolution, counted in days from 1970-01-01. */
  datatype Cell = Null | Str(s: string) | Num(x: real) | Int(n: int) | Date(day: int)

  /** The exceptions the transformers can raise. */
  datatype Error =
    | ValueError(message: string)       // a constructor's type check, or sklearn's input checks
    | KeyError(key: string)             // a missing column label, or `mode()[0]` of an empty mode
    | TypeError                         // comparing or sorting values of incompatible types
    | AttributeError(name: string)      // an attribute that `fit` has not set yet
    | NotFittedError                    // sklearn's encoder used before its own fit succeeded
    | UnknownCategoryError              // sklearn's "Found unknown categories" ValueError
    | IntCastingNaNError                // `astype(int)` of a column that holds NaN
    | IndexError                        // indexing past the end of a list

  /** A dynamically typed Python argument, as a constructor receives it. */
  datatype PyValue = PyStr(s: string) | PyInt(i: int) | PyBool(b: bool) | PyFloat(x: real) | PyNone

  datatype Table = Table(index: seq<int>, names: seq<string>, columns: seq<seq<Cell>>) {

    /** Rectangular: one label per column and one cell per index label in every column. */
    predicate Wf() {
      |names| == |columns| && forall j :: 0 <= j < |columns| ==> |columns[j]| == |index|
    }

    function Rows(): nat {
      |index|
    }
  }

  /** The position of the first column labelled `name`. */
  function Find(names: seq<string>, name: string): (r: Option<nat>)
    ensures r.None? <==> name !in names
    ensures r.Some? ==> r.value < |names| && names[r.value] == name && name !in names[..r.value]
  {
    if names == [] then None
    else if names[0] == name then Some(0)
    else
      var rest := Find(names[1..], name);
      if rest.None? then None else
        assert names[..rest.value + 1] == [names[0]] + names[1..][..rest.value];
        Some(rest.value + 1)
  }

  /** `X[name]`: the position of the column, or the KeyError pandas raises. */
  function ColumnIndex(t: Table, name: string): (r: Result<nat, Error>)
    requires t.Wf()
    ensures r.Failure? <==> name !in t.names
    ensures r.Failure? ==> r.error == KeyError(name)
    ensures r.Success? ==> r.value < |t.columns| && t.names[r.value] == name
  {
    match Find(t.names, name)
    case None => Failure(KeyError(name))
    case Some(j) => Success(j)
  }

  /** `X[name] = col` on an existing column: the column at `j` is replaced and
      nothing else changes. */
  function WithColumn(t: Table, j: nat, col: seq<Cell>): (r: Table)
    requires t.Wf() && j < |t.columns| && |col| == t.Rows()
    ensures r.Wf() && r.index == t.index && r.names == t.names
    ensures |r.columns| == |t.columns| && r.columns[j] == col
    ensures forall k :: 0 <= k < |t.columns| && k != j ==> r.columns[k] == t.columns[k]
  {
    t.(columns := t.columns[j := col])
  }

  /** `isinstance(v, str)`, raising `ValueError(message)` otherwise. */
  function RequireStr(v: PyValue, message: string): (r: Result<string, Error>)
    ensures r.Success? <==> v.PyStr?
    ensures r.Success? ==> r.value == v.s
    ensures r.Failure? ==> r.error == ValueError(message)
  {
    if v.PyStr? then Success(v.s) else Failure(ValueError(message))
  }

  /** `isinstance(v, int)`, raising `ValueError(message)` otherwise. In Python
      `bool` is a subclass of `int`, so True and False pass as 1 and 0. */
  function RequireInt(v: PyValue, message: string): (r: Result<int, Error>)
    ensures r.Success? <==> v.PyInt? || v.PyBool?
    ensures r.Success? && v.PyInt? ==> r.value == v.i
    ensures r.Success? && v.PyBool? ==> r.value == if v.b then 1 else 0
    ensures r.Failure? ==> r.error == ValueError(message)
  {
    match v
    case PyInt(i) => Success(i)
    case PyBool(b) => Success(if b then 1 else 0)
    case _ => Failure(ValueError(message))
  }
}
