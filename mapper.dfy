/** `Mapper` (features.py lines 54-82): an ordinal encoder for one column. Without
    a supplied mapping, `fit` ranks the distinct values by ascending frequency;
    `transform` replaces every value by its rank and casts the column to int. */
module OrdinalMapping {
  import opened Wrappers
  import opened Frame
  import opened Counting

  /** `{val: cnt for cnt, val in enumerate(order)}` (line 74). */
  function Enumerate(order: seq<Cell>): (m: map<Cell, int>)
    requires NoDup(order)
    ensures forall v :: v in m <==> v in order
    ensures forall i :: 0 <= i < |order| ==> order[i] in m && m[order[i]] == i
  {
    map i | 0 <= i < |order| :: order[i] := i
  }

  lemma EnumerateInverse(order: seq<Cell>, v: Cell)
    requires NoDup(order) && v in order
    ensures 0 <= Enumerate(order)[v] < |order| && order[Enumerate(order)[v]] == v
  {
    var i :| 0 <= i < |order| && order[i] == v;
  }

  /** Enumerating a duplicate-free order sorted by ascending frequency gives
      ranks 0 .. n - 1, one per value, that grow with frequency. */
  lemma EnumerateRanks(order: seq<Cell>, col: seq<Cell>)
    requires NoDup(order) && SortedByCount(order, col)
    ensures var m := Enumerate(order);
      && |m| == |order|
      && (forall v :: v in m ==> 0 <= m[v] < |m|)
      && (forall k :: 0 <= k < |m| ==> k in m.Values)
      && (forall u, v :: u in m && v in m && m[u] == m[v] ==> u == v)
      && (forall u, v :: u in m && v in m && Count(col, u) < Count(col, v) ==> m[u] < m[v])
  {
    var m := Enumerate(order);
    NoDupCard(order);
    assert m.Keys == set x | x in order;
    forall v | v in m ensures 0 <= m[v] < |order| && order[m[v]] == v {
      EnumerateInverse(order, v);
    }
    forall k | 0 <= k < |order| ensures k in m.Values {
      assert order[k] in m && m[order[k]] == k;
    }
  }

  /** The mapping `fit` derives (lines 72-74). Its keys are the distinct non-null
      values; its ranks are exactly 0 .. |m| - 1, each used once; a strictly less
      frequent value gets a strictly smaller rank. */
  function FitMappings(col: seq<Cell>): (m: map<Cell, int>)
    ensures forall v :: v in m <==> v in col && !v.Null?
    ensures forall v :: v in m ==> 0 <= m[v] < |m|
    ensures forall k :: 0 <= k < |m| ==> k in m.Values
    ensures forall u, v :: u in m && v in m && m[u] == m[v] ==> u == v
    ensures forall u, v :: u in m && v in m && Count(col, u) < Count(col, v) ==> m[u] < m[v]
  {
    var order := ValueCountsOrder(col);
    EnumerateRanks(order, col);
    Enumerate(order)
  }

  /** A value strictly rarer than every other value gets rank 0. */
  lemma LeastFrequentRanksFirst(col: seq<Cell>, v: Cell)
    requires v in col && !v.Null?
    requires forall u :: u in col && !u.Null? && u != v ==> Count(col, v) < Count(col, u)
    ensures FitMappings(col)[v] == 0
  {
    var m := FitMappings(col);
    assert v in m && 0 <= m[v];
    assert 0 in m.Values;
    var w :| w in m && m[w] == 0;
  }

  /** Three distinct keys whose ranks lie in 0 .. 2 and are strictly ordered
      can only be 0, 1 and 2. */
  lemma ThreeRanks(m: map<Cell, int>, lo: Cell, mid: Cell, hi: Cell)
    requires lo in m && mid in m && hi in m && lo != mid && mid != hi && lo != hi
    requires forall v :: v in m ==> v == lo || v == mid || v == hi
    requires forall v :: v in m ==> 0 <= m[v] < |m|
    requires m[lo] < m[mid] < m[hi]
    ensures m.Keys == {lo, mid, hi}
    ensures m[lo] == 0 && m[mid] == 1 && m[hi] == 2
  {
    assert m.Keys == {lo, mid, hi};
    assert |m| == 3 by {
      assert |{lo, mid, hi}| == 3;
    }
    assert m[hi] < 3;
  }

  /** The worked example: a column holding A five times, B twice and C eight
      times is ranked B:0, A:1, C:2. */
  lemma RankExample(col: seq<Cell>, a: Cell, b: Cell, c: Cell)
    requires !a.Null? && !b.Null? && !c.Null? && a != b && b != c && a != c
    requires forall v :: v in col ==> v == a || v == b || v == c
    requires Count(col, a) == 5 && Count(col, b) == 2 && Count(col, c) == 8
    ensures var m := FitMappings(col);
      m.Keys == {a, b, c} && m[b] == 0 && m[a] == 1 && m[c] == 2
  {
    var m := FitMappings(col);
    assert a in multiset(col) && b in multiset(col) && c in multiset(col);
    assert m[b] < m[a] by {
      assert Count(col, b) < Count(col, a);
    }
    assert m[a] < m[c] by {
      assert Count(col, a) < Count(col, c);
    }
    ThreeRanks(m, b, a, c);
  }

  /** `Series.map(m)`: a key's rank, NaN for anything that is not a key. */
  function MapValues(col: seq<Cell>, m: map<Cell, int>): (r: seq<Cell>)
    ensures |r| == |col|
    ensures forall i :: 0 <= i < |col| && col[i] in m ==> r[i] == Int(m[col[i]])
    ensures forall i :: 0 <= i < |col| && col[i] !in m ==> r[i].Null?
  {
    seq(|col|, i requires 0 <= i < |col| => if col[i] in m then Int(m[col[i]]) else Null)
  }

  /** `astype(int)` of a column of ints and NaN: any NaN makes the cast fail. */
  function AsTypeInt(col: seq<Cell>): (r: Result<seq<Cell>, Error>)
    requires forall i :: 0 <= i < |col| ==> col[i].Int? || col[i].Null?
    ensures r.Success? <==> forall i :: 0 <= i < |col| ==> col[i].Int?
    ensures r.Failure? ==> r.error == IntCastingNaNError
    ensures r.Success? ==> r.value == col
  {
    if exists i :: 0 <= i < |col| && col[i].Null? then Failure(IntCastingNaNError) else Success(col)
  }

  /** Line 80: the mapped column, or the cast error when some value is not a key. */
  function MapColumn(col: seq<Cell>, m: map<Cell, int>): (r: Result<seq<Cell>, Error>)
    ensures r.Success? <==> forall i :: 0 <= i < |col| ==> col[i] in m
    ensures r.Failure? ==> r.error == IntCastingNaNError
    ensures r.Success? ==> |r.value| == |col| && forall i :: 0 <= i < |col| ==> r.value[i] == Int(m[col[i]])
  {
    AsTypeInt(MapValues(col, m))
  }

  /** Fitting and transforming the same column succeeds exactly when the column
      has no missing value; the ranks then decode back to the column through the
      frequency order, so the encoding loses nothing. */
  lemma FitThenTransform(col: seq<Cell>)
    ensures MapColumn(col, FitMappings(col)).Success? <==> forall i :: 0 <= i < |col| ==> !col[i].Null?
    ensures var r := MapColumn(col, FitMappings(col));
      r.Success? ==> forall i :: 0 <= i < |col| ==>
        && 0 <= r.value[i].n < |ValueCountsOrder(col)|
        && ValueCountsOrder(col)[r.value[i].n] == col[i]
  {
    var order := ValueCountsOrder(col);
    var m := FitMappings(col);
    var r := MapColumn(col, m);
    if r.Success? {
      forall i | 0 <= i < |col| ensures 0 <= r.value[i].n < |order| && order[r.value[i].n] == col[i] {
        EnumerateInverse(order, col[i]);
      }
    }
  }

  class Mapper {
    const variables: string
    var mappings: Option<map<Cell, int>>

    constructor (variables: string, mappings: Option<map<Cell, int>>)
      ensures this.variables == variables && this.mappings == mappings
    {
      this.variables := variables;
      this.mappings := mappings;
    }

    /** `Mapper(variables, mappings=None)`: `variables` must be a `str`; the
        mapping is kept as given. */
    static method Create(variables: PyValue, mappings: Option<map<Cell, int>>) returns (r: Result<Mapper, Error>)
      ensures r.Success? <==> variables.PyStr?
      ensures !variables.PyStr? ==> r == Failure(ValueError("variables should be a str"))
      ensures r.Success? ==> fresh(r.value) && r.value.variables == variables.s && r.value.mappings == mappings
    {
      var v := RequireStr(variables, "variables should be a str");
      if v.Failure? { return Failure(v.error); }
      var m := new Mapper(v.value, mappings);
      return Success(m);
    }

    /** `fit`: derives a mapping only when none is set, so a supplied or already
        fitted mapping is never replaced, and the table is then not even read. */
    method Fit(x: Table) returns (r: Result<Mapper, Error>)
      requires x.Wf()
      modifies this`mappings
      ensures old(mappings).Some? ==> r == Success(this) && mappings == old(mappings)
      ensures old(mappings).None? && variables !in x.names ==> r == Failure(KeyError(variables)) && mappings.None?
      ensures old(mappings).None? && variables in x.names ==>
        r == Success(this) && mappings == Some(FitMappings(x.columns[ColumnIndex(x, variables).value]))
    {
      if mappings.None? {
        var found := ColumnIndex(x, variables);
        if found.Failure? { return Failure(found.error); }
        mappings := Some(FitMappings(x.columns[found.value]));
      }
      return Success(this);
    }

    /** `transform`: the column read first (KeyError), then mapped. `map(None)` calls
        None on the first cell (TypeError), so a column without rows maps to an
        empty column and passes; an unmapped value becomes NaN and fails the cast. */
    method Transform(x: Table) returns (r: Result<Table, Error>)
      requires x.Wf()
      ensures variables !in x.names ==> r == Failure(KeyError(variables))
      ensures variables in x.names && mappings.None? && x.Rows() > 0 ==> r == Failure(TypeError)
      ensures variables in x.names && mappings.None? && x.Rows() == 0 ==>
        r == Success(WithColumn(x, ColumnIndex(x, variables).value, []))
      ensures variables in x.names && mappings.Some? ==>
        var j := ColumnIndex(x, variables).value;
        var mapped := MapColumn(x.columns[j], mappings.value);
        && (r.Success? <==> mapped.Success?)
        && (r.Failure? ==> r.error == IntCastingNaNError)
        && (r.Success? ==> r.value == WithColumn(x, j, mapped.value))
    {
      var found := ColumnIndex(x, variables);
      if found.Failure? { return Failure(found.error); }
      var j := found.value;
      if mappings.None? {
        if x.Rows() > 0 { return Failure(TypeError); }
        return Success(WithColumn(x, j, []));
      }
      var mapped := MapColumn(x.columns[j], mappings.value);
      if mapped.Failure? { return Failure(mapped.error); }
      return Success(WithColumn(x, j, mapped.value));
    }
  }
}
