/** Frequency facts about one column: the number of occurrences of a value, the
    distinct non-null values, a most frequent value (`Series.mode()[0]`) and the
    ascending-frequency order of `Series.value_counts(ascending=True).index`. */
module Counting {
  import opened Wrappers
  import opened Frame

  /** How often `v` occurs in `col`. */
  function Count(col: seq<Cell>, v: Cell): nat {
    multiset(col)[v]
  }

  predicate NoDup<T(==)>(s: seq<T>) {
    forall i, j :: 0 <= i < j < |s| ==> s[i] != s[j]
  }

  /** The distinct non-null values of `col`, in order of first occurrence. */
  function DistinctValues(col: seq<Cell>): (r: seq<Cell>)
    ensures NoDup(r)
    ensures forall v :: v in r <==> v in col && v != Null
    decreases |col|
  {
    if col == [] then []
    else
      var init := col[..|col| - 1];
      var last := col[|col| - 1];
      assert col == init + [last];
      var prev := DistinctValues(init);
      if last == Null || last in prev then prev else prev + [last]
  }

  /** The number of distinct values of a duplicate-free sequence is its length. */
  lemma {:induction false} NoDupCard<T>(s: seq<T>)
    requires NoDup(s)
    ensures |set x | x in s| == |s|
  {
    if s != [] {
      var init := s[..|s| - 1];
      NoDupCard(init);
      assert (set x | x in s) == (set x | x in init) + {s[|s| - 1]};
    }
  }

  /** A most frequent non-null value among `col[..k]`; ties go to the earliest. */
  function ModeAmong(col: seq<Cell>, k: nat): (r: Option<Cell>)
    requires k <= |col|
    ensures r.None? <==> forall i :: 0 <= i < k ==> col[i] == Null
    ensures r.Some? ==> r.value != Null && r.value in col[..k]
    ensures r.Some? ==> forall i :: 0 <= i < k && col[i] != Null ==> Count(col, col[i]) <= Count(col, r.value)
    decreases k
  {
    if k == 0 then None
    else
      var prev := ModeAmong(col, k - 1);
      var c := col[k - 1];
      assert col[..k] == col[..k - 1] + [c];
      if c == Null then prev
      else if prev.None? || Count(col, c) > Count(col, prev.value) then Some(c)
      else prev
  }

  /** `Series.mode()[0]`: a most frequent non-null value, or nothing when every
      cell is null (pandas then raises KeyError(0)). */
  function Mode(col: seq<Cell>): (r: Option<Cell>)
    ensures r.None? <==> forall i :: 0 <= i < |col| ==> col[i] == Null
    ensures r.Some? ==> r.value != Null && r.value in col
    ensures r.Some? ==> forall v :: v != Null ==> Count(col, v) <= Count(col, r.value)
  {
    var r := ModeAmong(col, |col|);
    assert col[..|col|] == col;
    r
  }

  predicate SortedByCount(s: seq<Cell>, col: seq<Cell>) {
    forall i, j :: 0 <= i < j < |s| ==> Count(col, s[i]) <= Count(col, s[j])
  }

  /** Insert `x` before the first element that is at least as frequent. */
  function InsertByCount(x: Cell, s: seq<Cell>, col: seq<Cell>): (r: seq<Cell>)
    requires SortedByCount(s, col)
    ensures SortedByCount(r, col) && |r| == |s| + 1
    ensures forall v :: v in r <==> v == x || v in s
  {
    if s == [] || Count(col, x) <= Count(col, s[0]) then [x] + s
    else
      var rest := InsertByCount(x, s[1..], col);
      assert forall k :: 0 <= k < |rest| ==> Count(col, s[0]) <= Count(col, rest[k]) by {
        forall k | 0 <= k < |rest| ensures Count(col, s[0]) <= Count(col, rest[k]) {
          assert rest[k] in rest;
          if rest[k] != x {
            var m :| 0 <= m < |s[1..]| && s[1..][m] == rest[k];
            assert s[m + 1] == rest[k];
          }
        }
      }
      [s[0]] + rest
  }

  lemma {:induction false} InsertByCountNoDup(x: Cell, s: seq<Cell>, col: seq<Cell>)
    requires SortedByCount(s, col) && NoDup(s) && x !in s
    ensures NoDup(InsertByCount(x, s, col))
  {
    if s != [] && Count(col, x) > Count(col, s[0]) {
      assert NoDup(s[1..]) && s[0] !in s[1..];
      InsertByCountNoDup(x, s[1..], col);
    }
  }

  /** Inserting adds exactly one occurrence of `x`. */
  lemma {:induction false} InsertByCountPermutes(x: Cell, s: seq<Cell>, col: seq<Cell>)
    requires SortedByCount(s, col)
    ensures multiset(InsertByCount(x, s, col)) == multiset(s) + multiset{x}
  {
    if s != [] && Count(col, x) > Count(col, s[0]) {
      InsertByCountPermutes(x, s[1..], col);
      assert s == [s[0]] + s[1..];
    }
  }

  /** A stable insertion sort of `s` by ascending frequency in `col`. */
  function SortByCount(s: seq<Cell>, col: seq<Cell>): (r: seq<Cell>)
    ensures SortedByCount(r, col) && |r| == |s|
    ensures forall v :: v in r <==> v in s
    ensures NoDup(s) ==> NoDup(r)
  {
    if s == [] then []
    else
      var sorted := SortByCount(s[1..], col);
      assert NoDup(s) ==> NoDup(s[1..]) && s[0] !in s[1..];
      if NoDup(s) then InsertByCountNoDup(s[0], sorted, col); InsertByCount(s[0], sorted, col)
      else InsertByCount(s[0], sorted, col)
  }

  /** The sort is a permutation: every value keeps its number of occurrences. */
  lemma {:induction false} SortByCountPermutes(s: seq<Cell>, col: seq<Cell>)
    ensures multiset(SortByCount(s, col)) == multiset(s)
  {
    if s != [] {
      var sorted := SortByCount(s[1..], col);
      calc {
        multiset(SortByCount(s, col));
        multiset(InsertByCount(s[0], sorted, col));
        { InsertByCountPermutes(s[0], sorted, col); }
        multiset(sorted) + multiset{s[0]};
        { SortByCountPermutes(s[1..], col); }
        multiset(s[1..]) + multiset{s[0]};
        { assert s == [s[0]] + s[1..]; }
        multiset(s);
      }
    }
  }

  /** `value_counts(ascending=True).index`: the distinct non-null values, least
      frequent first. */
  function ValueCountsOrder(col: seq<Cell>): (r: seq<Cell>)
    ensures NoDup(r) && SortedByCount(r, col)
    ensures forall v :: v in r <==> v in col && v != Null
  {
    SortByCount(DistinctValues(col), col)
  }
}
