/** Python's ordering of `str` values (code point by code point, a proper prefix
    first) and sorting a duplicate-free list of strings by it, which is how
    sklearn orders the categories it learns from a string column. */
module Lexicographic {
  import opened Counting

  predicate Less(a: string, b: string) {
    if a == [] then b != []
    else if b == [] then false
    else a[0] < b[0] || (a[0] == b[0] && Less(a[1..], b[1..]))
  }

  lemma {:induction false} LessIrreflexive(a: string)
    ensures !Less(a, a)
  {
    if a != [] {
      LessIrreflexive(a[1..]);
    }
  }

  lemma {:induction false} LessTransitive(a: string, b: string, c: string)
    requires Less(a, b) && Less(b, c)
    ensures Less(a, c)
  {
    if a != [] && a[0] == b[0] && b[0] == c[0] {
      LessTransitive(a[1..], b[1..], c[1..]);
    }
  }

  lemma {:induction false} LessTotal(a: string, b: string)
    requires a != b
    ensures Less(a, b) || Less(b, a)
  {
    if a != [] && b != [] && a[0] == b[0] {
      assert a == [a[0]] + a[1..] && b == [b[0]] + b[1..];
      LessTotal(a[1..], b[1..]);
    }
  }

  /** A proper prefix comes first, as `"Mon" < "Monday"` in Python. */
  lemma {:induction false} LessProperPrefix(a: string, b: string)
    requires |a| < |b| && a == b[..|a|]
    ensures Less(a, b)
  {
    if a != [] {
      assert a[0] == b[0];
      assert a[1..] == b[1..][..|a| - 1];
      LessProperPrefix(a[1..], b[1..]);
    }
  }

  predicate StrictlySorted(s: seq<string>) {
    forall i, j :: 0 <= i < j < |s| ==> Less(s[i], s[j])
  }

  lemma StrictlySortedNoDup(s: seq<string>)
    requires StrictlySorted(s)
    ensures NoDup(s)
  {
    forall i, j | 0 <= i < j < |s| ensures s[i] != s[j] {
      LessIrreflexive(s[i]);
    }
  }

  function InsertSorted(x: string, s: seq<string>): (r: seq<string>)
    requires StrictlySorted(s) && x !in s
    ensures StrictlySorted(r) && |r| == |s| + 1
    ensures forall v :: v in r <==> v == x || v in s
  {
    if s == [] then [x]
    else
      LessTotal(x, s[0]);
      if Less(x, s[0]) then
        assert forall j :: 0 <= j < |s| ==> Less(x, s[j]) by {
          forall j | 0 <= j < |s| ensures Less(x, s[j]) {
            if j > 0 { LessTransitive(x, s[0], s[j]); }
          }
        }
        [x] + s
      else
        var rest := InsertSorted(x, s[1..]);
        assert forall k :: 0 <= k < |rest| ==> Less(s[0], rest[k]) by {
          forall k | 0 <= k < |rest| ensures Less(s[0], rest[k]) {
            assert rest[k] in rest;
            if rest[k] != x {
              var m :| 0 <= m < |s[1..]| && s[1..][m] == rest[k];
              assert s[m + 1] == rest[k];
            }
          }
        }
        [s[0]] + rest
  }

  /** The strings of a duplicate-free list in increasing order. */
  function SortStrings(s: seq<string>): (r: seq<string>)
    requires NoDup(s)
    ensures StrictlySorted(r) && |r| == |s|
    ensures forall v :: v in r <==> v in s
  {
    if s == [] then []
    else
      assert NoDup(s[1..]) && s[0] !in s[1..];
      InsertSorted(s[0], SortStrings(s[1..]))
  }
}
