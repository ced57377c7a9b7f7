/** The two library calls the weekday imputer relies on: pandas' `dt.day_name()`
    and Python's prefix slice `a[:n]`. */
module Calendar {

  /** English day names, Monday first, as `dt.day_name()` spells them. */
  const DayNames: seq<string> :=
    ["Monday", "Tuesday", "Wednesday", "Thursday", "Friday", "Saturday", "Sunday"]

  /** The day name of a date given in days from 1970-01-01, which was a Thursday. */
  function DayName(day: int): (r: string)
    ensures r in DayNames
    ensures |r| >= 6
  {
    DayNames[(day + 3) % 7]
  }

  /** Python's `s[:n]`: a non-negative `n` keeps at most `n` characters, a negative
      `n` drops the last `-n` characters. */
  function PrefixSlice(s: string, n: int): (r: string)
    ensures |r| == if n >= 0 then (if n <= |s| then n else |s|)
                   else (if |s| + n >= 0 then |s| + n else 0)
    ensures r == s[..|r|]
  {
    if n >= 0 then (if n <= |s| then s[..n] else s)
    else if |s| + n >= 0 then s[..|s| + n]
    else []
  }

  /** `dt.day_name()` followed by `[:n]`: the weekday fill for one date. */
  function ShortDayName(day: int, n: int): (r: string)
    ensures |r| <= |DayName(day)| && r == DayName(day)[..|r|]
    ensures 0 <= n <= 6 ==> |r| == n
  {
    PrefixSlice(DayName(day), n)
  }
}
