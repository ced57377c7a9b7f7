# Bike-share feature transformers in Dafny

This project models the five feature transformers of the bike-share rental
pipeline (`Project/bikeshare_model/processing/features.py`). Each one is a small
fit/transform stage over one column of a pandas DataFrame:

- `WeekdayImputer` fills missing weekday names from the date column.
- `WeathersitImputer` fills missing weather codes with the most frequent one.
- `Mapper` ranks the categories of an ordinal column by ascending frequency and
  replaces each value by its rank.
- `OutlierHandler` computes interquartile-range fences and clamps a column to them.
- `WeekdayOneHotEncoder` appends one indicator column per weekday category.

A DataFrame is a value `Frame.Table`: index labels, column labels and one
sequence of cells per column. A cell is `Null`, a string, a real, an int or a
date counted in days from 1970-01-01. Every transformer starts with `X.copy()`,
so tables as values give "the input is not modified" by construction.

Each transformer is a `class`. The configuration set by `__init__` is a set of
`const` fields. What `fit` (and the weekday `transform`) store are `var` fields,
and the methods say in `modifies` which of them they may write. `__init__`
raises `ValueError` on a badly typed argument. This is a `static method Create`
that takes dynamically typed `PyValue` arguments and returns either the new
object or the error. Every exception the source can raise is a `Frame.Error`
value. The errors come in the order in which Python evaluates the expressions
that raise them. `OutlierHandler.transform` is the one explicit loop in the
source, and its model is a `while` loop over an array copy of the column. The
rank map, the fills and the one-hot layout are functions with lemmas about them.

Three places where the model follows the code rather than what one might
expect:

- The weekday null rows are recomputed on the current table by every
  `transform` (features.py:30). `fit` records nothing (features.py:25-26).
- A category unseen at fit time makes the one-hot `transform` fail. It does not
  give an all-zero row, because `OneHotEncoder` is built with its default
  `handle_unknown='error'` (features.py:131).
- A value missing from the mapping makes `Mapper.transform` fail. The cast
  `astype(int)` of the resulting NaN raises (features.py:80). It is not a null
  result.

## Model

| member | source | states |
|---|---|---|
| Frame.ColumnIndex | Project/bikeshare_model/processing/features.py:45 | `X[name]` finds a column labelled `name`, and fails with KeyError(name) exactly when no column has that label |
| Frame.WithColumn | Project/bikeshare_model/processing/features.py:50 | assigning `X1[name] = col` replaces that one column; index, labels and every other column are unchanged |
| Frame.RequireStr | Project/bikeshare_model/processing/features.py:14-17 | the `isinstance(v, str)` guard accepts exactly strings and otherwise raises ValueError with the given message |
| Frame.RequireInt | Project/bikeshare_model/processing/features.py:18-19 | the `isinstance(v, int)` guard accepts ints and bools (as 1/0) and otherwise raises ValueError with the given message |
| Calendar.DayName | Project/bikeshare_model/processing/features.py:31 | `dt.day_name()` yields one of the seven English day names, each at least six characters long |
| Calendar.PrefixSlice | Project/bikeshare_model/processing/features.py:31 | Python's `a[:n]` is a prefix of `a`: min(n, len) characters for n >= 0, len + n (at least 0) for negative n |
| Calendar.ShortDayName | Project/bikeshare_model/processing/features.py:31 | the weekday fill is a prefix of the day name, exactly `len_day_name` characters long when that is between 0 and 6 |
| WeekdayImputation.IsDatetime | Project/bikeshare_model/processing/features.py:31 | `.dt` refuses a column exactly when some cell holds a string or a number rather than a date or NaT |
| WeekdayImputation.NullPositions | Project/bikeshare_model/processing/features.py:30 | the positions of the null weekday cells: all of them, only them, in ascending order |
| WeekdayImputation.NullLabels | Project/bikeshare_model/processing/features.py:30 | `wkday_null_idx` holds the index label of every null row and no label of any other row |
| WeekdayImputation.Assign | Project/bikeshare_model/processing/features.py:32 | `.loc[rows] = values` puts each value at its row and leaves every other row unchanged |
| WeekdayImputation.FillNullRows | Project/bikeshare_model/processing/features.py:31-32 | only null weekday cells change, each to its own row's day name cut to `len_day_name`; non-null cells are kept |
| WeekdayImputation.FillWeekdays | Project/bikeshare_model/processing/features.py:30-32 | AttributeError("dt") when the reference column is not datetime; TypeError exactly when a null weekday row has a missing date; otherwise the fill above, which leaves no null |
| WeekdayImputation.WeekdayImputer.Create | Project/bikeshare_model/processing/features.py:13-23 | succeeds exactly for two strings and an int (or bool); otherwise raises the ValueError of the first bad argument, in order |
| WeekdayImputation.WeekdayImputer.Fit | Project/bikeshare_model/processing/features.py:25-26 | `fit` learns nothing and returns the transformer itself |
| WeekdayImputation.WeekdayImputer.Transform | Project/bikeshare_model/processing/features.py:28-33 | records the current null rows before the date column is looked up; KeyError for either missing column; otherwise the fill of the weekday column, with every other column unchanged |
| Counting.Mode | Project/bikeshare_model/processing/features.py:45 | `mode()[0]` is absent exactly when every cell is null; otherwise it is a non-null value of the column whose count no other value exceeds |
| Counting.DistinctValues | Project/bikeshare_model/processing/features.py:132 | the distinct non-null values of a column, each once |
| Counting.SortByCount | Project/bikeshare_model/processing/features.py:72 | the values sorted by ascending count, the same length and the same values; a duplicate-free input stays duplicate-free |
| Counting.SortByCountPermutes | Project/bikeshare_model/processing/features.py:72 | the sort is a permutation: every value keeps its number of occurrences |
| Counting.ValueCountsOrder | Project/bikeshare_model/processing/features.py:72 | `value_counts(ascending=True).index`: every distinct non-null value once, in ascending order of frequency |
| WeathersitImputation.FillNulls | Project/bikeshare_model/processing/features.py:50 | `fillna(v)` puts `v` in every null cell and keeps every other cell; with a non-null `v` no null is left |
| WeathersitImputation.FillNullsCounts | Project/bikeshare_model/processing/features.py:50 | after the fill, `v` has gained exactly the former nulls, nulls are gone and every other value keeps its count |
| WeathersitImputation.FillKeepsMode | Project/bikeshare_model/processing/features.py:44-51 | filling with a most frequent value leaves it a most frequent value |
| WeathersitImputation.WeathersitImputer.Create | Project/bikeshare_model/processing/features.py:38-42 | succeeds exactly for a string `variables`, otherwise ValueError("variables should be a str") |
| WeathersitImputation.WeathersitImputer.Fit | Project/bikeshare_model/processing/features.py:44-46 | KeyError for a missing column; KeyError(0) when the column has no non-null value; otherwise `fill_value` becomes the mode |
| WeathersitImputation.WeathersitImputer.Transform | Project/bikeshare_model/processing/features.py:48-51 | KeyError for a missing column, AttributeError before any fit, otherwise the column with its nulls filled and nothing else changed |
| WeathersitImputation.FitThenTransform | Project/bikeshare_model/processing/features.py:44-51 | fit then transform on the same column leaves no null, and the fill value stays a most frequent value |
| OrdinalMapping.Enumerate | Project/bikeshare_model/processing/features.py:74 | `{val: cnt for cnt, val in enumerate(data)}` maps exactly the listed values, each to its position |
| OrdinalMapping.EnumerateInverse | Project/bikeshare_model/processing/features.py:74 | a value's rank points back at that value in the order it came from |
| OrdinalMapping.EnumerateRanks | Project/bikeshare_model/processing/features.py:72-74 | enumerating the ascending-frequency order gives ranks 0..k-1, one per value, growing with frequency |
| OrdinalMapping.FitMappings | Project/bikeshare_model/processing/features.py:71-74 | keys are exactly the distinct non-null values; ranks are exactly 0..k-1, each used once; a strictly rarer value has a strictly smaller rank |
| OrdinalMapping.LeastFrequentRanksFirst | Project/bikeshare_model/processing/features.py:72-74 | a value strictly rarer than all others gets rank 0 |
| OrdinalMapping.RankExample | Project/bikeshare_model/processing/features.py:72-74 | counts A:5, B:2, C:8 give the mapping B:0, A:1, C:2 and nothing else |
| OrdinalMapping.MapValues | Project/bikeshare_model/processing/features.py:80 | `Series.map(m)` gives each key its rank and NaN to every value that is not a key |
| OrdinalMapping.AsTypeInt | Project/bikeshare_model/processing/features.py:80 | `astype(int)` succeeds, unchanged, exactly when no NaN is present, and otherwise raises the NaN-casting error |
| OrdinalMapping.MapColumn | Project/bikeshare_model/processing/features.py:80 | the mapped column succeeds exactly when every value is a key, and then holds each value's rank |
| OrdinalMapping.FitThenTransform | Project/bikeshare_model/processing/features.py:68-82 | fit then transform on one column succeeds exactly when it has no missing value, and the ranks decode back to the column |
| OrdinalMapping.Mapper.Create | Project/bikeshare_model/processing/features.py:60-66 | succeeds exactly for a string `variables` and keeps the supplied mapping as given |
| OrdinalMapping.Mapper.Fit | Project/bikeshare_model/processing/features.py:68-75 | an existing mapping is kept and the table is not read; otherwise KeyError for a missing column, or the frequency ranking of the column |
| OrdinalMapping.Mapper.Transform | Project/bikeshare_model/processing/features.py:77-82 | KeyError for a missing column, TypeError with no mapping on a non-empty column (a column without rows passes through), the cast error when some value is unmapped, otherwise only the column replaced by its ranks |
| OutlierHandling.LowerFence | Project/bikeshare_model/processing/features.py:108 | `lower_bound` lies at or below q1 exactly when q1 <= q3, and equals q1 exactly when the quartiles coincide |
| OutlierHandling.UpperFence | Project/bikeshare_model/processing/features.py:109 | `upper_bound` lies at or above q3 exactly when q1 <= q3, and equals q3 exactly when the quartiles coincide |
| OutlierHandling.Comparable | Project/bikeshare_model/processing/features.py:115-118 | comparing a cell with a float raises TypeError exactly for string and date cells |
| OutlierHandling.Above | Project/bikeshare_model/processing/features.py:115 | `cell > upper_bound` holds exactly for a present number above the bound; NaN compares false |
| OutlierHandling.Below | Project/bikeshare_model/processing/features.py:117 | `cell < lower_bound` holds exactly for a present number below the bound; NaN compares false |
| OutlierHandling.FencesAroundQuartiles | Project/bikeshare_model/processing/features.py:107-109 | for q1 <= q3, lower <= q1 <= q3 <= upper; the fences are four IQRs apart around the quartiles' midpoint |
| OutlierHandling.ClipValue | Project/bikeshare_model/processing/features.py:115-118 | the two ifs clamp a value into [lower, upper], keep values inside, send larger ones to upper and smaller ones to lower; crossed fences give lower |
| OutlierHandling.ClipCell | Project/bikeshare_model/processing/features.py:114-118 | a missing cell stays missing; a number is clamped, and one inside the fences is kept as it was |
| OutlierHandling.ClipColumn | Project/bikeshare_model/processing/features.py:114-118 | every present value ends inside the fences; values inside are kept, values above become upper, values below become lower; missing values stay missing |
| OutlierHandling.ClipColumnIdempotent | Project/bikeshare_model/processing/features.py:112-119 | clamping twice equals clamping once |
| OutlierHandling.ClipColumnCrossedFences | Project/bikeshare_model/processing/features.py:115-118 | when lower > upper every present value becomes lower |
| OutlierHandling.OutlierHandler.Create | Project/bikeshare_model/processing/features.py:92-102 | succeeds exactly for three strings; otherwise the ValueError of the first bad argument, in order |
| OutlierHandling.OutlierHandler.Fit | Project/bikeshare_model/processing/features.py:104-110 | KeyError for a missing column or statistic (q1 is already stored when only q3 is missing); otherwise iqr = q3 - q1 and the fences q1 - 1.5 iqr and q3 + 1.5 iqr |
| OutlierHandling.OutlierHandler.Transform | Project/bikeshare_model/processing/features.py:112-119 | the row loop over an array copy: an empty table passes through; KeyError, AttributeError before fit, TypeError on a non-numeric cell; otherwise only the column is replaced by its clamp |
| Lexicographic.LessIrreflexive | Project/bikeshare_model/processing/features.py:132 | Python's `str` order, by which the categories are sorted, never puts a string before itself |
| Lexicographic.LessTransitive | Project/bikeshare_model/processing/features.py:132 | the `str` order is transitive |
| Lexicographic.LessTotal | Project/bikeshare_model/processing/features.py:132 | of two different strings one comes before the other |
| Lexicographic.LessProperPrefix | Project/bikeshare_model/processing/features.py:132 | a proper prefix comes before the longer string |
| Lexicographic.StrictlySortedNoDup | Project/bikeshare_model/processing/features.py:132 | a strictly ascending list of strings has no duplicate |
| Lexicographic.SortStrings | Project/bikeshare_model/processing/features.py:132 | the strings of a duplicate-free list, all of them and only them, in strictly ascending `str` order |
| WeekdayOneHot.SortedStringCells | Project/bikeshare_model/processing/features.py:132 | the string categories, each once, in strictly ascending order |
| WeekdayOneHot.Categories | Project/bikeshare_model/processing/features.py:130-133 | ValueError on an empty column, TypeError on a non-string column; otherwise every distinct value once, strings ascending and the missing value last |
| WeekdayOneHot.Indicator | Project/bikeshare_model/processing/features.py:137 | one indicator column: 1.0 exactly in the rows holding the category, 0.0 elsewhere |
| WeekdayOneHot.IndicatorBlock | Project/bikeshare_model/processing/features.py:137 | one indicator column per category, in category order |
| WeekdayOneHot.FeatureName | Project/bikeshare_model/processing/features.py:138 | a column name is `<variables>_` followed by the category string, or by `nan` for the missing category |
| WeekdayOneHot.FeatureNameInjective | Project/bikeshare_model/processing/features.py:138 | distinct string categories get distinct column names |
| WeekdayOneHot.FeatureNames | Project/bikeshare_model/processing/features.py:138 | one `<variables>_<category>` name per category, in category order |
| WeekdayOneHot.AppendIndicators | Project/bikeshare_model/processing/features.py:136-142 | index reset to 0..n-1, all original columns kept with the same rows, indicators appended on the right under their names |
| WeekdayOneHot.ExactlyOneHot | Project/bikeshare_model/processing/features.py:137 | a row holding a category has exactly one 1.0, in that category's column, and 0.0 in all others |
| WeekdayOneHot.WeekdayOneHotEncoder.Create | Project/bikeshare_model/processing/features.py:124-128 | succeeds exactly for a string `variables`, otherwise ValueError("variables should be a str") |
| WeekdayOneHot.WeekdayOneHotEncoder.Fit | Project/bikeshare_model/processing/features.py:130-133 | a fresh encoder is stored first; a missing column (KeyError) leaves it unfitted; sklearn's zero-row or category error leaves it failed, with `categories_` absent or empty; otherwise it holds the column's categories |
| WeekdayOneHot.WeekdayOneHotEncoder.Transform | Project/bikeshare_model/processing/features.py:135-144 | AttributeError before any fit, KeyError, not-fitted error, ValueError on zero rows; after a failed fit AttributeError(`categories_`) or IndexError; otherwise the unknown-category error or the indicators appended |
| WeekdayOneHot.FitThenTransform | Project/bikeshare_model/processing/features.py:130-144 | fit then transform on a non-empty string column succeeds, and every row has exactly one 1.0 in its own category's column |

## Left out

- `pipeline.py`, `predict.py` and the tests are not part of this model. They wire library stages together, load a pickled model and check a regressor's score.
- OutlierHandling.OutlierHandler.Fit: takes the result of `X.describe()` as a map of statistics. The percentile interpolation that computes q1 and q3 is not modelled.
- Counting.Mode: among equally frequent values it picks the first one in the column. pandas picks the smallest in sorted order.
- Counting.ValueCountsOrder: equally frequent values keep their order of first appearance. pandas leaves that order unspecified, so a mapping fitted on tied values may differ from pandas'.
- WeekdayOneHot.Categories: accepts only string columns, plus missing values. A purely numeric column, which sklearn also accepts and sorts numerically, is refused with TypeError, and the encoder is then left failed with an empty `categories_`.
- WeekdayOneHot.FeatureName: names the missing-value category `nan`. sklearn writes `None` when the missing marker was Python's `None`.
- OrdinalMapping.Mapper.Create: a supplied mapping must map to ints. A dict with non-int values, which `astype(int)` might still cast, is not modelled.
- OutlierHandling.ClipCell: an int cell that is overwritten becomes a float cell. The other int cells of the column stay ints, whereas pandas may upcast the whole column to float.
- Columns with duplicate labels: `X[name]` is modelled as the first column with that label. pandas would return a sub-table.
- A non-unique index: rows are addressed by position. In pandas, `.loc` on a repeated label touches every row with that label.
- Floating point: values are exact reals, so rounding in `1.5 * iqr` and NaN as a number are not modelled. Missing values are the separate cell `Null`.
- The debug `print` in `Mapper.fit` (features.py:73) is output only and is left out.
- `sparse_output=False` is fixed. The indicators are always a dense block of 1.0/0.0 cells.
- WeekdayImputation.FillWeekdays: decides `.dt` from the kinds of the cells, while pandas decides it from the column's dtype. The two differ in two cases. A reference column holding only missing values is float64 in pandas, so `.dt` raises AttributeError; the model accepts it and gives TypeError or success. Dates held in an object-dtype column are refused by pandas and accepted by the model.
- `dt.day_name()` is a real calendar on day numbers (1970-01-01 was a Thursday). Time of day and time zones are not modelled.
