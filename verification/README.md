# Healthcare payment inequality pipeline: a Dafny model

The repository studies industry payments to physicians (the CMS Open Payments
disclosures) state by state, next to the states' household incomes from the
American Community Survey. It has two stages:

- `code/preprocessing.py` runs steps 3 to 6 of `run_preprocessing`. It cleans the
  payment records: it drops non-positive amounts, keeps the last `|` segment of the
  specialty, trimmed, maps the nature of payment to one of eleven short categories
  or "Other", and defaults a missing state to "Unknown". It reads the
  median-income and household-count indicators of every state from the census
  table and maps state names to postal abbreviations. It then sums the payments
  per state and per (state, specialty, category) triple, joins the state totals
  with the census rows on the abbreviation, and divides by the household count.
- `app.py` is the dashboard. It picks the income column and adds FIPS codes and
  income percentiles to the state table. It filters the detail rows by state
  selection, income band and specialty, then optionally by a top-% amount
  threshold. It reports the total, the share of the top 1 % and the row count, and
  computes the Lorenz-curve coordinates.

The model works over sequences of records. Amounts are exact `real`s, and pandas
nulls are `Option.None`. A division that may meet a zero or missing divisor gives
a `Ratio` (finite, ±infinity or NaN), as IEEE division does. The run's fatal
errors, a missing or repeated census indicator, are `Result` failures. The group-by sums are
loops accumulating into maps. The Lorenz coordinates are a loop filling two
arrays. Everything else is a pure function, as the pandas expressions are.

Modules, one per file:
- `Wrappers` (`wrappers.dfy`): `Option` and `Result`.
- `Seqs` (`seqs.dfy`): order-preserving filters and subsequences.
- `Text` (`text.dfy`): strip, split, substring tests and removals.
- `Numeric` (`numeric.dfy`): the census number parser.
- `Lookups` (`lookups.dfy`): the nature, state-name and FIPS tables.
- `Cleaning` (`cleaning.dfy`): payment cleaning and the census rows.
- `Aggregation` (`aggregation.dfy`): group-by sums, the merge and the whole preprocessing run.
- `Stats` (`stats.dfy`): sorting, the linear quantile, the average-tie percentile rank and Lorenz shares.
- `Dashboard` (`dashboard.dfy`): the dashboard's state table, filters, metrics and Lorenz columns.

Three behaviours of the code that the model keeps as they are:
- The per-household ratio has no guard against zero or missing households; such a
  row carries an infinity or NaN.
- Each indicator label is the first label containing its fragment; a fragment that
  no label contains stops the run, and so does a matched label that the census
  index repeats.
- A specialty whose last `|` segment is empty (or blank) becomes the empty string;
  only a missing specialty becomes "Unknown".

## Model

| member | source | states |
|---|---|---|
| Seqs.Filter | code/preprocessing.py:47 | the kept elements are exactly those satisfying the predicate, in their original order (a subsequence); with Seqs.FilterMultiplicity, each as often as it occurs |
| Seqs.FilterMultiplicity | code/preprocessing.py:47 | a filter keeps every passing element exactly as often as it occurs: identical rows are all kept |
| Seqs.FilterAll | code/preprocessing.py:47 | a filter that every element passes returns its input unchanged |
| Seqs.FilterMonotone | app.py:92-94 | a weaker predicate keeps a longer subsequence containing the stricter one's result |
| Seqs.SubsequenceMembers | app.py:84 | every element of a subsequence belongs to the whole |
| Seqs.SubsequenceTransitive | app.py:86-94 | the filters compose: a subsequence of a subsequence is a subsequence |
| Text.StripShape | code/preprocessing.py:63 | the stripped text is the middle of the input, with whitespace-only margins cut off, and does not start or end with whitespace |
| Text.StripIdempotent | code/preprocessing.py:63 | stripping twice is stripping once |
| Text.Split | code/preprocessing.py:61 | splitting yields at least one piece, and no piece holds the separator |
| Text.JoinSplit | code/preprocessing.py:61 | joining the pieces with the separator gives back the original string |
| Text.SplitWithoutSeparator | code/preprocessing.py:61-62 | a string without the separator splits into itself alone |
| Text.LastPieceAfterSeparator | code/preprocessing.py:61-62 | the last piece is exactly the text after the final separator |
| Text.RemoveChar | code/preprocessing.py:110 | removing "," leaves no ",", keeps every other character and never lengthens the string |
| Text.RemoveCharAppend | code/preprocessing.py:110 | removing a character distributes over concatenation |
| Text.RemoveAllSuffix | code/preprocessing.py:113 | removing "!!Estimate" from "<name>!!Estimate" leaves the name when the name has no "!" |
| Numeric.ParseNumeric | code/preprocessing.py:110 | a parsed cell holds a digit and no ","; otherwise the cell is null rather than an error |
| Numeric.ParseDigitString | code/preprocessing.py:110 | a printed count parses back to itself |
| Numeric.RemoveSeparators | code/preprocessing.py:110 | stripping "," undoes the insertion of thousands separators |
| Numeric.CensusValueRoundTrip | code/preprocessing.py:110 | a count written with thousands separators ("1,234,567") converts to exactly that count |
| Numeric.CensusValueNoDigit | code/preprocessing.py:110 | a cell without any digit ("N", "(X)", "") converts to null |
| Lookups.NatureCategoryRange | code/preprocessing.py:68-80 | every listed nature maps to one of the eleven category labels |
| Lookups.StateAbbrInjective | code/preprocessing.py:116-128 | distinct state names never share an abbreviation |
| Lookups.StateAbbrRecoverable | code/preprocessing.py:116-128 | every abbreviation has two letters, determines its state name and has a FIPS code |
| Lookups.FipsCodeInjective | app.py:31-39 | every FIPS code lies in 1..56, and distinct abbreviations get distinct codes |
| Lookups.FipsCodeRecoverable | app.py:31-39 | each code determines the abbreviation it was assigned to |
| Cleaning.CleanSpecialty | code/preprocessing.py:59-65 | a missing specialty becomes "Unknown"; otherwise the result holds no pipe character and neither starts nor ends with whitespace |
| Cleaning.CleanSpecialtySingle | code/preprocessing.py:59-65 | a specialty without a pipe character maps to its stripped self |
| Cleaning.CleanSpecialtyLast | code/preprocessing.py:59-65 | of a pipe-separated list, the stripped last entry is kept |
| Cleaning.CleanSpecialtyIdempotent | code/preprocessing.py:59-65 | cleaning a cleaned specialty changes nothing |
| Cleaning.CleanPaymentType | code/preprocessing.py:83-87 | the result is the table's label for an exact key, otherwise (a missing value included) "Other"; it is always one of the eleven labels or "Other" |
| Cleaning.CleanState | code/preprocessing.py:88 | a missing state becomes "Unknown"; a present one is unchanged |
| Cleaning.Normalize | code/preprocessing.py:59-88 | a kept row has its positive amount and the three cleaned labels |
| Cleaning.CleanPayments | code/preprocessing.py:47 | the output is the normalised rows with positive amount, in the original order, so every retained amount is positive |
| Cleaning.FirstLabelContaining | code/preprocessing.py:102-103 | the index of the first label containing the fragment, or none when no label contains it |
| Cleaning.StateRow | code/preprocessing.py:109-129 | a state row reads the two indicator cells through the census conversion and abbreviates its name |
| Cleaning.StateRowName | code/preprocessing.py:113 | the column "<name>!!Estimate" yields the state name `name` |
| Cleaning.CensusRows | code/preprocessing.py:98-129 | the run fails on the first indicator fragment that no label contains, and otherwise exactly when a matched label occurs more than once in the index (the selection then has more columns than the two names); on success there is one row per estimate column, abbreviated by name |
| Cleaning.CensusRowsCells | code/preprocessing.py:98-110 | row i reads the first matching label cells of the i-th estimate column |
| Aggregation.StateStep | code/preprocessing.py:133 | one more payment adds its state to the key set and its amount to its own state's sum only |
| Aggregation.DetailStep | code/preprocessing.py:141 | one more payment adds its triple to the key set and its amount to its own triple's sum only |
| Aggregation.GroupByState | code/preprocessing.py:133 | the loop's table has exactly the occurring states, each mapped to the sum of its payments |
| Aggregation.GroupByDetail | code/preprocessing.py:141 | the loop's table has exactly the occurring triples, each mapped to the sum of its payments |
| Aggregation.StateSumAbsent | code/preprocessing.py:133 | a state without payments sums to 0 |
| Aggregation.StatePartition | code/preprocessing.py:133 | per-state sums over a distinct list covering every payment's state add up to the total |
| Aggregation.DetailPartition | code/preprocessing.py:141 | per-triple sums over a distinct covering list add up to the total, and within one state to that state's sum |
| Aggregation.StateTotalsAddUp | code/preprocessing.py:133 | the state table's values add up to the cleaned total |
| Aggregation.DetailTotalsAddUp | code/preprocessing.py:133-141 | the detail table's values add up to the cleaned total, and those of one state to its entry in the state table |
| Aggregation.DetailSumPositive | code/preprocessing.py:141 | every detail group of cleaned payments has a positive sum |
| Aggregation.StateSumPositive | code/preprocessing.py:133 | every state group of cleaned payments has a positive sum |
| Aggregation.Divide | code/preprocessing.py:135 | a finite quotient exactly when the divisor is present and non-zero, with quotient × divisor = dividend; ±infinity for a non-zero amount over zero households |
| Aggregation.Merge | code/preprocessing.py:134-135 | one row per census row whose abbreviation has a payment total, in census order: the row joins that census row's name, income and households with the state's total, and has amount / households as its per-household value |
| Aggregation.MergeMembership | code/preprocessing.py:134 | a state is in the summary exactly when it has a payment total and a census row abbreviated to it |
| Aggregation.MergeOneRowPerState | code/preprocessing.py:116-134 | with distinct census names, each state occurs at most once in the summary |
| Aggregation.DroppedStateKeepsDetails | code/preprocessing.py:134-141 | a state without a census row drops out of the summary but keeps its detail rows |
| Aggregation.TwoPaymentsPerHousehold | code/preprocessing.py:133-135 | payments of 100 and 900 in CA over 2 households give one row, total 1000, 500 per household |
| Aggregation.RunPreprocessing | code/preprocessing.py:44-141 | the run fails exactly when the census rows fail, with the same error; otherwise the summary is the merge of the cleaned state totals with the census rows and the detail is the cleaned detail table, all with positive amounts |
| Stats.Insert | app.py:135 | inserting into a sorted sequence keeps it sorted and adds exactly the new element |
| Stats.Sort | app.py:135 | the result is sorted and a permutation of the input |
| Stats.SortedUnique | app.py:135 | a sorted permutation is unique, so any correct sort gives the same sequence |
| Stats.SortEnds | app.py:93 | the first and last sorted values are the minimum and maximum of the input |
| Stats.Interpolate | app.py:93 | linear interpolation at a virtual index lies between the two neighbouring sorted values |
| Stats.Quantile | app.py:93 | the linear quantile lies between the minimum and the maximum |
| Stats.QuantileMonotone | app.py:93 | a higher probability never gives a lower quantile |
| Stats.QuantileWithinSample | app.py:93-94 | some value reaches the quantile, so the threshold filter keeps at least one row |
| Stats.CountsDisjoint | app.py:42 | the counts below and equal never exceed the sample size, and a member is counted as equal |
| Stats.CountsBelowLarger | app.py:42 | every value at or below x is strictly below a larger y |
| Stats.PercentileRank | app.py:42 | the average-tie percentile of a member lies in (0, 100] |
| Stats.PairsSymmetric | app.py:42 | the pairs "y below x" counted from either side agree, the symmetry behind the average rank |
| Stats.PercentileRankSum | app.py:42 | over a whole sample the percentile ranks add up to 50 × (n + 1), as they do for distinct values: ties take the average of the ranks they span, not the lowest or highest |
| Stats.PercentileStrictlyMonotone | app.py:42 | a strictly higher income has a strictly higher percentile |
| Stats.SumAtLeastBounds | app.py:106 | the values at or above a threshold sum to at least any one of them and at most the total |
| Stats.PeopleShareIncreasing | app.py:138 | the people share strictly increases and ends at 1 |
| Stats.MoneyShareMonotone | app.py:136-137 | the money share never decreases and ends at 1 |
| Stats.PrefixBelowAverage | app.py:135-136 | on sorted values, a prefix is at most its proportional part of the total |
| Stats.LorenzBelowEquality | app.py:136-140 | the money share never exceeds the people share: the curve stays on or below the equality line |
| Stats.LorenzShape | app.py:134-140 | for positive sorted amounts: positive total, people strictly increasing, money non-decreasing, both ending at 1, money at most people |
| Dashboard.FirstPresent | app.py:25 | the index of the first option present among the columns, or none when none is |
| Dashboard.IncomeColumn | app.py:24-29 | an income option present in the table before which no option is present, or none (the stop) exactly when no option is present |
| Dashboard.SummaryIncomeColumn | app.py:24-25 | the preprocessing run's own header selects `median_income` |
| Dashboard.Incomes | app.py:42 | the non-null incomes in row order, one per row that has one, so the rank divides by the count of non-null incomes |
| Dashboard.AnnotateStates | app.py:41-43 | one view per state with its FIPS code and name; a percentile exactly when the income is present, namely the percentile rank of that income among the non-null incomes, lying in (0, 100] |
| Dashboard.PercentilesFollowIncome | app.py:42 | equal incomes get equal percentiles; a strictly higher income a strictly higher one |
| Dashboard.FipsCodesDistinct | app.py:31-41 | coded states get codes in 1..56, distinct for distinct states |
| Dashboard.FinalStateList | app.py:78-84 | the selection order is kept, and a state is listed exactly when it is selected and its percentile lies in [lo, hi] |
| Dashboard.FilterDetails | app.py:86-89 | a subsequence of the detail rows, keeping exactly the rows with a selected specialty and a listed state |
| Dashboard.TopPercent | app.py:92-94 | identity at 100 % or on empty input; otherwise exactly the rows at or above the threshold, a non-empty subsequence |
| Dashboard.TopPercentMonotone | app.py:92-94 | a larger top percentage never keeps fewer rows |
| Dashboard.TopPercentTotalMonotone | app.py:92-101 | with positive amounts, a larger top percentage never gives a smaller total |
| Dashboard.SubsequenceTotal | app.py:101 | dropping rows of positive amount never raises the total |
| Dashboard.TopQuarterThreshold | app.py:93 | amounts 10, 20, 30, 40 at 25 % give the threshold 32.5 |
| Dashboard.TopQuarterExample | app.py:92-94 | amounts 10, 20, 30, 40 at 25 % keep only the row of 40 |
| Dashboard.TotalPositive | app.py:101 | positive amounts in a non-empty selection give a positive total |
| Dashboard.TopShareWithin | app.py:105-106 | the amounts at or above the 0.99 quantile sum to a positive value at most the total |
| Dashboard.TopOneShare | app.py:101-109 | the share is 0 for a non-positive total; with positive amounts it lies in (0, 1] and is 0 exactly for an empty selection |
| Dashboard.DetailRowsPositive | code/preprocessing.py:141 | rows listing the cleaned detail table all have positive amounts |
| Dashboard.FilteredRows | app.py:78-94 | the dashboard's rows are a subsequence of the detail rows and keep their positive amounts |
| Dashboard.CumulativeShares | app.py:136-138 | the loop fills the people column with i/n and the money column with the running sum over the total |
| Dashboard.LorenzCurve | app.py:134-140 | the Lorenz columns of the sorted amounts: people strictly increasing, money non-decreasing, both ending at 1, money at most people |
| Dashboard.RunDashboard | app.py:24-138 | stops exactly when no income column exists; otherwise the states, rows and metrics are the functions above, with the share 0 exactly for no rows, and the Lorenz columns when rows remain |

## Left out

- Network and file I/O: the download of the disclosure data, every CSV read and
  write, directory creation, path constants and progress messages. The run's inputs
  (payment records, census table) and outputs (summary, detail table) are values.
- The dashboard's caching, widgets, layout, metric formatting and charts (bar
  chart, map, TopoJSON lookup). The four filter values are parameters; the slider
  ranges are preconditions. Only the Lorenz coordinates are computed.
- Column lowercasing and renaming, and the transpose of the census table: records
  use field names directly, and the census table is a sequence of columns.
- The in-place column additions (`specialty_clean`, `payment_type_clean`, `state`,
  `fips_code`, `income_percentile`, `state_name`) are new record sequences built by
  pure functions, not updates of a shared table.
- The loop over the two census columns that converts them to numbers is a function
  applied per state row (`Cleaning.CensusRows`), not a loop rewriting columns.
- Numeric.ParseNumeric: accepts only an optional sign, decimal digits and one
  optional decimal point, not the full grammar of `pd.to_numeric` (exponents,
  "inf", "nan", surrounding spaces).
- Aggregation.Merge: rows come in census-column order, whereas pandas orders an
  inner join by the left keys; which rows appear, how many, and each row's values
  are stated.
- Aggregation.MergeOneRowPerState: proved for census tables whose state names are
  distinct; a census table repeating a column name is not modelled.
- Cleaning.CleanSpecialtyIdempotent: covers specialties that are present; a missing
  specialty becomes "Unknown", which is a present value from then on.
- Lookups.FipsCodeInjective: the direction "a string outside the table gets no
  code" holds by construction of the lookup and is not stated as a lemma.
- Dashboard.LorenzCurve: requires positive amounts (true of the detail rows the
  preprocessing run writes, see `Dashboard.DetailRowsPositive`); with zero or
  negative amounts the money share can divide by zero, which is not modelled.
- Dashboard.RunDashboard: requires the detail rows to have positive amounts, as
  the preprocessing run guarantees, for the same reason.
- Floating point: amounts, quantiles and shares are exact reals, so the Lorenz
  endpoints are exactly 1 rather than within rounding.
