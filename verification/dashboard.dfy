/** The dashboard's computations: the state table's FIPS codes and income
    percentiles, the state and specialty filters, the top-% focus, the headline
    metrics and the Lorenz-curve coordinates. */
module Dashboard {
  import opened Wrappers
  import Seqs
  import Stats
  import Lookups
  import Cleaning
  import Aggregation

  // ---------------------------------------------------------------- state table

  /** The candidate income columns, in the order they are tried. */
  const IncomeOptions: seq<string> := ["median_household_income", "median_income", "household_income"]

  /** The header of the state summary file the preprocessing run writes. */
  const SummaryColumns: seq<string> :=
    ["state", "payment_amount", "state_name", "median_income", "total_households", "state_abbr", "payment_per_household"]

  /** The position of the first option present among the columns. */
  function FirstPresent(options: seq<string>, columns: seq<string>): (r: Option<nat>)
    ensures r.Some? ==> r.value < |options| && options[r.value] in columns
    ensures r.Some? ==> forall i :: 0 <= i < r.value ==> options[i] !in columns
    ensures r.None? ==> forall i :: 0 <= i < |options| ==> options[i] !in columns
  {
    if options == [] then None
    else if options[0] in columns then Some(0)
    else match FirstPresent(options[1..], columns)
      case None => None
      case Some(i) => Some(i + 1)
  }

  /** The income column to rank by, or `None`, on which the dashboard stops with
      an error. */
  function IncomeColumn(columns: seq<string>): (r: Option<string>)
    ensures r.Some? ==> r.value in columns && r.value in IncomeOptions
    ensures r.None? <==> forall i :: 0 <= i < |IncomeOptions| ==> IncomeOptions[i] !in columns
    ensures r.Some? && r.value != IncomeOptions[0] ==> IncomeOptions[0] !in columns
    ensures r.Some? ==> exists i :: 0 <= i < |IncomeOptions| && r.value == IncomeOptions[i] &&
                                     (forall j :: 0 <= j < i ==> IncomeOptions[j] !in columns)
  {
    match FirstPresent(IncomeOptions, columns)
    case None => None
    case Some(i) => Some(IncomeOptions[i])
  }

  /** The summary file's own header selects its `median_income` column. */
  lemma SummaryIncomeColumn()
    ensures IncomeColumn(SummaryColumns) == Some("median_income")
  {
    assert IncomeOptions[0] !in SummaryColumns;
    assert IncomeOptions[1] == SummaryColumns[3];
  }

  /** One row of the state table as the dashboard reads it: the state and its
      numeric cells; a missing key is an empty (NaN) cell. */
  datatype StateEntry = StateEntry(state: string, numbers: map<string, real>)

  function CellValue(e: StateEntry, column: string): Option<real> {
    if column in e.numbers then Some(e.numbers[column]) else None
  }

  /** A state row with the columns the dashboard adds. */
  datatype StateView = StateView(state: string, fipsCode: Option<int>, incomePercentile: Option<real>, stateName: string)

  /** Whether a row has a value in `column`, as the predicate of a filter. */
  function HasCell(column: string): StateEntry -> bool {
    e => CellValue(e, column).Some?
  }

  /** The non-empty income cells, in row order: one value per row that has one,
      so `|r|` is the count of non-null incomes that the percentile divides by. */
  function Incomes(entries: seq<StateEntry>, column: string): (r: seq<real>)
    ensures |r| <= |entries|
    ensures forall i :: 0 <= i < |entries| && CellValue(entries[i], column).Some? ==> CellValue(entries[i], column).value in r
    ensures var present := Seqs.Filter(entries, HasCell(column));
      |r| == |present| && forall i :: 0 <= i < |r| ==> CellValue(present[i], column) == Some(r[i])
  {
    if entries == [] then []
    else
      var rest := Incomes(entries[1..], column);
      assert forall i :: 1 <= i < |entries| ==> entries[i] == entries[1..][i - 1];
      IncomesStep(entries, column, rest);
      match CellValue(entries[0], column)
      case None => rest
      case Some(x) => [x] + rest
  }

  /** One row more: the income list of the tail extends to that of the whole. */
  lemma IncomesStep(entries: seq<StateEntry>, column: string, rest: seq<real>)
    requires entries != []
    requires var present := Seqs.Filter(entries[1..], HasCell(column));
      |rest| == |present| && forall i :: 0 <= i < |rest| ==> CellValue(present[i], column) == Some(rest[i])
    ensures var r := if CellValue(entries[0], column).Some? then [CellValue(entries[0], column).value] + rest else rest;
      var present := Seqs.Filter(entries, HasCell(column));
      |r| == |present| && forall i :: 0 <= i < |r| ==> CellValue(present[i], column) == Some(r[i])
  {
    assert HasCell(column)(entries[0]) == CellValue(entries[0], column).Some?;
  }

  function Percentile(entries: seq<StateEntry>, column: string, e: StateEntry): Option<real>
    requires e in entries
  {
    match CellValue(e, column)
    case None => None
    case Some(x) => Some(Stats.PercentileRank(Incomes(entries, column), x))
  }

  /** The state table with `fips_code`, `income_percentile` and `state_name` added. */
  function AnnotateStates(entries: seq<StateEntry>, column: string): (views: seq<StateView>)
    ensures |views| == |entries|
    ensures forall i :: 0 <= i < |entries| ==>
      && views[i].state == entries[i].state
      && views[i].stateName == entries[i].state
      && views[i].fipsCode == Lookups.FipsCode(entries[i].state)
      && (views[i].incomePercentile.Some? <==> CellValue(entries[i], column).Some?)
    ensures forall i :: 0 <= i < |entries| && views[i].incomePercentile.Some? ==>
      0.0 < views[i].incomePercentile.value <= 100.0
    ensures forall i :: 0 <= i < |entries| && CellValue(entries[i], column).Some? ==>
      views[i].incomePercentile == Some(Stats.PercentileRank(Incomes(entries, column), CellValue(entries[i], column).value))
  {
    seq(|entries|, i requires 0 <= i < |entries| =>
      StateView(entries[i].state, Lookups.FipsCode(entries[i].state), Percentile(entries, column, entries[i]), entries[i].state))
  }

  /** Percentiles follow incomes: equal incomes share a percentile and a strictly
      higher income has a strictly higher one. */
  lemma PercentilesFollowIncome(entries: seq<StateEntry>, column: string, i: nat, j: nat)
    requires i < |entries| && j < |entries|
    requires CellValue(entries[i], column).Some? && CellValue(entries[j], column).Some?
    ensures var views := AnnotateStates(entries, column);
      var x, y := CellValue(entries[i], column).value, CellValue(entries[j], column).value;
      && (x == y ==> views[i].incomePercentile == views[j].incomePercentile)
      && (x < y ==> views[i].incomePercentile.value < views[j].incomePercentile.value)
  {
    var x, y := CellValue(entries[i], column).value, CellValue(entries[j], column).value;
    if x < y {
      Stats.PercentileStrictlyMonotone(Incomes(entries, column), x, y);
    }
  }

  /** Distinct states in the FIPS table get distinct codes between 1 and 56. */
  lemma FipsCodesDistinct(entries: seq<StateEntry>, column: string, i: nat, j: nat)
    requires i < |entries| && j < |entries|
    requires AnnotateStates(entries, column)[i].fipsCode.Some? && AnnotateStates(entries, column)[j].fipsCode.Some?
    ensures var views := AnnotateStates(entries, column);
      && 1 <= views[i].fipsCode.value <= 56
      && (entries[i].state != entries[j].state ==> views[i].fipsCode != views[j].fipsCode)
  {
    Lookups.FipsCodeInjective(entries[i].state, entries[j].state);
  }

  // ---------------------------------------------------------------- filters

  /** The income-percentile slider keeps a state whose percentile lies in
      [lo, hi]; an empty percentile never compares true. */
  predicate Eligible(v: StateView, lo: real, hi: real) {
    v.incomePercentile.Some? && lo <= v.incomePercentile.value <= hi
  }

  predicate WealthEligible(views: seq<StateView>, s: string, lo: real, hi: real) {
    exists i :: 0 <= i < |views| && views[i].state == s && Eligible(views[i], lo, hi)
  }

  /** The selected states that are also eligible, in selection order. */
  function FinalStateList(selected: seq<string>, views: seq<StateView>, lo: real, hi: real): (r: seq<string>)
    ensures Seqs.IsSubsequence(r, selected)
    ensures forall s :: s in r <==> s in selected && WealthEligible(views, s, lo, hi)
  {
    Seqs.Filter(selected, s => WealthEligible(views, s, lo, hi))
  }

  /** One row of the detail table. */
  datatype DetailRow = DetailRow(state: string, specialty: string, paymentType: string, amount: real)

  function KeyOf(r: DetailRow): Aggregation.DetailKey {
    Aggregation.DetailKey(r.state, r.specialty, r.paymentType)
  }

  /** The detail rows whose specialty is selected and whose state is in the final list. */
  function FilterDetails(details: seq<DetailRow>, specialties: seq<string>, states: seq<string>): (r: seq<DetailRow>)
    ensures Seqs.IsSubsequence(r, details)
    ensures forall i :: 0 <= i < |r| ==> r[i].specialty in specialties && r[i].state in states
    ensures forall i :: 0 <= i < |details| && details[i].specialty in specialties && details[i].state in states ==>
      details[i] in r
  {
    Seqs.Filter(details, (d: DetailRow) => d.specialty in specialties && d.state in states)
  }

  function Amounts(rows: seq<DetailRow>): (r: seq<real>)
    ensures |r| == |rows| && forall i :: 0 <= i < |rows| ==> r[i] == rows[i].amount
  {
    seq(|rows|, i requires 0 <= i < |rows| => rows[i].amount)
  }

  predicate PositiveAmounts(rows: seq<DetailRow>) {
    forall i :: 0 <= i < |rows| ==> rows[i].amount > 0.0
  }

  /** The amount threshold of the top-% focus: the quantile at 1 - topPercent/100. */
  function TopThreshold(rows: seq<DetailRow>, topPercent: real): real
    requires rows != [] && 0.0 <= topPercent <= 100.0
  {
    Stats.Quantile(Amounts(rows), 1.0 - topPercent / 100.0)
  }

  /** The top-% focus: below 100 % and on a non-empty table it keeps the rows at
      or above the threshold; otherwise the rows are unchanged. */
  function TopPercent(rows: seq<DetailRow>, topPercent: real): (r: seq<DetailRow>)
    requires 1.0 <= topPercent <= 100.0
    ensures topPercent >= 100.0 || rows == [] ==> r == rows
    ensures Seqs.IsSubsequence(r, rows)
    ensures rows != [] ==> r != []
    ensures topPercent < 100.0 && rows != [] ==>
      forall i :: 0 <= i < |rows| ==> (rows[i] in r <== rows[i].amount >= TopThreshold(rows, topPercent))
    ensures topPercent < 100.0 && rows != [] ==>
      forall i :: 0 <= i < |r| ==> r[i].amount >= TopThreshold(rows, topPercent)
  {
    if topPercent < 100.0 && |rows| > 0 then
      var threshold := TopThreshold(rows, topPercent);
      var r := Seqs.Filter(rows, (d: DetailRow) => d.amount >= threshold);
      assert r != [] by {
        Stats.QuantileWithinSample(Amounts(rows), 1.0 - topPercent / 100.0);
        var i :| 0 <= i < |rows| && Amounts(rows)[i] >= threshold;
        assert rows[i] in r;
      }
      r
    else
      Seqs.SubsequenceReflexive(rows);
      rows
  }

  /** Widening the focus never keeps fewer rows: the result for the smaller
      percentage is a subsequence of the result for the larger one. */
  lemma TopPercentMonotone(rows: seq<DetailRow>, p1: real, p2: real)
    requires 1.0 <= p1 <= p2 <= 100.0
    ensures Seqs.IsSubsequence(TopPercent(rows, p1), TopPercent(rows, p2))
    ensures |TopPercent(rows, p1)| <= |TopPercent(rows, p2)|
  {
    if rows != [] && p1 < 100.0 {
      var t1 := TopThreshold(rows, p1);
      if p2 < 100.0 {
        var t2 := TopThreshold(rows, p2);
        assert t2 <= t1 by {
          Stats.QuantileMonotone(Amounts(rows), 1.0 - p2 / 100.0, 1.0 - p1 / 100.0);
        }
        Seqs.FilterMonotone(rows, (d: DetailRow) => d.amount >= t1, (d: DetailRow) => d.amount >= t2);
      }
      Seqs.SubsequenceLength(TopPercent(rows, p1), TopPercent(rows, p2));
    } else if rows != [] {
      Seqs.SubsequenceReflexive(rows);
    }
  }

  /** Widening the focus never lowers the total either, as the amounts are positive. */
  lemma TopPercentTotalMonotone(rows: seq<DetailRow>, p1: real, p2: real)
    requires PositiveAmounts(rows) && 1.0 <= p1 <= p2 <= 100.0
    ensures TotalPayments(TopPercent(rows, p1)) <= TotalPayments(TopPercent(rows, p2))
  {
    TopPercentMonotone(rows, p1, p2);
    SubsequencePositive(TopPercent(rows, p2), rows);
    SubsequenceTotal(TopPercent(rows, p1), TopPercent(rows, p2));
  }

  /** The total splits off the first row. */
  lemma TotalCons(rows: seq<DetailRow>)
    requires rows != []
    ensures TotalPayments(rows) == rows[0].amount + TotalPayments(rows[1..])
  {
    assert Amounts(rows) == [rows[0].amount] + Amounts(rows[1..]);
    Stats.SumCons(rows[0].amount, Amounts(rows[1..]));
  }

  /** Dropping rows of positive amount never raises the total. */
  lemma {:induction false} SubsequenceTotal(a: seq<DetailRow>, b: seq<DetailRow>)
    requires Seqs.IsSubsequence(a, b) && PositiveAmounts(b)
    ensures TotalPayments(a) <= TotalPayments(b)
    decreases |b|
  {
    if a == [] {
      TotalPositive(b);
      assert TotalPayments(a) == 0.0;
    } else {
      TotalCons(a);
      TotalCons(b);
      if a[0] == b[0] && Seqs.IsSubsequence(a[1..], b[1..]) {
        SubsequenceTotal(a[1..], b[1..]);
      } else {
        SubsequenceTotal(a, b[1..]);
      }
    }
  }

  function Row(amount: real): DetailRow {
    DetailRow("CA", "Cardiology", "Consulting", amount)
  }

  /** Amounts 10, 20, 30 and 40 with a 25 % focus: the threshold is the 0.75
      quantile, at virtual index 2.25, which is 30 + 0.25 * (40 - 30) = 32.5. */
  lemma TopQuarterThreshold(rows: seq<DetailRow>)
    requires rows == [Row(10.0), Row(20.0), Row(30.0), Row(40.0)]
    ensures TopThreshold(rows, 25.0) == 32.5
  {
    var v := Amounts(rows);
    assert v == [10.0, 20.0, 30.0, 40.0];
    QuantileOfSorted(v, 0.75);
    InterpolateQuarter(v);
  }

  lemma InterpolateQuarter(v: seq<real>)
    requires v == [10.0, 20.0, 30.0, 40.0]
    ensures Stats.Interpolate(v, Stats.VirtualIndex(4, 0.75)) == 32.5
  {
    assert Stats.VirtualIndex(4, 0.75) == 2.25;
    assert (2.25).Floor == 2;
  }

  lemma QuantileOfSorted(v: seq<real>, q: real)
    requires Stats.Sorted(v) && |v| > 0 && 0.0 <= q <= 1.0
    ensures Stats.Quantile(v, q) == Stats.Interpolate(v, Stats.VirtualIndex(|v|, q))
  {
    Stats.SortSorted(v);
  }

  /** ... so only the row of 40 remains. */
  lemma TopQuarterExample(rows: seq<DetailRow>)
    requires rows == [Row(10.0), Row(20.0), Row(30.0), Row(40.0)]
    ensures TopPercent(rows, 25.0) == [Row(40.0)]
  {
    TopQuarterThreshold(rows);
    var p := (d: DetailRow) => d.amount >= 32.5;
    assert Seqs.Filter(rows, p) == [Row(40.0)] by {
      assert rows[1..][1..][1..] == [Row(40.0)];
      assert Seqs.Filter([Row(40.0)], p) == [Row(40.0)];
      assert Seqs.Filter(rows[1..][1..], p) == [Row(40.0)];
      assert Seqs.Filter(rows[1..], p) == [Row(40.0)];
    }
  }

  // ---------------------------------------------------------------- metrics

  function TotalPayments(rows: seq<DetailRow>): real {
    Stats.Sum(Amounts(rows))
  }

  lemma {:induction false} PrefixPositive(s: seq<real>, k: nat)
    requires k <= |s| && forall i :: 0 <= i < |s| ==> s[i] > 0.0
    ensures k > 0 ==> Stats.Prefix(s, k) > 0.0
    ensures Stats.Prefix(s, k) >= 0.0
  {
    if k > 0 {
      PrefixPositive(s, k - 1);
    }
  }

  /** With positive amounts the total of a non-empty table is positive. */
  lemma TotalPositive(rows: seq<DetailRow>)
    ensures PositiveAmounts(rows) && rows != [] ==> TotalPayments(rows) > 0.0
  {
    if PositiveAmounts(rows) {
      PrefixPositive(Amounts(rows), |rows|);
    }
  }

  /** With positive amounts the rows at or above the 0.99 quantile hold a positive
      part of the total, and no more than all of it. */
  lemma TopShareWithin(amounts: seq<real>)
    requires amounts != [] && forall i :: 0 <= i < |amounts| ==> amounts[i] > 0.0
    ensures 0.0 < Stats.SumAtLeast(amounts, Stats.Quantile(amounts, 0.99)) <= Stats.Sum(amounts)
  {
    var threshold := Stats.Quantile(amounts, 0.99);
    Stats.QuantileWithinSample(amounts, 0.99);
    var i :| 0 <= i < |amounts| && amounts[i] >= threshold;
    Stats.SumAtLeastBounds(amounts, threshold, i);
  }

  /** The share of the total held by the rows at or above the 0.99 quantile, or 0
      when the total is not positive. */
  function TopOneShare(rows: seq<DetailRow>): (share: real)
    ensures TotalPayments(rows) <= 0.0 ==> share == 0.0
    ensures PositiveAmounts(rows) && rows != [] ==> 0.0 < share <= 1.0
    ensures PositiveAmounts(rows) ==> (share == 0.0 <==> rows == [])
  {
    var amounts := Amounts(rows);
    var total := Stats.Sum(amounts);
    TotalPositive(rows);
    if total > 0.0 then
      assert rows != [];
      var top := Stats.SumAtLeast(amounts, Stats.Quantile(amounts, 0.99));
      assert PositiveAmounts(rows) ==> 0.0 < top / total <= 1.0 by {
        if PositiveAmounts(rows) {
          TopShareWithin(amounts);
          Stats.ShareWithin(top, total);
        }
      }
      top / total
    else
      0.0
  }

  /** Rows listing the detail table of cleaned payments carry positive amounts. */
  lemma DetailRowsPositive(ps: seq<Cleaning.Payment>, rows: seq<DetailRow>)
    requires forall i :: 0 <= i < |ps| ==> ps[i].amount > 0.0
    requires forall i :: 0 <= i < |rows| ==>
      KeyOf(rows[i]) in Aggregation.DetailTotals(ps) && rows[i].amount == Aggregation.DetailTotals(ps)[KeyOf(rows[i])]
    ensures PositiveAmounts(rows)
  {
    forall i | 0 <= i < |rows| ensures rows[i].amount > 0.0 {
      Aggregation.DetailSumPositive(ps, KeyOf(rows[i]));
    }
  }

  /** Every row kept by an order-preserving selection keeps its positive amount. */
  lemma SubsequencePositive(r: seq<DetailRow>, rows: seq<DetailRow>)
    requires Seqs.IsSubsequence(r, rows) && PositiveAmounts(rows)
    ensures PositiveAmounts(r)
  {
    Seqs.SubsequenceMembers(r, rows);
    forall i | 0 <= i < |r| ensures r[i].amount > 0.0 {
      assert r[i] in rows;
    }
  }

  // ---------------------------------------------------------------- Lorenz curve

  lemma SortKeepsPositive(s: seq<real>)
    requires forall i :: 0 <= i < |s| ==> s[i] > 0.0
    ensures forall i :: 0 <= i < |s| ==> Stats.Sort(s)[i] > 0.0
  {
    var v := Stats.Sort(s);
    forall i | 0 <= i < |s| ensures v[i] > 0.0 {
      assert v[i] in multiset(s);
    }
  }

  /** The Lorenz-curve columns of a non-empty table: rows sorted by amount, the
      running share of recipients and the running share of money. */
  method LorenzCurve(rows: seq<DetailRow>) returns (people: array<real>, money: array<real>)
    requires rows != [] && PositiveAmounts(rows)
    ensures fresh(people) && fresh(money)
    ensures people.Length == |rows| && money.Length == |rows|
    ensures Stats.Sum(Stats.Sort(Amounts(rows))) > 0.0
    ensures forall i :: 0 <= i < |rows| ==> people[i] == Stats.PeopleShare(|rows|, i + 1)
    ensures forall i :: 0 <= i < |rows| ==> money[i] == Stats.MoneyShare(Stats.Sort(Amounts(rows)), i + 1)
    ensures forall i, j :: 0 <= i < j < |rows| ==> people[i] < people[j] && money[i] <= money[j]
    ensures people[|rows| - 1] == 1.0 && money[|rows| - 1] == 1.0
    ensures forall i :: 0 <= i < |rows| ==> money[i] <= people[i]
  {
    var v := Stats.Sort(Amounts(rows));
    SortKeepsPositive(Amounts(rows));
    Stats.LorenzShape(v);
    people, money := CumulativeShares(v);
  }

  /** The running recipient and money shares of the values in their given order:
      a cumulative sum divided by the total. */
  method CumulativeShares(v: seq<real>) returns (people: array<real>, money: array<real>)
    requires v != [] && Stats.Sum(v) != 0.0
    ensures fresh(people) && fresh(money)
    ensures people.Length == |v| && money.Length == |v|
    ensures forall i :: 0 <= i < |v| ==> people[i] == Stats.PeopleShare(|v|, i + 1)
    ensures forall i :: 0 <= i < |v| ==> money[i] == Stats.MoneyShare(v, i + 1)
  {
    var n := |v|;
    var total := Stats.Sum(v);
    people := new real[n];
    money := new real[n];
    var cumulative := 0.0;
    for i := 0 to n
      invariant cumulative == Stats.Prefix(v, i)
      invariant forall j :: 0 <= j < i ==> people[j] == Stats.PeopleShare(n, j + 1)
      invariant forall j :: 0 <= j < i ==> money[j] == Stats.MoneyShare(v, j + 1)
    {
      cumulative := cumulative + v[i];
      money[i] := cumulative / total;
      people[i] := (i + 1) as real / n as real;
    }
  }

  // ---------------------------------------------------------------- the page

  datatype DashboardError = IncomeColumnNotFound(available: seq<string>)

  /** The three headline figures: total, top-1 % share and number of rows. */
  datatype Metrics = Metrics(totalPayments: real, topOneShare: real, count: nat)

  datatype Report = Report(states: seq<StateView>, filtered: seq<DetailRow>, metrics: Metrics)

  /** The rows left by the state, specialty and top-% filters. */
  function FilteredRows(details: seq<DetailRow>, views: seq<StateView>, selectedStates: seq<string>,
                        selectedSpecialties: seq<string>, lo: real, hi: real, topPercent: real): (r: seq<DetailRow>)
    requires 1.0 <= topPercent <= 100.0
    ensures Seqs.IsSubsequence(r, details)
    ensures PositiveAmounts(details) ==> PositiveAmounts(r)
  {
    var narrowed := FilterDetails(details, selectedSpecialties, FinalStateList(selectedStates, views, lo, hi));
    var r := TopPercent(narrowed, topPercent);
    Seqs.SubsequenceTransitive(r, narrowed, details);
    if PositiveAmounts(details) then
      SubsequencePositive(r, details);
      r
    else
      r
  }

  /** The dashboard's computations for one setting of its controls: the income
      range [lo, hi], the top-% focus and the two multiselects. */
  method RunDashboard(columns: seq<string>, entries: seq<StateEntry>, details: seq<DetailRow>,
                      selectedStates: seq<string>, selectedSpecialties: seq<string>,
                      lo: real, hi: real, topPercent: real)
    returns (r: Result<Report, DashboardError>, people: array<real>, money: array<real>)
    requires 0.0 <= lo <= hi <= 100.0 && 1.0 <= topPercent <= 100.0
    requires PositiveAmounts(details)
    ensures r.Failure? <==> IncomeColumn(columns).None?
    ensures r.Failure? ==> r.error == IncomeColumnNotFound(columns)
    ensures r.Success? ==> r.value.states == AnnotateStates(entries, IncomeColumn(columns).value)
    ensures r.Success? ==>
      r.value.filtered == FilteredRows(details, r.value.states, selectedStates, selectedSpecialties, lo, hi, topPercent)
    ensures r.Success? ==>
      r.value.metrics == Metrics(TotalPayments(r.value.filtered), TopOneShare(r.value.filtered), |r.value.filtered|)
    ensures r.Success? ==> (r.value.filtered == [] <==> r.value.metrics.topOneShare == 0.0)
    ensures r.Success? ==> 0.0 <= r.value.metrics.topOneShare <= 1.0
    ensures fresh(people) && fresh(money)
    ensures r.Success? ==> people.Length == money.Length == |r.value.filtered|
    ensures r.Success? && r.value.filtered != [] ==> Stats.Sum(Stats.Sort(Amounts(r.value.filtered))) > 0.0
    ensures r.Success? && r.value.filtered != [] ==> forall i :: 0 <= i < |r.value.filtered| ==>
      && people[i] == Stats.PeopleShare(|r.value.filtered|, i + 1)
      && money[i] == Stats.MoneyShare(Stats.Sort(Amounts(r.value.filtered)), i + 1)
  {
    var column := IncomeColumn(columns);
    if column.None? {
      people, money := new real[0], new real[0];
      return Failure(IncomeColumnNotFound(columns)), people, money;
    }
    var states := AnnotateStates(entries, column.value);
    var filtered := FilteredRows(details, states, selectedStates, selectedSpecialties, lo, hi, topPercent);
    var metrics := Metrics(TotalPayments(filtered), TopOneShare(filtered), |filtered|);
    if |filtered| > 0 {
      people, money := LorenzCurve(filtered);
    } else {
      people, money := new real[0], new real[0];
    }
    r := Success(Report(states, filtered, metrics));
  }
}
