/** The merge and aggregation steps of the preprocessing run: payment totals per
    state and per (state, specialty, payment category), the inner join of the state
    totals with the census rows, and the payment per household. */
module Aggregation {
  import opened Wrappers
  import Seqs
  import Lookups
  import opened Cleaning

  // ---------------------------------------------------------------- sums

  /** The group key of the detail table. */
  datatype DetailKey = DetailKey(state: string, specialty: string, paymentType: string)

  function KeyOf(p: Payment): DetailKey {
    DetailKey(p.state, p.specialtyClean, p.paymentTypeClean)
  }

  /** A state selection: every state (`None`) or a single one. */
  predicate InScope(state: string, scope: Option<string>) {
    scope.None? || state == scope.value
  }

  /** The summed amount of the payments whose state is in scope. */
  function AmountIn(ps: seq<Payment>, scope: Option<string>): real {
    if ps == [] then 0.0
    else AmountIn(ps[..|ps| - 1], scope) + (if InScope(ps[|ps| - 1].state, scope) then ps[|ps| - 1].amount else 0.0)
  }

  /** The summed amount of all payments. */
  function Total(ps: seq<Payment>): real {
    AmountIn(ps, None)
  }

  /** The summed amount of the payments of one state. */
  function StateSum(ps: seq<Payment>, s: string): real {
    AmountIn(ps, Some(s))
  }

  /** The summed amount of the payments of one detail group. */
  function DetailSum(ps: seq<Payment>, k: DetailKey): real {
    if ps == [] then 0.0
    else DetailSum(ps[..|ps| - 1], k) + (if KeyOf(ps[|ps| - 1]) == k then ps[|ps| - 1].amount else 0.0)
  }

  function States(ps: seq<Payment>): set<string> {
    set i | 0 <= i < |ps| :: ps[i].state
  }

  function DetailKeys(ps: seq<Payment>): set<DetailKey> {
    set i | 0 <= i < |ps| :: KeyOf(ps[i])
  }

  /** The group-by-state table: one entry per state that occurs. */
  function StateTotals(ps: seq<Payment>): map<string, real> {
    map s | s in States(ps) :: StateSum(ps, s)
  }

  /** The group-by-(state, specialty, category) table: one entry per occurring key. */
  function DetailTotals(ps: seq<Payment>): map<DetailKey, real> {
    map k | k in DetailKeys(ps) :: DetailSum(ps, k)
  }

  lemma {:induction false} StateSumAbsent(ps: seq<Payment>, s: string)
    requires s !in States(ps)
    ensures StateSum(ps, s) == 0.0
  {
    if ps != [] {
      var init := ps[..|ps| - 1];
      assert States(init) <= States(ps) by {
        forall t | t in States(init) ensures t in States(ps) {
          var i :| 0 <= i < |init| && init[i].state == t;
          assert ps[i] == init[i];
        }
      }
      StateSumAbsent(init, s);
    }
  }

  lemma {:induction false} DetailSumAbsent(ps: seq<Payment>, k: DetailKey)
    requires k !in DetailKeys(ps)
    ensures DetailSum(ps, k) == 0.0
  {
    if ps != [] {
      var init := ps[..|ps| - 1];
      assert DetailKeys(init) <= DetailKeys(ps) by {
        forall t | t in DetailKeys(init) ensures t in DetailKeys(ps) {
          var i :| 0 <= i < |init| && KeyOf(init[i]) == t;
          assert ps[i] == init[i];
        }
      }
      DetailSumAbsent(init, k);
    }
  }

  /** Extending the scanned prefix by one payment adds its state to the seen
      states and its amount to its own state's sum. */
  lemma StateStep(ps: seq<Payment>, i: nat)
    requires i < |ps|
    ensures States(ps[..i + 1]) == States(ps[..i]) + {ps[i].state}
    ensures forall s :: StateSum(ps[..i + 1], s) == StateSum(ps[..i], s) + (if ps[i].state == s then ps[i].amount else 0.0)
  {
    assert ps[..i + 1][..i] == ps[..i];
    assert forall j :: 0 <= j < i ==> ps[..i + 1][j] == ps[..i][j];
    assert ps[..i + 1][i] == ps[i];
  }

  /** The same for the detail keys and sums. */
  lemma DetailStep(ps: seq<Payment>, i: nat)
    requires i < |ps|
    ensures DetailKeys(ps[..i + 1]) == DetailKeys(ps[..i]) + {KeyOf(ps[i])}
    ensures forall k :: DetailSum(ps[..i + 1], k) == DetailSum(ps[..i], k) + (if KeyOf(ps[i]) == k then ps[i].amount else 0.0)
  {
    assert ps[..i + 1][..i] == ps[..i];
    assert forall j :: 0 <= j < i ==> ps[..i + 1][j] == ps[..i][j];
    assert ps[..i + 1][i] == ps[i];
  }

  /** `payments_df.groupby('state')['payment_amount'].sum()`, one pass over the rows. */
  method GroupByState(ps: seq<Payment>) returns (totals: map<string, real>)
    ensures totals == StateTotals(ps)
  {
    totals := map[];
    for i := 0 to |ps|
      invariant totals.Keys == States(ps[..i])
      invariant forall s :: s in totals ==> totals[s] == StateSum(ps[..i], s)
    {
      var p := ps[i];
      StateStep(ps, i);
      if p.state in totals {
        totals := totals[p.state := totals[p.state] + p.amount];
      } else {
        StateSumAbsent(ps[..i], p.state);
        totals := totals[p.state := p.amount];
      }
    }
    assert ps[..|ps|] == ps;
  }

  /** `payments_df.groupby(['state', 'specialty_clean', 'payment_type_clean'])['payment_amount'].sum()`. */
  method GroupByDetail(ps: seq<Payment>) returns (detail: map<DetailKey, real>)
    ensures detail == DetailTotals(ps)
  {
    detail := map[];
    for i := 0 to |ps|
      invariant detail.Keys == DetailKeys(ps[..i])
      invariant forall k :: k in detail ==> detail[k] == DetailSum(ps[..i], k)
    {
      var k := KeyOf(ps[i]);
      DetailStep(ps, i);
      if k in detail {
        detail := detail[k := detail[k] + ps[i].amount];
      } else {
        DetailSumAbsent(ps[..i], k);
        detail := detail[k := ps[i].amount];
      }
    }
    assert ps[..|ps|] == ps;
  }

  // ---------------------------------------------------------------- partition

  /** The sum of the state table over a list of its keys. */
  function StateTableSum(m: map<string, real>, ss: seq<string>): real
    requires forall j :: 0 <= j < |ss| ==> ss[j] in m
  {
    if ss == [] then 0.0 else StateTableSum(m, ss[..|ss| - 1]) + m[ss[|ss| - 1]]
  }

  /** The sum of the detail table over those of the listed keys whose state is in scope. */
  function DetailTableSum(m: map<DetailKey, real>, ks: seq<DetailKey>, scope: Option<string>): real
    requires forall j :: 0 <= j < |ks| ==> ks[j] in m
  {
    if ks == [] then 0.0
    else DetailTableSum(m, ks[..|ks| - 1], scope) + (if InScope(ks[|ks| - 1].state, scope) then m[ks[|ks| - 1]] else 0.0)
  }

  /** The per-state sums over a list of states, taken from the payments directly. */
  function StateSums(ps: seq<Payment>, ss: seq<string>): real {
    if ss == [] then 0.0 else StateSums(ps, ss[..|ss| - 1]) + StateSum(ps, ss[|ss| - 1])
  }

  /** The per-group sums over a list of keys whose state is in scope. */
  function DetailSums(ps: seq<Payment>, ks: seq<DetailKey>, scope: Option<string>): real {
    if ks == [] then 0.0
    else DetailSums(ps, ks[..|ks| - 1], scope) + (if InScope(ks[|ks| - 1].state, scope) then DetailSum(ps, ks[|ks| - 1]) else 0.0)
  }

  /** Appending one payment adds its amount to the sum of its own state, if listed. */
  lemma {:induction false} StateSumsSnoc(ps: seq<Payment>, x: Payment, ss: seq<string>)
    requires Seqs.Distinct(ss)
    ensures StateSums(ps + [x], ss) == StateSums(ps, ss) + (if x.state in ss then x.amount else 0.0)
  {
    if ss != [] {
      var init := ss[..|ss| - 1];
      assert (ps + [x])[..|ps|] == ps;
      StateSumsSnoc(ps, x, init);
      assert x.state in ss <==> x.state in init || x.state == ss[|ss| - 1];
      assert x.state in init ==> x.state != ss[|ss| - 1];
    }
  }

  /** Appending one payment adds its amount to the sum of its own group, if listed. */
  lemma {:induction false} DetailSumsSnoc(ps: seq<Payment>, x: Payment, ks: seq<DetailKey>, scope: Option<string>)
    requires Seqs.Distinct(ks)
    ensures DetailSums(ps + [x], ks, scope) ==
      DetailSums(ps, ks, scope) + (if KeyOf(x) in ks && InScope(x.state, scope) then x.amount else 0.0)
  {
    if ks != [] {
      var init := ks[..|ks| - 1];
      assert (ps + [x])[..|ps|] == ps;
      DetailSumsSnoc(ps, x, init, scope);
      assert KeyOf(x) in ks <==> KeyOf(x) in init || KeyOf(x) == ks[|ks| - 1];
      assert KeyOf(x) in init ==> KeyOf(x) != ks[|ks| - 1];
    }
  }

  /** The state sums over any duplicate-free list of states covering every payment
      add up to the overall total. */
  lemma {:induction false} StatePartition(ps: seq<Payment>, ss: seq<string>)
    requires Seqs.Distinct(ss)
    requires forall i :: 0 <= i < |ps| ==> ps[i].state in ss
    ensures StateSums(ps, ss) == Total(ps)
  {
    if ps == [] {
      StateSumsZero(ss);
    } else {
      var init, x := ps[..|ps| - 1], ps[|ps| - 1];
      assert ps == init + [x];
      StatePartition(init, ss);
      StateSumsSnoc(init, x, ss);
    }
  }

  /** The group sums over any duplicate-free list of keys covering every payment add
      up to the payments in scope: all of them, or those of one state. */
  lemma {:induction false} DetailPartition(ps: seq<Payment>, ks: seq<DetailKey>, scope: Option<string>)
    requires Seqs.Distinct(ks)
    requires forall i :: 0 <= i < |ps| ==> KeyOf(ps[i]) in ks
    ensures DetailSums(ps, ks, scope) == AmountIn(ps, scope)
  {
    if ps == [] {
      DetailSumsZero(ks, scope);
    } else {
      var init, x := ps[..|ps| - 1], ps[|ps| - 1];
      assert ps == init + [x];
      DetailPartition(init, ks, scope);
      DetailSumsSnoc(init, x, ks, scope);
    }
  }

  lemma {:induction false} StateSumsZero(ss: seq<string>)
    ensures StateSums([], ss) == 0.0
  {
    if ss != [] {
      StateSumsZero(ss[..|ss| - 1]);
    }
  }

  lemma {:induction false} DetailSumsZero(ks: seq<DetailKey>, scope: Option<string>)
    ensures DetailSums([], ks, scope) == 0.0
  {
    if ks != [] {
      DetailSumsZero(ks[..|ks| - 1], scope);
    }
  }

  /** Summing the state table over its keys, each listed once, gives the overall
      total of the cleaned payments. */
  lemma StateTotalsAddUp(ps: seq<Payment>, ss: seq<string>)
    requires Seqs.Distinct(ss)
    requires forall s :: s in ss <==> s in StateTotals(ps)
    ensures StateTableSum(StateTotals(ps), ss) == Total(ps)
  {
    forall i | 0 <= i < |ps| ensures ps[i].state in ss {
      assert ps[i].state in States(ps);
    }
    StatePartition(ps, ss);
    StateTableSumIsStateSums(ps, ss);
  }

  /** Summing the detail table over its keys, each listed once, gives the overall
      total; summing only the keys of one state gives that state's total. */
  lemma DetailTotalsAddUp(ps: seq<Payment>, ks: seq<DetailKey>, s: string)
    requires Seqs.Distinct(ks)
    requires forall k :: k in ks <==> k in DetailTotals(ps)
    ensures DetailTableSum(DetailTotals(ps), ks, None) == Total(ps)
    ensures DetailTableSum(DetailTotals(ps), ks, Some(s)) == StateSum(ps, s)
    ensures s in StateTotals(ps) ==> DetailTableSum(DetailTotals(ps), ks, Some(s)) == StateTotals(ps)[s]
  {
    forall i | 0 <= i < |ps| ensures KeyOf(ps[i]) in ks {
      assert KeyOf(ps[i]) in DetailKeys(ps);
    }
    DetailPartition(ps, ks, None);
    DetailPartition(ps, ks, Some(s));
    DetailTableSumIsDetailSums(ps, ks, None);
    DetailTableSumIsDetailSums(ps, ks, Some(s));
  }

  lemma {:induction false} StateTableSumIsStateSums(ps: seq<Payment>, ss: seq<string>)
    requires forall j :: 0 <= j < |ss| ==> ss[j] in StateTotals(ps)
    ensures StateTableSum(StateTotals(ps), ss) == StateSums(ps, ss)
  {
    if ss != [] {
      StateTableSumIsStateSums(ps, ss[..|ss| - 1]);
    }
  }

  lemma {:induction false} DetailTableSumIsDetailSums(ps: seq<Payment>, ks: seq<DetailKey>, scope: Option<string>)
    requires forall j :: 0 <= j < |ks| ==> ks[j] in DetailTotals(ps)
    ensures DetailTableSum(DetailTotals(ps), ks, scope) == DetailSums(ps, ks, scope)
  {
    if ks != [] {
      DetailTableSumIsDetailSums(ps, ks[..|ks| - 1], scope);
    }
  }

  /** With positive amounts (as cleaning guarantees) every group total is positive. */
  lemma {:induction false} DetailSumPositive(ps: seq<Payment>, k: DetailKey)
    requires forall i :: 0 <= i < |ps| ==> ps[i].amount > 0.0
    requires k in DetailKeys(ps)
    ensures DetailSum(ps, k) > 0.0
  {
    var init := ps[..|ps| - 1];
    if KeyOf(ps[|ps| - 1]) == k {
      DetailSumNonNegative(init, k);
    } else {
      var i :| 0 <= i < |ps| && KeyOf(ps[i]) == k;
      assert init[i] == ps[i];
      DetailSumPositive(init, k);
    }
  }

  lemma {:induction false} DetailSumNonNegative(ps: seq<Payment>, k: DetailKey)
    requires forall i :: 0 <= i < |ps| ==> ps[i].amount > 0.0
    ensures DetailSum(ps, k) >= 0.0
  {
    if ps != [] {
      DetailSumNonNegative(ps[..|ps| - 1], k);
    }
  }

  /** With positive amounts every state total is positive. */
  lemma {:induction false} StateSumPositive(ps: seq<Payment>, s: string)
    requires forall i :: 0 <= i < |ps| ==> ps[i].amount > 0.0
    requires s in States(ps)
    ensures StateSum(ps, s) > 0.0
  {
    var init := ps[..|ps| - 1];
    if ps[|ps| - 1].state == s {
      AmountInNonNegative(init, Some(s));
    } else {
      var i :| 0 <= i < |ps| && ps[i].state == s;
      assert init[i] == ps[i];
      StateSumPositive(init, s);
    }
  }

  lemma {:induction false} AmountInNonNegative(ps: seq<Payment>, scope: Option<string>)
    requires forall i :: 0 <= i < |ps| ==> ps[i].amount > 0.0
    ensures AmountIn(ps, scope) >= 0.0
  {
    if ps != [] {
      AmountInNonNegative(ps[..|ps| - 1], scope);
    }
  }

  // ---------------------------------------------------------------- merge

  /** A floating-point quotient: division by zero or by a missing value does not
      fail but yields an infinity or NaN, as in pandas. */
  datatype Ratio = Finite(value: real) | PosInfinity | NegInfinity | NotANumber

  /** `payment_amount / total_households`; there is no guard against zero households. */
  function Divide(a: real, b: Option<real>): (r: Ratio)
    ensures r.Finite? <==> b.Some? && b.value != 0.0
    ensures r.Finite? ==> r.value * b.value == a
    ensures r == PosInfinity <==> b == Some(0.0) && a > 0.0
    ensures r == NegInfinity <==> b == Some(0.0) && a < 0.0
  {
    match b
    case None => NotANumber
    case Some(d) =>
      if d != 0.0 then Finite(a / d)
      else if a > 0.0 then PosInfinity
      else if a < 0.0 then NegInfinity
      else NotANumber
  }

  /** One row of the state summary file. */
  datatype SummaryRow = SummaryRow(
    state: string,
    paymentAmount: real,
    stateName: string,
    medianIncome: Option<real>,
    totalHouseholds: Option<real>,
    stateAbbr: Option<string>,
    paymentPerHousehold: Ratio)

  function Joined(totals: map<string, real>, c: CensusRow): SummaryRow
    requires c.stateAbbr.Some? && c.stateAbbr.value in totals
  {
    var amount := totals[c.stateAbbr.value];
    SummaryRow(c.stateAbbr.value, amount, c.stateName, c.medianIncome, c.totalHouseholds,
               c.stateAbbr, Divide(amount, c.totalHouseholds))
  }

  /** A census row that the inner merge keeps: its abbreviation has a payment total. */
  predicate Matches(totals: map<string, real>, c: CensusRow) {
    c.stateAbbr.Some? && c.stateAbbr.value in totals
  }

  /** `Matches` as the predicate of a filter over census rows. */
  function MatchesIn(totals: map<string, real>): CensusRow -> bool {
    c => Matches(totals, c)
  }

  /** The inner merge of the state totals with the census rows on
      `state == state_abbr`, with the payment per household added. */
  function Merge(totals: map<string, real>, census: seq<CensusRow>): (rows: seq<SummaryRow>)
    ensures |rows| <= |census|
    ensures var kept := Seqs.Filter(census, MatchesIn(totals));
      && |rows| == |kept|
      && forall i :: 0 <= i < |rows| ==> Matches(totals, kept[i]) && rows[i] == Joined(totals, kept[i])
    ensures forall i :: 0 <= i < |rows| ==>
      && rows[i].state in totals
      && rows[i].paymentAmount == totals[rows[i].state]
      && rows[i].stateAbbr == Some(rows[i].state)
      && rows[i].paymentPerHousehold == Divide(rows[i].paymentAmount, rows[i].totalHouseholds)
  {
    if census == [] then []
    else
      var rest := Merge(totals, census[1..]);
      MergeStep(totals, census, rest);
      if Matches(totals, census[0]) then [Joined(totals, census[0])] + rest else rest
  }

  /** One census row more: the merge of the tail extends to the merge of the whole. */
  lemma MergeStep(totals: map<string, real>, census: seq<CensusRow>, rest: seq<SummaryRow>)
    requires census != []
    requires var kept := Seqs.Filter(census[1..], MatchesIn(totals));
      && |rest| == |kept|
      && forall i :: 0 <= i < |rest| ==> Matches(totals, kept[i]) && rest[i] == Joined(totals, kept[i])
    ensures var rows := if Matches(totals, census[0]) then [Joined(totals, census[0])] + rest else rest;
      var kept := Seqs.Filter(census, MatchesIn(totals));
      && |rows| == |kept|
      && forall i :: 0 <= i < |rows| ==> Matches(totals, kept[i]) && rows[i] == Joined(totals, kept[i])
  {
    assert MatchesIn(totals)(census[0]) == Matches(totals, census[0]);
  }

  predicate HasAbbr(census: seq<CensusRow>, s: string) {
    exists j :: 0 <= j < |census| && census[j].stateAbbr == Some(s)
  }

  predicate InSummary(rows: seq<SummaryRow>, s: string) {
    exists i :: 0 <= i < |rows| && rows[i].state == s
  }

  /** A state reaches the summary exactly when it has payments and a census row
      whose name maps to it: payments in "Unknown", or in a territory without a
      census column, are dropped. */
  lemma MergeMembership(totals: map<string, real>, census: seq<CensusRow>, s: string)
    ensures InSummary(Merge(totals, census), s) <==> s in totals && HasAbbr(census, s)
  {
    var rows, kept := Merge(totals, census), Seqs.Filter(census, MatchesIn(totals));
    if InSummary(rows, s) {
      var i :| 0 <= i < |rows| && rows[i].state == s;
      assert kept[i] in census && kept[i].stateAbbr == Some(s);
    }
    if s in totals && HasAbbr(census, s) {
      var j :| 0 <= j < |census| && census[j].stateAbbr == Some(s);
      assert MatchesIn(totals)(census[j]);
      var i :| 0 <= i < |kept| && kept[i] == census[j];
      assert rows[i].state == s;
    }
  }

  /** Census rows as the census step builds them: the abbreviation is the
      lookup of the state name. */
  predicate AbbreviatedByName(census: seq<CensusRow>) {
    forall j :: 0 <= j < |census| ==> census[j].stateAbbr == Lookups.StateAbbr(census[j].stateName)
  }

  predicate DistinctNames(census: seq<CensusRow>) {
    forall i, j :: 0 <= i < j < |census| ==> census[i].stateName != census[j].stateName
  }

  /** When no state name repeats among the census columns, the merge has at most
      one row per state, because no two state names share an abbreviation. */
  lemma {:induction false} MergeOneRowPerState(totals: map<string, real>, census: seq<CensusRow>)
    requires AbbreviatedByName(census)
    requires DistinctNames(census)
    ensures forall i, j :: 0 <= i < j < |Merge(totals, census)| ==>
      Merge(totals, census)[i].state != Merge(totals, census)[j].state
  {
    if census != [] {
      var c, rest := census[0], census[1..];
      assert AbbreviatedByName(rest) by {
        forall j | 0 <= j < |rest| ensures rest[j].stateAbbr == Lookups.StateAbbr(rest[j].stateName) {
          assert rest[j] == census[j + 1];
        }
      }
      assert DistinctNames(rest) by {
        forall i, j | 0 <= i < j < |rest| ensures rest[i].stateName != rest[j].stateName {
          assert rest[i] == census[i + 1] && rest[j] == census[j + 1];
        }
      }
      MergeOneRowPerState(totals, rest);
      var tail := Merge(totals, rest);
      if c.stateAbbr.Some? && c.stateAbbr.value in totals {
        var s := c.stateAbbr.value;
        assert !InSummary(tail, s) by {
          if InSummary(tail, s) {
            MergeMembership(totals, rest, s);
            var j :| 0 <= j < |rest| && rest[j].stateAbbr == Some(s);
            assert rest[j] == census[j + 1];
            Lookups.StateAbbrInjective(c.stateName, rest[j].stateName);
            assert false;
          }
        }
        var rows := Merge(totals, census);
        forall i, j | 0 <= i < j < |rows| ensures rows[i].state != rows[j].state {
          assert rows[j] == tail[j - 1];
          if i > 0 {
            assert rows[i] == tail[i - 1];
          }
        }
      }
    }
  }

  /** A state with payments but without a census row is absent from the summary
      yet keeps its rows in the detail table. */
  lemma DroppedStateKeepsDetails(ps: seq<Payment>, census: seq<CensusRow>, s: string)
    requires s in States(ps) && !HasAbbr(census, s)
    ensures !InSummary(Merge(StateTotals(ps), census), s)
    ensures exists k :: k in DetailTotals(ps) && k.state == s
  {
    MergeMembership(StateTotals(ps), census, s);
    var i :| 0 <= i < |ps| && ps[i].state == s;
    assert KeyOf(ps[i]) in DetailKeys(ps);
  }

  /** Two California payments of 100 and 900 and a census column counting two
      households give one summary row: 1000 in total, 500 per household. */
  lemma TwoPaymentsPerHousehold(specialty: string, category: string)
    ensures var ps := [Payment(Some("1"), Some(specialty), 100.0, None, None, "CA", specialty, category),
                       Payment(Some("2"), Some(specialty), 900.0, None, None, "CA", specialty, category)];
            var census := [CensusRow("California", None, Some(2.0), Some("CA"))];
            Merge(StateTotals(ps), census) ==
              [SummaryRow("CA", 1000.0, "California", None, Some(2.0), Some("CA"), Finite(500.0))]
  {
    var ps := [Payment(Some("1"), Some(specialty), 100.0, None, None, "CA", specialty, category),
               Payment(Some("2"), Some(specialty), 900.0, None, None, "CA", specialty, category)];
    assert States(ps) == {"CA"};
    assert StateSum(ps, "CA") == 1000.0 by {
      assert ps[..|ps| - 1] == [ps[0]];
      assert [ps[0]][..0] == [];
      assert AmountIn([ps[0]], Some("CA")) == 100.0;
    }
  }

  // ---------------------------------------------------------------- the run

  /** The two derived tables the preprocessing run writes. */
  datatype Derived = Derived(summary: seq<SummaryRow>, detail: map<DetailKey, real>)

  /** Steps 3 to 6 of the preprocessing run, on the already loaded payment records
      and census table. The run aborts when a census indicator row is missing. */
  method RunPreprocessing(raw: seq<RawPayment>, census: CensusTable) returns (r: Result<Derived, PipelineError>)
    requires Rectangular(census)
    ensures r.Failure? <==> CensusRows(census).Failure?
    ensures r.Failure? ==> r.error == CensusRows(census).error
    ensures r.Success? ==>
      && r.value.summary == Merge(StateTotals(CleanPayments(raw)), CensusRows(census).value)
      && r.value.detail == DetailTotals(CleanPayments(raw))
    ensures r.Success? ==> forall i :: 0 <= i < |r.value.summary| ==> r.value.summary[i].paymentAmount > 0.0
    ensures r.Success? ==> forall k :: k in r.value.detail ==> r.value.detail[k] > 0.0
  {
    var kept := Seqs.Filter(raw, HasPositiveAmount);
    var payments := seq(|kept|, i requires 0 <= i < |kept| => Normalize(kept[i]));
    assert payments == CleanPayments(raw);
    var rows := CensusRows(census);
    if rows.Failure? {
      return Failure(rows.error);
    }
    var totals := GroupByState(payments);
    var summary := Merge(totals, rows.value);
    var detail := GroupByDetail(payments);
    forall i | 0 <= i < |summary| ensures summary[i].paymentAmount > 0.0 {
      StateSumPositive(payments, summary[i].state);
    }
    forall k | k in detail ensures detail[k] > 0.0 {
      DetailSumPositive(payments, k);
    }
    return Success(Derived(summary, detail));
  }
}
