/** The cleaning steps of the preprocessing run: the payment records are filtered
    and normalised, the census indicator table is turned into one row per state. */
module Cleaning {
  import opened Wrappers
  import Seqs
  import Text
  import Numeric
  import Lookups

  // ---------------------------------------------------------------- payments

  /** One raw disclosure row: the six columns the run reads. */
  datatype RawPayment = RawPayment(
    recipientId: Option<string>,
    specialty: Option<string>,
    amount: Option<real>,
    date: Option<string>,
    nature: Option<string>,
    state: Option<string>)

  /** A cleaned disclosure row: the raw columns (renamed) plus the two derived labels. */
  datatype Payment = Payment(
    recipientId: Option<string>,
    specialty: Option<string>,
    amount: real,
    date: Option<string>,
    paymentType: Option<string>,
    state: string,
    specialtyClean: string,
    paymentTypeClean: string)

  const Unknown: string := "Unknown"

  /** The row filter: a missing amount compares false, like NaN. */
  predicate HasPositiveAmount(r: RawPayment) {
    r.amount.Some? && r.amount.value > 0.0
  }

  /** The canonical specialty: the trimmed text after the last "|", or "Unknown"
      for a missing specialty. An empty last segment stays empty. */
  function CleanSpecialty(specialty: Option<string>): (r: string)
    ensures specialty.None? ==> r == Unknown
    ensures specialty.Some? ==> '|' !in r
    ensures specialty.Some? && r != [] ==> !Text.IsWhitespace(r[0]) && !Text.IsWhitespace(r[|r| - 1])
  {
    match specialty
    case None => Unknown
    case Some(s) =>
      Text.StripShape(Text.LastPiece(s, '|'));
      Text.Strip(Text.LastPiece(s, '|'))
  }

  /** A specialty without "|" is only trimmed. */
  lemma CleanSpecialtySingle(s: string)
    requires '|' !in s
    ensures CleanSpecialty(Some(s)) == Text.Strip(s)
  {
    Text.SplitWithoutSeparator(s, '|');
  }

  /** Of a pipe-separated list, the last entry is the one kept. */
  lemma CleanSpecialtyLast(front: string, last: string)
    requires '|' !in last
    ensures CleanSpecialty(Some(front + "|" + last)) == Text.Strip(last)
  {
    Text.LastPieceAfterSeparator(front, last, '|');
  }

  /** Cleaning an already cleaned specialty changes nothing. */
  lemma CleanSpecialtyIdempotent(x: string)
    ensures CleanSpecialty(Some(CleanSpecialty(Some(x)))) == CleanSpecialty(Some(x))
  {
    var c := CleanSpecialty(Some(x));
    CleanSpecialtySingle(c);
    Text.StripIdempotent(Text.LastPiece(x, '|'));
  }

  /** The short payment category: the table's label for a listed disclosure string,
      "Other" for anything else, a missing value included. */
  function CleanPaymentType(nature: Option<string>): (r: string)
    ensures r in Lookups.Categories || r == Lookups.OtherCategory
    ensures r == Lookups.OtherCategory <==> nature.None? || Lookups.NatureCategory(nature.value).None?
    ensures nature.Some? && Lookups.NatureCategory(nature.value).Some? ==> r == Lookups.NatureCategory(nature.value).value
  {
    match nature
    case None => Lookups.OtherCategory
    case Some(n) =>
      Lookups.NatureCategoryRange(n);
      Lookups.NatureCategory(n).GetOr(Lookups.OtherCategory)
  }

  /** A missing state becomes "Unknown"; a present one is kept as it is. */
  function CleanState(state: Option<string>): (r: string)
    ensures state.None? ==> r == Unknown
    ensures state.Some? ==> r == state.value
  {
    state.GetOr(Unknown)
  }

  /** The derived columns of one kept row. */
  function Normalize(r: RawPayment): (p: Payment)
    requires HasPositiveAmount(r)
    ensures p.amount == r.amount.value && p.amount > 0.0
    ensures p.state == CleanState(r.state)
    ensures p.specialtyClean == CleanSpecialty(r.specialty)
    ensures p.paymentTypeClean == CleanPaymentType(r.nature)
  {
    Payment(r.recipientId, r.specialty, r.amount.value, r.date, r.nature,
            CleanState(r.state), CleanSpecialty(r.specialty), CleanPaymentType(r.nature))
  }

  /** The whole payment cleaning: the rows with a positive amount, in their original
      order, each normalised. */
  function CleanPayments(raw: seq<RawPayment>): (clean: seq<Payment>)
    ensures var kept := Seqs.Filter(raw, HasPositiveAmount);
      |clean| == |kept| && forall i :: 0 <= i < |kept| ==> clean[i] == Normalize(kept[i])
    ensures forall i :: 0 <= i < |clean| ==> clean[i].amount > 0.0
  {
    if raw == [] then []
    else if HasPositiveAmount(raw[0]) then [Normalize(raw[0])] + CleanPayments(raw[1..])
    else CleanPayments(raw[1..])
  }

  // ---------------------------------------------------------------- census

  /** One column of the census indicator table: its header and one cell per label. */
  datatype CensusColumn = CensusColumn(header: string, cells: seq<string>)

  /** The census table, indexed by indicator label, one column per state and measure. */
  datatype CensusTable = CensusTable(labels: seq<string>, columns: seq<CensusColumn>)

  /** Every column has one cell per label (a data frame is rectangular). */
  predicate Rectangular(t: CensusTable) {
    forall c :: c in t.columns ==> |c.cells| == |t.labels|
  }

  const IncomeFragment: string := "Median household income (dollars)"
  const HouseholdsFragment: string := "Total households"
  const EstimateMarker: string := "!!Estimate"

  /** One state of the census: its name, its two indicators (null when the cell does
      not parse) and its postal abbreviation (null for a name the table lacks). */
  datatype CensusRow = CensusRow(
    stateName: string,
    medianIncome: Option<real>,
    totalHouseholds: Option<real>,
    stateAbbr: Option<string>)

  /** The reason a run stops: an indicator fragment that no row label contains, or
      an indicator label that occurs more than once, so that selecting it yields
      more columns than the two names assigned to them. */
  datatype PipelineError = MissingIndicator(fragment: string) | DuplicateIndicator(indicator: string)

  /** The position of the first label containing `frag`. */
  function FirstLabelContaining(labels: seq<string>, frag: string): (r: Option<nat>)
    ensures r.Some? ==> r.value < |labels| && Text.Contains(labels[r.value], frag)
    ensures r.Some? ==> forall i :: 0 <= i < r.value ==> !Text.Contains(labels[i], frag)
    ensures r.None? ==> forall i :: 0 <= i < |labels| ==> !Text.Contains(labels[i], frag)
  {
    if labels == [] then None
    else if Text.Contains(labels[0], frag) then Some(0)
    else match FirstLabelContaining(labels[1..], frag)
      case None => None
      case Some(i) => Some(i + 1)
  }

  /** An estimate column: its header mentions "!!Estimate". */
  predicate IsEstimate(c: CensusColumn) {
    Text.Contains(c.header, EstimateMarker)
  }

  /** The state row of one estimate column, reading the two indicator cells. */
  function StateRow(c: CensusColumn, income: nat, households: nat): (r: CensusRow)
    requires income < |c.cells| && households < |c.cells|
    ensures r.medianIncome == Numeric.CensusValue(c.cells[income])
    ensures r.totalHouseholds == Numeric.CensusValue(c.cells[households])
    ensures r.stateAbbr == Lookups.StateAbbr(r.stateName)
  {
    var name := Text.RemoveAll(c.header, EstimateMarker);
    CensusRow(name, Numeric.CensusValue(c.cells[income]), Numeric.CensusValue(c.cells[households]),
              Lookups.StateAbbr(name))
  }

  /** A header "<name>!!Estimate" names the state `name`, as long as the name has no "!". */
  lemma StateRowName(name: string, cells: seq<string>, income: nat, households: nat)
    requires '!' !in name
    requires income < |cells| && households < |cells|
    ensures StateRow(CensusColumn(name + EstimateMarker, cells), income, households).stateName == name
  {
    Text.RemoveAllSuffix(name, EstimateMarker);
  }

  /** The label at `i` occurs nowhere else among the labels. */
  predicate UniqueLabel(labels: seq<string>, i: nat)
    requires i < |labels|
  {
    forall j :: 0 <= j < |labels| && j != i ==> labels[j] != labels[i]
  }

  /** The per-state census table, or the error that stops the run. The two
      indicator rows are the first labels containing the fixed fragments; a
      fragment that no label contains, or a matched label that the index repeats,
      is an error. */
  function CensusRows(t: CensusTable): (r: Result<seq<CensusRow>, PipelineError>)
    requires Rectangular(t)
    ensures FirstLabelContaining(t.labels, IncomeFragment).None? ==>
      r == Failure(MissingIndicator(IncomeFragment))
    ensures FirstLabelContaining(t.labels, IncomeFragment).Some? && FirstLabelContaining(t.labels, HouseholdsFragment).None? ==>
      r == Failure(MissingIndicator(HouseholdsFragment))
    ensures FirstLabelContaining(t.labels, IncomeFragment).Some? && FirstLabelContaining(t.labels, HouseholdsFragment).Some? ==>
      (r.Failure? <==>
        !UniqueLabel(t.labels, FirstLabelContaining(t.labels, IncomeFragment).value) ||
        !UniqueLabel(t.labels, FirstLabelContaining(t.labels, HouseholdsFragment).value))
    ensures r.Failure? && r.error.DuplicateIndicator? ==>
      exists i, j :: 0 <= i < j < |t.labels| && t.labels[i] == t.labels[j] == r.error.indicator
    ensures r.Success? ==> |r.value| == |Seqs.Filter(t.columns, IsEstimate)|
    ensures r.Success? ==> forall j :: 0 <= j < |r.value| ==> r.value[j].stateAbbr == Lookups.StateAbbr(r.value[j].stateName)
  {
    match FirstLabelContaining(t.labels, IncomeFragment)
    case None => Failure(MissingIndicator(IncomeFragment))
    case Some(income) =>
      match FirstLabelContaining(t.labels, HouseholdsFragment)
      case None => Failure(MissingIndicator(HouseholdsFragment))
      case Some(households) =>
        if !UniqueLabel(t.labels, income) then Failure(DuplicateIndicator(t.labels[income]))
        else if !UniqueLabel(t.labels, households) then Failure(DuplicateIndicator(t.labels[households]))
        else
          var estimates := Seqs.Filter(t.columns, IsEstimate);
          Success(seq(|estimates|, i requires 0 <= i < |estimates| => StateRow(estimates[i], income, households)))
  }

  /** Each state row reads the cells of the first matching labels of its own column. */
  lemma CensusRowsCells(t: CensusTable, i: nat)
    requires Rectangular(t) && CensusRows(t).Success?
    requires i < |CensusRows(t).value|
    ensures var estimates := Seqs.Filter(t.columns, IsEstimate);
      var income := FirstLabelContaining(t.labels, IncomeFragment).value;
      var households := FirstLabelContaining(t.labels, HouseholdsFragment).value;
      && IsEstimate(estimates[i]) && estimates[i] in t.columns
      && CensusRows(t).value[i] == StateRow(estimates[i], income, households)
  {
  }
}
