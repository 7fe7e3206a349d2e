/** The three fixed tables of the pipeline: payment-nature categories, state names
    to postal abbreviations, and postal abbreviations to FIPS codes. Each table is a
    lookup that answers `None` for a key it does not list (pandas `Series.map` gives
    NaN there). The two 51-entry tables are written as four consecutive blocks of
    the source's listing, tried in order; the keys of the blocks are disjoint, so
    this is the same table, and each proof about it inspects one block at a time. */
module Lookups {
  import opened Wrappers

  /** The one long-form key that is a full sentence. */
  const SpeakerCompensation: string :=
    "Compensation for services other than consulting, including serving as faculty or as a speaker at a venue other than a continuing education program"

  /** The category of a long-form disclosure string, if the table lists it. */
  function NatureCategory(nature: string): Option<string> {
    if nature == SpeakerCompensation then Some("Non-consulting professional services")
    else
      match nature
      case "Consulting Fee" => Some("Consulting")
      case "Food and Beverage" => Some("Food & Beverage")
      case "Travel and Lodging" => Some("Travel & Lodging")
      case "Royalty or License" => Some("Royalty / License")
      case "Honoraria" => Some("Honoraria")
      case "Education" => Some("Education")
      case "Grant" => Some("Grant")
      case "Acquisitions" => Some("Acquisitions")
      case "Entertainment" => Some("Entertainment")
      case "Long term medical supply or device loan" => Some("Device / Supply Loan")
      case _ => None
  }

  /** The eleven short categories. */
  const Categories: set<string> := {
    "Non-consulting professional services", "Consulting", "Food & Beverage", "Travel & Lodging", "Royalty / License", "Honoraria", "Education", "Grant", "Acquisitions", "Entertainment", "Device / Supply Loan"
  }

  /** The label of every disclosure string the table does not list. */
  const OtherCategory: string := "Other"

  /** The postal abbreviation of a state name (50 states and the District of Columbia). */
  function StateAbbr(name: string): Option<string> {
    if StateAbbrBlock1(name).Some? then StateAbbrBlock1(name) else
    if StateAbbrBlock2(name).Some? then StateAbbrBlock2(name) else
    if StateAbbrBlock3(name).Some? then StateAbbrBlock3(name) else
    StateAbbrBlock4(name)
  }

  function StateAbbrBlock1(name: string): Option<string> {
    match name
    case "Alabama" => Some("AL") case "Alaska" => Some("AK") case "Arizona" => Some("AZ")
    case "Arkansas" => Some("AR") case "California" => Some("CA") case "Colorado" => Some("CO")
    case "Connecticut" => Some("CT") case "Delaware" => Some("DE") case "Florida" => Some("FL")
    case "Georgia" => Some("GA") case "Hawaii" => Some("HI") case "Idaho" => Some("ID")
    case "Illinois" => Some("IL")
    case _ => None
  }

  function StateAbbrBlock2(name: string): Option<string> {
    match name
    case "Indiana" => Some("IN") case "Iowa" => Some("IA") case "Kansas" => Some("KS")
    case "Kentucky" => Some("KY") case "Louisiana" => Some("LA") case "Maine" => Some("ME")
    case "Maryland" => Some("MD") case "Massachusetts" => Some("MA") case "Michigan" => Some("MI")
    case "Minnesota" => Some("MN") case "Mississippi" => Some("MS") case "Missouri" => Some("MO")
    case "Montana" => Some("MT")
    case _ => None
  }

  function StateAbbrBlock3(name: string): Option<string> {
    match name
    case "Nebraska" => Some("NE") case "Nevada" => Some("NV") case "New Hampshire" => Some("NH")
    case "New Jersey" => Some("NJ") case "New Mexico" => Some("NM") case "New York" => Some("NY")
    case "North Carolina" => Some("NC") case "North Dakota" => Some("ND") case "Ohio" => Some("OH")
    case "Oklahoma" => Some("OK") case "Oregon" => Some("OR") case "Pennsylvania" => Some("PA")
    case "Rhode Island" => Some("RI")
    case _ => None
  }

  function StateAbbrBlock4(name: string): Option<string> {
    match name
    case "South Carolina" => Some("SC") case "South Dakota" => Some("SD") case "Tennessee" => Some("TN")
    case "Texas" => Some("TX") case "Utah" => Some("UT") case "Vermont" => Some("VT")
    case "Virginia" => Some("VA") case "Washington" => Some("WA") case "West Virginia" => Some("WV")
    case "Wisconsin" => Some("WI") case "Wyoming" => Some("WY") case "District of Columbia" => Some("DC")
    case _ => None
  }

  /** The FIPS code of a postal abbreviation. */
  function FipsCode(abbr: string): Option<int> {
    if FipsCodeBlock1(abbr).Some? then FipsCodeBlock1(abbr) else
    if FipsCodeBlock2(abbr).Some? then FipsCodeBlock2(abbr) else
    if FipsCodeBlock3(abbr).Some? then FipsCodeBlock3(abbr) else
    FipsCodeBlock4(abbr)
  }

  function FipsCodeBlock1(abbr: string): Option<int> {
    match abbr
    case "AL" => Some(1) case "AK" => Some(2) case "AZ" => Some(4) case "AR" => Some(5) case "CA" => Some(6)
    case "CO" => Some(8) case "CT" => Some(9) case "DE" => Some(10) case "FL" => Some(12) case "GA" => Some(13)
    case "HI" => Some(15) case "ID" => Some(16) case "IL" => Some(17)
    case _ => None
  }

  function FipsCodeBlock2(abbr: string): Option<int> {
    match abbr
    case "IN" => Some(18) case "IA" => Some(19) case "KS" => Some(20) case "KY" => Some(21) case "LA" => Some(22)
    case "ME" => Some(23) case "MD" => Some(24) case "MA" => Some(25) case "MI" => Some(26) case "MN" => Some(27)
    case "MS" => Some(28) case "MO" => Some(29) case "MT" => Some(30)
    case _ => None
  }

  function FipsCodeBlock3(abbr: string): Option<int> {
    match abbr
    case "NE" => Some(31) case "NV" => Some(32) case "NH" => Some(33) case "NJ" => Some(34) case "NM" => Some(35)
    case "NY" => Some(36) case "NC" => Some(37) case "ND" => Some(38) case "OH" => Some(39) case "OK" => Some(40)
    case "OR" => Some(41) case "PA" => Some(42) case "RI" => Some(44)
    case _ => None
  }

  function FipsCodeBlock4(abbr: string): Option<int> {
    match abbr
    case "SC" => Some(45) case "SD" => Some(46) case "TN" => Some(47) case "TX" => Some(48) case "UT" => Some(49)
    case "VT" => Some(50) case "VA" => Some(51) case "WA" => Some(53) case "WV" => Some(54) case "WI" => Some(55)
    case "WY" => Some(56) case "DC" => Some(11)
    case _ => None
  }

  /** FIPS codes back to abbreviations; used only to prove `FipsCode` one-to-one. */
  ghost function AbbrOfCode(code: int): string {
    match code
    case 1 => "AL" case 2 => "AK" case 4 => "AZ" case 5 => "AR" case 6 => "CA" case 8 => "CO"
    case 9 => "CT" case 10 => "DE" case 12 => "FL" case 13 => "GA" case 15 => "HI" case 16 => "ID"
    case 17 => "IL" case 18 => "IN" case 19 => "IA" case 20 => "KS" case 21 => "KY" case 22 => "LA"
    case 23 => "ME" case 24 => "MD" case 25 => "MA" case 26 => "MI" case 27 => "MN" case 28 => "MS"
    case 29 => "MO" case 30 => "MT" case 31 => "NE" case 32 => "NV" case 33 => "NH" case 34 => "NJ"
    case 35 => "NM" case 36 => "NY" case 37 => "NC" case 38 => "ND" case 39 => "OH" case 40 => "OK"
    case 41 => "OR" case 42 => "PA" case 44 => "RI" case 45 => "SC" case 46 => "SD" case 47 => "TN"
    case 48 => "TX" case 49 => "UT" case 50 => "VT" case 51 => "VA" case 53 => "WA" case 54 => "WV"
    case 55 => "WI" case 56 => "WY" case 11 => "DC"
    case _ => ""
  }

  /** A two-letter abbreviation as a number, so that abbreviations can be told apart
      by arithmetic; used only in proofs. */
  ghost function AbbrKey(abbr: string): int
    requires |abbr| == 2
  {
    abbr[0] as int * 128 + abbr[1] as int
  }

  /** State names by abbreviation key; used only to prove `StateAbbr` one-to-one. */
  ghost function NameOfKey(key: int): string {
    match key
    case 8396 => "Alabama" case 8395 => "Alaska" case 8410 => "Arizona"
    case 8402 => "Arkansas" case 8641 => "California" case 8655 => "Colorado"
    case 8660 => "Connecticut" case 8773 => "Delaware" case 9036 => "Florida"
    case 9153 => "Georgia" case 9289 => "Hawaii" case 9412 => "Idaho"
    case 9420 => "Illinois" case 9422 => "Indiana" case 9409 => "Iowa"
    case 9683 => "Kansas" case 9689 => "Kentucky" case 9793 => "Louisiana"
    case 9925 => "Maine" case 9924 => "Maryland" case 9921 => "Massachusetts"
    case 9929 => "Michigan" case 9934 => "Minnesota" case 9939 => "Mississippi"
    case 9935 => "Missouri" case 9940 => "Montana" case 10053 => "Nebraska"
    case 10070 => "Nevada" case 10056 => "New Hampshire" case 10058 => "New Jersey"
    case 10061 => "New Mexico" case 10073 => "New York" case 10051 => "North Carolina"
    case 10052 => "North Dakota" case 10184 => "Ohio" case 10187 => "Oklahoma"
    case 10194 => "Oregon" case 10305 => "Pennsylvania" case 10569 => "Rhode Island"
    case 10691 => "South Carolina" case 10692 => "South Dakota" case 10830 => "Tennessee"
    case 10840 => "Texas" case 10964 => "Utah" case 11092 => "Vermont"
    case 11073 => "Virginia" case 11201 => "Washington" case 11222 => "West Virginia"
    case 11209 => "Wisconsin" case 11225 => "Wyoming" case 8771 => "District of Columbia"
    case _ => ""
  }

  /** Every listed disclosure string maps to one of the eleven categories. */
  lemma NatureCategoryRange(nature: string)
    ensures NatureCategory(nature).Some? ==> NatureCategory(nature).value in Categories
  {
  }

  /** Distinct abbreviations get distinct FIPS codes, each code lies in 1..56. */
  lemma FipsCodeInjective(a: string, b: string)
    requires FipsCode(a).Some? && FipsCode(b).Some?
    ensures 1 <= FipsCode(a).value <= 56
    ensures a != b ==> FipsCode(a) != FipsCode(b)
  {
    FipsCodeRecoverable(a);
    FipsCodeRecoverable(b);
  }

  /** An abbreviation can be recovered from its FIPS code. */
  lemma FipsCodeRecoverable(abbr: string)
    requires FipsCode(abbr).Some?
    ensures 1 <= FipsCode(abbr).value <= 56
    ensures AbbrOfCode(FipsCode(abbr).value) == abbr
  {
    if FipsCodeBlock1(abbr).Some? {
      FipsBlock1Recoverable(abbr);
    } else if FipsCodeBlock2(abbr).Some? {
      FipsBlock2Recoverable(abbr);
    } else if FipsCodeBlock3(abbr).Some? {
      FipsBlock3Recoverable(abbr);
    } else {
      FipsBlock4Recoverable(abbr);
    }
  }

  lemma FipsBlock1Recoverable(abbr: string)
    requires FipsCodeBlock1(abbr).Some?
    ensures 1 <= FipsCodeBlock1(abbr).value <= 56
    ensures AbbrOfCode(FipsCodeBlock1(abbr).value) == abbr
  {
  }

  lemma FipsBlock2Recoverable(abbr: string)
    requires FipsCodeBlock2(abbr).Some?
    ensures 1 <= FipsCodeBlock2(abbr).value <= 56
    ensures AbbrOfCode(FipsCodeBlock2(abbr).value) == abbr
  {
  }

  lemma FipsBlock3Recoverable(abbr: string)
    requires FipsCodeBlock3(abbr).Some?
    ensures 1 <= FipsCodeBlock3(abbr).value <= 56
    ensures AbbrOfCode(FipsCodeBlock3(abbr).value) == abbr
  {
  }

  lemma FipsBlock4Recoverable(abbr: string)
    requires FipsCodeBlock4(abbr).Some?
    ensures 1 <= FipsCodeBlock4(abbr).value <= 56
    ensures AbbrOfCode(FipsCodeBlock4(abbr).value) == abbr
  {
  }

  /** Distinct state names get distinct abbreviations, so a census row can match at
      most one payment state. */
  lemma StateAbbrInjective(a: string, b: string)
    requires StateAbbr(a).Some? && StateAbbr(b).Some?
    ensures a != b ==> StateAbbr(a) != StateAbbr(b)
  {
    StateAbbrRecoverable(a);
    StateAbbrRecoverable(b);
  }

  /** A state name can be recovered from its abbreviation, and that abbreviation has
      a FIPS code. */
  lemma StateAbbrRecoverable(name: string)
    requires StateAbbr(name).Some?
    ensures |StateAbbr(name).value| == 2
    ensures NameOfKey(AbbrKey(StateAbbr(name).value)) == name
    ensures FipsCode(StateAbbr(name).value).Some?
  {
    if StateAbbrBlock1(name).Some? {
      StateBlock1Recoverable(name);
      StateBlock1Coded(name);
    } else if StateAbbrBlock2(name).Some? {
      StateBlock2Recoverable(name);
      StateBlock2Coded(name);
    } else if StateAbbrBlock3(name).Some? {
      StateBlock3Recoverable(name);
      StateBlock3Coded(name);
    } else {
      StateBlock4Recoverable(name);
      StateBlock4Coded(name);
    }
  }

  lemma StateBlock1Recoverable(name: string)
    requires StateAbbrBlock1(name).Some?
    ensures |StateAbbrBlock1(name).value| == 2
    ensures NameOfKey(AbbrKey(StateAbbrBlock1(name).value)) == name
  {
  }

  lemma StateBlock1Coded(name: string)
    requires StateAbbrBlock1(name).Some?
    ensures FipsCode(StateAbbrBlock1(name).value).Some?
  {
  }

  lemma StateBlock2Recoverable(name: string)
    requires StateAbbrBlock2(name).Some?
    ensures |StateAbbrBlock2(name).value| == 2
    ensures NameOfKey(AbbrKey(StateAbbrBlock2(name).value)) == name
  {
  }

  lemma StateBlock2Coded(name: string)
    requires StateAbbrBlock2(name).Some?
    ensures FipsCode(StateAbbrBlock2(name).value).Some?
  {
  }

  lemma StateBlock3Recoverable(name: string)
    requires StateAbbrBlock3(name).Some?
    ensures |StateAbbrBlock3(name).value| == 2
    ensures NameOfKey(AbbrKey(StateAbbrBlock3(name).value)) == name
  {
  }

  lemma StateBlock3Coded(name: string)
    requires StateAbbrBlock3(name).Some?
    ensures FipsCode(StateAbbrBlock3(name).value).Some?
  {
  }

  lemma StateBlock4Recoverable(name: string)
    requires StateAbbrBlock4(name).Some?
    ensures |StateAbbrBlock4(name).value| == 2
    ensures NameOfKey(AbbrKey(StateAbbrBlock4(name).value)) == name
  {
  }

  lemma StateBlock4Coded(name: string)
    requires StateAbbrBlock4(name).Some?
    ensures FipsCode(StateAbbrBlock4(name).value).Some?
  {
  }

}
