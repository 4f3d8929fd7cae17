/** The membership test of scripts/clean_data.py: which `code` values denote a
    real country rather than a regional or income-group aggregate such as
    "WLD" (World). The script lists the current codes in one set literal; here
    they are grouped by initial letter, and a code is looked up in the group of
    its own initial, which is the same membership test because every code in a
    group begins with that group's letter (`SameCodesAsTheScript`). */
module Countries {

  /** Three upper-case Latin letters, the shape of an ISO 3166-1 alpha-3 code. */
  predicate IsAlpha3(code: string) {
    |code| == 3 && forall i :: 0 <= i < |code| ==> 'A' <= code[i] <= 'Z'
  }

  const CurrentA: set<string> := {"AFG", "ALB", "AND", "AGO", "ATG", "ARG", "ARM", "AUS", "AUT", "AZE", "ARE"}
  const CurrentB: set<string> := {"BHS", "BHR", "BGD", "BRB", "BLR", "BEL", "BLZ", "BEN", "BTN", "BOL", "BIH", "BWA", "BRA", "BRN", "BGR", "BFA", "BDI"}
  const CurrentC: set<string> := {"CPV", "CMR", "CAN", "CAF", "CHL", "CHN", "COL", "COM", "COG", "COD", "CRI", "CIV", "CUB", "CYP", "CZE", "CHE"}
  const CurrentD: set<string> := {"DZA", "DNK", "DJI", "DMA", "DOM", "DEU"}
  const CurrentE: set<string> := {"ECU", "EGY", "ERI", "EST", "ETH", "ESP"}
  const CurrentF: set<string> := {"FJI", "FIN", "FRA", "FSM"}
  const CurrentG: set<string> := {"GNQ", "GAB", "GMB", "GEO", "GHA", "GRC", "GRD", "GTM", "GIN", "GNB", "GUY", "GBR"}
  const CurrentH: set<string> := {"HRV", "HTI", "HND", "HUN"}
  const CurrentI: set<string> := {"ISL", "IND", "IDN", "IRN", "IRQ", "IRL", "ISR", "ITA"}
  const CurrentJ: set<string> := {"JAM", "JPN", "JOR"}
  const CurrentK: set<string> := {"KHM", "KAZ", "KEN", "KIR", "KWT", "KGZ", "KNA", "KOR"}
  const CurrentL: set<string> := {"LAO", "LVA", "LBN", "LSO", "LBR", "LBY", "LIE", "LTU", "LUX", "LCA", "LKA"}
  const CurrentM: set<string> := {"MDG", "MWI", "MYS", "MDV", "MLI", "MLT", "MHL", "MRT", "MUS", "MEX", "MDA", "MCO", "MNG", "MNE", "MAR", "MOZ", "MMR", "MKD"}
  const CurrentN: set<string> := {"NAM", "NRU", "NPL", "NLD", "NZL", "NIC", "NER", "NGA", "NOR"}
  const CurrentO: set<string> := {"OMN"}
  const CurrentP: set<string> := {"PRK", "PAK", "PLW", "PAN", "PNG", "PRY", "PER", "PHL", "POL", "PRT"}
  const CurrentQ: set<string> := {"QAT"}
  const CurrentR: set<string> := {"ROU", "RUS", "RWA"}
  const CurrentS: set<string> := {"SLV", "SWZ", "SMR", "STP", "SAU", "SEN", "SRB", "SYC", "SLE", "SGP", "SVK", "SVN", "SLB", "SOM", "SSD", "SDN", "SUR", "SWE", "SYR"}
  const CurrentT: set<string> := {"TCD", "TJK", "TZA", "THA", "TLS", "TGO", "TON", "TTO", "TUN", "TUR", "TKM", "TUV"}
  const CurrentU: set<string> := {"UGA", "UKR", "USA", "URY", "UZB"}
  const CurrentV: set<string> := {"VCT", "VUT", "VEN", "VNM"}
  const CurrentW: set<string> := {"WSM"}
  const CurrentY: set<string> := {"YEM"}
  const CurrentZ: set<string> := {"ZAF", "ZMB", "ZWE"}

  /** The current ISO 3166-1 alpha-3 codes the script lists that begin with
      `initial`; no listed code begins with X. */
  function CurrentWithInitial(initial: char): set<string> {
    match initial
    case 'A' => CurrentA
    case 'B' => CurrentB
    case 'C' => CurrentC
    case 'D' => CurrentD
    case 'E' => CurrentE
    case 'F' => CurrentF
    case 'G' => CurrentG
    case 'H' => CurrentH
    case 'I' => CurrentI
    case 'J' => CurrentJ
    case 'K' => CurrentK
    case 'L' => CurrentL
    case 'M' => CurrentM
    case 'N' => CurrentN
    case 'O' => CurrentO
    case 'P' => CurrentP
    case 'Q' => CurrentQ
    case 'R' => CurrentR
    case 'S' => CurrentS
    case 'T' => CurrentT
    case 'U' => CurrentU
    case 'V' => CurrentV
    case 'W' => CurrentW
    case 'Y' => CurrentY
    case 'Z' => CurrentZ
    case _ => {}
  }

  /** Codes of countries that no longer exist, still counted as real. */
  const HistoricalCodes: set<string> := {
    "SUN", "YUG", "CSK", "DDR", "SCG", "ANT", "TMP", "ROM", "ZAR", "BUR", "BOH", "SUH"
  }

  /** `is_real_country(code)` for a string code: `code in REAL_COUNTRY_CODES`.
      Every real code is three upper-case letters, so the empty string that
      stands for a missing `code` key is never real. */
  function IsRealCountry(code: string): (r: bool)
    ensures r ==> IsAlpha3(code)
    ensures code in HistoricalCodes ==> r
  {
    if code in HistoricalCodes then
      HistoricalShape();
      true
    else if |code| > 0 && code in CurrentWithInitial(code[0]) then
      FiledUnderItsInitial(code, code[0]);
      true
    else
      false
  }

  lemma CurrentAShape()
    ensures forall c :: c in CurrentA ==> IsAlpha3(c) && c[0] == 'A'
  {
  }

  lemma CurrentBShape()
    ensures forall c :: c in CurrentB ==> IsAlpha3(c) && c[0] == 'B'
  {
  }

  lemma CurrentCShape()
    ensures forall c :: c in CurrentC ==> IsAlpha3(c) && c[0] == 'C'
  {
  }

  lemma CurrentDShape()
    ensures forall c :: c in CurrentD ==> IsAlpha3(c) && c[0] == 'D'
  {
  }

  lemma CurrentEShape()
    ensures forall c :: c in CurrentE ==> IsAlpha3(c) && c[0] == 'E'
  {
  }

  lemma CurrentFShape()
    ensures forall c :: c in CurrentF ==> IsAlpha3(c) && c[0] == 'F'
  {
  }

  lemma CurrentGShape()
    ensures forall c :: c in CurrentG ==> IsAlpha3(c) && c[0] == 'G'
  {
  }

  lemma CurrentHShape()
    ensures forall c :: c in CurrentH ==> IsAlpha3(c) && c[0] == 'H'
  {
  }

  lemma CurrentIShape()
    ensures forall c :: c in CurrentI ==> IsAlpha3(c) && c[0] == 'I'
  {
  }

  lemma CurrentJShape()
    ensures forall c :: c in CurrentJ ==> IsAlpha3(c) && c[0] == 'J'
  {
  }

  lemma CurrentKShape()
    ensures forall c :: c in CurrentK ==> IsAlpha3(c) && c[0] == 'K'
  {
  }

  lemma CurrentLShape()
    ensures forall c :: c in CurrentL ==> IsAlpha3(c) && c[0] == 'L'
  {
  }

  lemma CurrentMShape()
    ensures forall c :: c in CurrentM ==> IsAlpha3(c) && c[0] == 'M'
  {
  }

  lemma CurrentNShape()
    ensures forall c :: c in CurrentN ==> IsAlpha3(c) && c[0] == 'N'
  {
  }

  lemma CurrentOShape()
    ensures forall c :: c in CurrentO ==> IsAlpha3(c) && c[0] == 'O'
  {
  }

  lemma CurrentPShape()
    ensures forall c :: c in CurrentP ==> IsAlpha3(c) && c[0] == 'P'
  {
  }

  lemma CurrentQShape()
    ensures forall c :: c in CurrentQ ==> IsAlpha3(c) && c[0] == 'Q'
  {
  }

  lemma CurrentRShape()
    ensures forall c :: c in CurrentR ==> IsAlpha3(c) && c[0] == 'R'
  {
  }

  lemma CurrentSShape()
    ensures forall c :: c in CurrentS ==> IsAlpha3(c) && c[0] == 'S'
  {
  }

  lemma CurrentTShape()
    ensures forall c :: c in CurrentT ==> IsAlpha3(c) && c[0] == 'T'
  {
  }

  lemma CurrentUShape()
    ensures forall c :: c in CurrentU ==> IsAlpha3(c) && c[0] == 'U'
  {
  }

  lemma CurrentVShape()
    ensures forall c :: c in CurrentV ==> IsAlpha3(c) && c[0] == 'V'
  {
  }

  lemma CurrentWShape()
    ensures forall c :: c in CurrentW ==> IsAlpha3(c) && c[0] == 'W'
  {
  }

  lemma CurrentYShape()
    ensures forall c :: c in CurrentY ==> IsAlpha3(c) && c[0] == 'Y'
  {
  }

  lemma CurrentZShape()
    ensures forall c :: c in CurrentZ ==> IsAlpha3(c) && c[0] == 'Z'
  {
  }

  /** Every current code is an alpha-3 code filed under its own initial. */
  lemma FiledUnderItsInitial(code: string, initial: char)
    requires code in CurrentWithInitial(initial)
    ensures IsAlpha3(code) && code[0] == initial
  {
    match initial
    case 'A' => CurrentAShape();
    case 'B' => CurrentBShape();
    case 'C' => CurrentCShape();
    case 'D' => CurrentDShape();
    case 'E' => CurrentEShape();
    case 'F' => CurrentFShape();
    case 'G' => CurrentGShape();
    case 'H' => CurrentHShape();
    case 'I' => CurrentIShape();
    case 'J' => CurrentJShape();
    case 'K' => CurrentKShape();
    case 'L' => CurrentLShape();
    case 'M' => CurrentMShape();
    case 'N' => CurrentNShape();
    case 'O' => CurrentOShape();
    case 'P' => CurrentPShape();
    case 'Q' => CurrentQShape();
    case 'R' => CurrentRShape();
    case 'S' => CurrentSShape();
    case 'T' => CurrentTShape();
    case 'U' => CurrentUShape();
    case 'V' => CurrentVShape();
    case 'W' => CurrentWShape();
    case 'Y' => CurrentYShape();
    case 'Z' => CurrentZShape();
  }

  /** Looking a code up in the group of its initial is the script's
      membership test: a code is real exactly when it is historical or sits
      in one of the groups, which together list the script's current codes. */
  lemma SameCodesAsTheScript(code: string)
    ensures IsRealCountry(code) <==>
            code in HistoricalCodes || exists initial :: code in CurrentWithInitial(initial)
  {
    if initial :| code in CurrentWithInitial(initial) {
      FiledUnderItsInitial(code, initial);
    }
  }

  lemma HistoricalShape()
    ensures forall c :: c in HistoricalCodes ==> IsAlpha3(c)
  {
  }

  /** The historical codes, such as the Soviet Union and Yugoslavia, are real. */
  lemma HistoricalCodesAreReal()
    ensures IsRealCountry("SUN") && IsRealCountry("YUG") && IsRealCountry("CSK")
    ensures forall c :: c in HistoricalCodes ==> IsRealCountry(c)
  {
  }

  /** Some World Bank aggregates, which the filter is there to drop: World,
      European Union, Euro area, High income, OECD members. */
  lemma AggregatesAreNotReal()
    ensures !IsRealCountry("WLD") && !IsRealCountry("EUU") && !IsRealCountry("EMU")
    ensures !IsRealCountry("HIC") && !IsRealCountry("OED")
  {
  }

  /** The current codes are those of the UN member states, so economies the
      World Bank reports that are not members are dropped as well: Puerto
      Rico, Hong Kong, Macao, West Bank and Gaza, Greenland, Kosovo. */
  lemma NonMemberEconomiesAreNotReal()
    ensures !IsRealCountry("PRI") && !IsRealCountry("HKG") && !IsRealCountry("MAC")
    ensures !IsRealCountry("PSE") && !IsRealCountry("GRL") && !IsRealCountry("XKX")
  {
  }
}
