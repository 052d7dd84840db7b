/**
  The two reference tables of the sector index and the normalisation the
  company loader applies to them.

  A company row (`companies_info.csv`) carries a CIK, a ticker, a display
  title and an SIC industry code that may be missing on the raw row. A sector
  row (`sic_industry_code.csv`) carries an SIC code and its industry title.
  The loaded company table keeps only the rows whose industry is present, so
  its rows have a definite integer industry.
 */
module Tables {

  datatype Option<T> = None | Some(value: T)

  /** A company row as read from the company table: the industry may be missing. */
  datatype RawCompany = RawCompany(cik: int, ticker: string, title: string, industry: Option<int>)

  /** A company row after loading: the industry code is present. */
  datatype Company = Company(cik: int, ticker: string, title: string, industry: int)

  /** A row of the SIC code table. */
  datatype Sector = Sector(code: int, title: string)

  /** The loaded form of a raw row that has an industry code. */
  function Loaded(row: RawCompany): Company
    requires row.industry.Some?
  {
    Company(row.cik, row.ticker, row.title, row.industry.value)
  }

  /**
    The company loader's normalisation: rows whose industry is missing are
    dropped, the others keep their order and become rows with an integer
    industry.
   */
  function DropMissingIndustry(raw: seq<RawCompany>): (r: seq<Company>)
    ensures |r| <= |raw|
    ensures forall c :: c in r <==> RawCompany(c.cik, c.ticker, c.title, Some(c.industry)) in raw
  {
    if raw == [] then
      []
    else
      var rest := DropMissingIndustry(raw[1..]);
      assert raw == [raw[0]] + raw[1..];
      if raw[0].industry.None? then rest else [Loaded(raw[0])] + rest
  }

  /**
    The normalisation keeps every raw row that has an industry as often as it
    occurs: each loaded row occurs exactly as many times as its raw form.
   */
  lemma {:induction false} DropKeepsEveryOccurrence(raw: seq<RawCompany>, c: Company)
    ensures multiset(DropMissingIndustry(raw))[c] == multiset(raw)[RawCompany(c.cik, c.ticker, c.title, Some(c.industry))]
  {
    if raw != [] {
      DropKeepsEveryOccurrence(raw[1..], c);
      DropHead(raw);
      assert raw == [raw[0]] + raw[1..];
      assert multiset(raw) == multiset{raw[0]} + multiset(raw[1..]);
      if raw[0].industry.Some? {
        assert (Loaded(raw[0]) == c) == (raw[0] == RawCompany(c.cik, c.ticker, c.title, Some(c.industry)));
        assert multiset(DropMissingIndustry(raw)) == multiset{Loaded(raw[0])} + multiset(DropMissingIndustry(raw[1..]));
      }
    }
  }

  /** Index of the first element of `s` that satisfies `p` (pandas' `df[mask].iloc[0]`), if any. */
  function FirstWhere<T>(s: seq<T>, p: T -> bool): (r: Option<nat>)
    ensures r.None? <==> forall j :: 0 <= j < |s| ==> !p(s[j])
    ensures r.Some? ==> r.value < |s| && p(s[r.value])
    ensures r.Some? ==> forall j :: 0 <= j < r.value ==> !p(s[j])
  {
    if s == [] then
      None
    else if p(s[0]) then
      Some(0)
    else
      match FirstWhere(s[1..], p)
      case None => None
      case Some(i) => Some(i + 1)
  }

  /** `k` is the position of the first company row with CIK `cik`. */
  ghost predicate FirstWithCik(companies: seq<Company>, cik: int, k: int) {
    && 0 <= k < |companies|
    && companies[k].cik == cik
    && forall j :: 0 <= j < k ==> companies[j].cik != cik
  }

  /** `k` is the position of the first raw row with CIK `cik` whose industry is present. */
  ghost predicate FirstLoadableWithCik(raw: seq<RawCompany>, cik: int, k: int) {
    && 0 <= k < |raw|
    && raw[k].cik == cik && raw[k].industry.Some?
    && forall j :: 0 <= j < k ==> raw[j].cik != cik || raw[j].industry.None?
  }

  /** Position of the first company row with CIK `cik`, if any. */
  function FirstCikIndex(companies: seq<Company>, cik: int): (r: Option<nat>)
    ensures r.None? <==> forall j :: 0 <= j < |companies| ==> companies[j].cik != cik
    ensures r.Some? ==> FirstWithCik(companies, cik, r.value)
  {
    FirstWhere(companies, (c: Company) => c.cik == cik)
  }

  /**
    Dropping the rows without an industry does not change which row a CIK
    lookup finds among the remaining ones: the first loaded row with CIK
    `cik` is the first raw row with that CIK and a present industry.
   */
  lemma {:induction false} FirstLoadedRow(raw: seq<RawCompany>, cik: int, k: int)
    requires FirstLoadableWithCik(raw, cik, k)
    ensures FirstCikIndex(DropMissingIndustry(raw), cik).Some?
    ensures var i := FirstCikIndex(DropMissingIndustry(raw), cik).value;
            DropMissingIndustry(raw)[i] == Loaded(raw[k])
  {
    var loaded := DropMissingIndustry(raw);
    var rest := DropMissingIndustry(raw[1..]);
    DropHead(raw);
    if k == 0 {
      assert FirstWithCik(loaded, cik, 0);
      FirstIsUnique(loaded, cik, 0, FirstCikIndex(loaded, cik).value);
    } else {
      assert FirstLoadableWithCik(raw[1..], cik, k - 1);
      FirstLoadedRow(raw[1..], cik, k - 1);
      var i := FirstCikIndex(rest, cik).value;
      if raw[0].industry.Some? {
        assert FirstWithCik(loaded, cik, i + 1);
        FirstIsUnique(loaded, cik, i + 1, FirstCikIndex(loaded, cik).value);
      }
    }
  }

  /** One step of the normalisation: the head row is kept exactly when its industry is present. */
  lemma DropHead(raw: seq<RawCompany>)
    requires raw != []
    ensures raw[0].industry.None? ==> DropMissingIndustry(raw) == DropMissingIndustry(raw[1..])
    ensures raw[0].industry.Some? ==> DropMissingIndustry(raw) == [Loaded(raw[0])] + DropMissingIndustry(raw[1..])
  {
  }

  /** There is only one first row with a given CIK. */
  lemma FirstIsUnique(companies: seq<Company>, cik: int, k: int, m: int)
    requires FirstWithCik(companies, cik, k) && FirstWithCik(companies, cik, m)
    ensures k == m
  {
  }
}
