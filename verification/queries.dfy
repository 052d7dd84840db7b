/**
  The classification queries of the sector index, as functions of the loaded
  company table and the sector table, with the properties that relate them.

  `SectorCiks` and `SectorCompanyCount` reject an SIC code that the sector
  table does not hold with an `UnknownSector` error; the CIK and title
  lookups report a missing row as `None` instead.
 */
module Queries {
  import opened Sorting
  import opened Tables

  /** How many codes of the sector table an `UnknownSector` error lists. */
  const PreviewLength := 10

  /** The error for an SIC code absent from the sector table: the code and a preview of valid codes. */
  datatype UnknownSector = UnknownSector(code: int, preview: seq<int>)

  datatype Result<T> = Ok(value: T) | Err(error: UnknownSector)

  /** A row of the sector listing: the sector table row and the number of companies in it. */
  datatype SectorCount = SectorCount(sector: Sector, count: nat)

  /** The SIC codes of the sector table, row by row. */
  function Codes(sectors: seq<Sector>): (codes: seq<int>)
    ensures |codes| == |sectors|
    ensures forall k :: 0 <= k < |sectors| ==> codes[k] == sectors[k].code
  {
    seq(|sectors|, k requires 0 <= k < |sectors| => sectors[k].code)
  }

  /** The sector table has a row with code `code`. */
  predicate HasCode(sectors: seq<Sector>, code: int)
    ensures HasCode(sectors, code) <==> exists k :: 0 <= k < |sectors| && sectors[k].code == code
  {
    assert forall k :: 0 <= k < |sectors| ==> Codes(sectors)[k] == sectors[k].code;
    code in Codes(sectors)
  }

  /** The sort key of sector rows. */
  function Code(s: Sector): int { s.code }

  /** No two sector rows share an SIC code. */
  ghost predicate UniqueCodes(sectors: seq<Sector>) {
    forall i, j :: 0 <= i < j < |sectors| ==> sectors[i].code != sectors[j].code
  }

  /** No two company rows share a CIK. */
  ghost predicate UniqueCiks(companies: seq<Company>) {
    forall i, j :: 0 <= i < j < |companies| ==> companies[i].cik != companies[j].cik
  }

  /** Some company row has CIK `cik` and industry `code`. */
  ghost predicate InSector(companies: seq<Company>, cik: int, code: int) {
    exists k :: 0 <= k < |companies| && companies[k].cik == cik && companies[k].industry == code
  }

  /** The CIKs of the company rows with industry `code`, in table order. */
  function CiksIn(companies: seq<Company>, code: int): (ciks: seq<int>)
    ensures forall c :: c in ciks <==> InSector(companies, c, code)
  {
    if companies == [] then
      []
    else
      var rest := CiksIn(companies[1..], code);
      assert forall c :: InSector(companies[1..], c, code) ==> InSector(companies, c, code) by {
        forall c | InSector(companies[1..], c, code) ensures InSector(companies, c, code) {
          var k :| 0 <= k < |companies[1..]| && companies[1..][k].cik == c && companies[1..][k].industry == code;
          assert companies[k + 1] == companies[1..][k];
        }
      }
      if companies[0].industry == code then [companies[0].cik] + rest else rest
  }

  /** The number of company rows with industry `code` (the size of its `groupby` group). */
  function CountIn(companies: seq<Company>, code: int): (count: nat)
    ensures count <= |companies|
    ensures count == 0 <==> forall k :: 0 <= k < |companies| ==> companies[k].industry != code
    ensures count == |companies| <==> forall k :: 0 <= k < |companies| ==> companies[k].industry == code
  {
    if companies == [] then 0
    else (if companies[0].industry == code then 1 else 0) + CountIn(companies[1..], code)
  }

  /** The filtered CIK list has one entry per company row of the sector. */
  lemma {:induction false} CountMatchesCiks(companies: seq<Company>, code: int)
    ensures |CiksIn(companies, code)| == CountIn(companies, code)
  {
    if companies != [] {
      CountMatchesCiks(companies[1..], code);
    }
  }

  /** Under unique CIKs, the filtered CIK list has no duplicates. */
  lemma {:induction false} CiksInDistinct(companies: seq<Company>, code: int)
    requires UniqueCiks(companies)
    ensures Distinct(CiksIn(companies, code))
  {
    if companies != [] {
      var tail := companies[1..];
      assert UniqueCiks(tail) by {
        forall i, j | 0 <= i < j < |tail| ensures tail[i].cik != tail[j].cik {
          assert tail[i] == companies[i + 1] && tail[j] == companies[j + 1];
        }
      }
      CiksInDistinct(tail, code);
      if companies[0].industry == code {
        var rest := CiksIn(tail, code);
        forall k | 0 <= k < |tail| ensures tail[k].cik != companies[0].cik {
          assert tail[k] == companies[k + 1];
        }
        assert companies[0].cik !in rest;
        var ciks := [companies[0].cik] + rest;
        forall i, j | 0 <= i < j < |ciks| ensures ciks[i] != ciks[j] {
          if i == 0 {
            assert ciks[j] == rest[j - 1];
          } else {
            assert ciks[i] == rest[i - 1] && ciks[j] == rest[j - 1];
          }
        }
      }
    }
  }

  /** The distinct SIC codes of the sector table in ascending order. */
  function AvailableCodes(sectors: seq<Sector>): (codes: seq<int>)
    ensures StrictlyIncreasing(codes)
    ensures forall c :: c in codes <==> HasCode(sectors, c)
  {
    var distinct := Dedup(Codes(sectors));
    SortDistinctIsStrict(distinct);
    var sorted := SortBy(distinct, Id);
    assert forall c :: c in sorted <==> c in multiset(distinct);
    sorted
  }

  /**
    The codes an `UnknownSector` error shows: the first `PreviewLength` of the
    distinct codes in ascending order. Every code of the table that the preview
    leaves out is larger than all the codes it shows.
   */
  function Preview(sectors: seq<Sector>): (preview: seq<int>)
    ensures |preview| <= PreviewLength
    ensures StrictlyIncreasing(preview)
    ensures forall c :: c in preview ==> HasCode(sectors, c)
    ensures forall k :: 0 <= k < |sectors| && sectors[k].code !in preview ==>
              |preview| == PreviewLength && forall c :: c in preview ==> c < sectors[k].code
  {
    var available := AvailableCodes(sectors);
    var preview := if |available| <= PreviewLength then available else available[..PreviewLength];
    forall k | 0 <= k < |sectors| && sectors[k].code !in preview
      ensures |preview| == PreviewLength && forall c :: c in preview ==> c < sectors[k].code
    {
      assert Codes(sectors)[k] == sectors[k].code;
      assert sectors[k].code in available;
      var m :| 0 <= m < |available| && available[m] == sectors[k].code;
      forall c | c in preview ensures c < sectors[k].code {
        var i :| 0 <= i < |preview| && preview[i] == c;
        assert available[i] == c;
      }
    }
    preview
  }

  /**
    `get_sector_ciks`: the CIKs of the companies whose industry is `code`, in
    ascending order, or `UnknownSector` when the sector table has no such code.
   */
  function SectorCiks(companies: seq<Company>, sectors: seq<Sector>, code: int): (r: Result<seq<int>>)
    ensures r.Err? <==> !HasCode(sectors, code)
    ensures r.Err? ==> r.error.code == code && r.error.preview == Preview(sectors)
    ensures r.Ok? ==> SortedBy(r.value, Id)
    ensures r.Ok? ==> multiset(r.value) == multiset(CiksIn(companies, code))
    ensures r.Ok? ==> forall c :: c in r.value <==> InSector(companies, c, code)
  {
    if !HasCode(sectors, code) then
      Err(UnknownSector(code, Preview(sectors)))
    else
      var ciks := SortBy(CiksIn(companies, code), Id);
      assert forall c :: c in ciks <==> c in multiset(CiksIn(companies, code));
      Ok(ciks)
  }

  /** With unique CIKs, a successful `SectorCiks` is strictly ascending. */
  lemma UniqueCiksGiveStrictList(companies: seq<Company>, sectors: seq<Sector>, code: int)
    requires UniqueCiks(companies)
    requires HasCode(sectors, code)
    ensures SectorCiks(companies, sectors, code).Ok?
    ensures StrictlyIncreasing(SectorCiks(companies, sectors, code).value)
  {
    CiksInDistinct(companies, code);
    SortDistinctIsStrict(CiksIn(companies, code));
  }

  /** `get_sector_company_count`: the number of companies with industry `code`, failing like `SectorCiks`. */
  function SectorCompanyCount(companies: seq<Company>, sectors: seq<Sector>, code: int): (r: Result<nat>)
    ensures r.Err? <==> !HasCode(sectors, code)
    ensures r.Err? ==> r.error == UnknownSector(code, Preview(sectors))
    ensures r.Ok? ==> r.value == CountIn(companies, code)
  {
    CountMatchesCiks(companies, code);
    match SectorCiks(companies, sectors, code)
    case Err(e) => Err(e)
    case Ok(ciks) =>
      assert |ciks| == |multiset(CiksIn(companies, code))|;
      Ok(|ciks|)
  }

  /** The count is the length of the CIK list, and both fail with the same error. */
  lemma CountIsLengthOfCiks(companies: seq<Company>, sectors: seq<Sector>, code: int)
    ensures SectorCompanyCount(companies, sectors, code).Err? <==> SectorCiks(companies, sectors, code).Err?
    ensures SectorCiks(companies, sectors, code).Err? ==>
              SectorCompanyCount(companies, sectors, code).error == SectorCiks(companies, sectors, code).error
    ensures SectorCiks(companies, sectors, code).Ok? ==>
              SectorCompanyCount(companies, sectors, code).value == |SectorCiks(companies, sectors, code).value|
  {
  }

  /** `get_company_info`: the first company row with CIK `cik`, or `None`. */
  function CompanyInfo(companies: seq<Company>, cik: int): (r: Option<Company>)
    ensures r.None? <==> forall k :: 0 <= k < |companies| ==> companies[k].cik != cik
    ensures r.Some? ==> exists k :: FirstWithCik(companies, cik, k) && r.value == companies[k]
  {
    match FirstCikIndex(companies, cik)
    case None => None
    case Some(k) => Some(companies[k])
  }

  /** `get_cik_sector`: the industry of the first company row with CIK `cik`, or `None`. */
  function CikSector(companies: seq<Company>, cik: int): (r: Option<int>)
    ensures r.None? <==> forall k :: 0 <= k < |companies| ==> companies[k].cik != cik
    ensures r.Some? ==> exists k :: FirstWithCik(companies, cik, k) && r.value == companies[k].industry
  {
    match FirstCikIndex(companies, cik)
    case None => None
    case Some(k) => Some(companies[k].industry)
  }

  /** The `industry` of `CompanyInfo` is what `CikSector` reports, and both are absent together. */
  lemma InfoAgreesWithCikSector(companies: seq<Company>, cik: int)
    ensures CompanyInfo(companies, cik).None? <==> CikSector(companies, cik).None?
    ensures CompanyInfo(companies, cik).Some? ==>
              CikSector(companies, cik) == Some(CompanyInfo(companies, cik).value.industry)
  {
  }

  /**
    With unique CIKs, every loaded row is found again by its CIK: `CikSector`
    gives its industry, `CompanyInfo` the row itself, and when its industry is
    a code of the sector table the row's CIK is listed by `SectorCiks`.
   */
  lemma {:induction false} LoadedRowRoundTrip(companies: seq<Company>, sectors: seq<Sector>, k: int)
    requires UniqueCiks(companies)
    requires 0 <= k < |companies|
    ensures CikSector(companies, companies[k].cik) == Some(companies[k].industry)
    ensures CompanyInfo(companies, companies[k].cik) == Some(companies[k])
    ensures HasCode(sectors, companies[k].industry) ==>
              companies[k].cik in SectorCiks(companies, sectors, companies[k].industry).value
  {
  }

  /** A company's sector, when it is a known code, lists the company's CIK. */
  lemma CikSectorIsListed(companies: seq<Company>, sectors: seq<Sector>, cik: int)
    requires CikSector(companies, cik).Some?
    requires HasCode(sectors, CikSector(companies, cik).value)
    ensures cik in SectorCiks(companies, sectors, CikSector(companies, cik).value).value
  {
  }

  /**
    A company whose every raw row lacks an industry is invisible after
    loading: no CIK lookup finds it and no sector lists its CIK.
   */
  lemma DroppedRowsAreInvisible(raw: seq<RawCompany>, sectors: seq<Sector>, cik: int, code: int)
    requires forall k :: 0 <= k < |raw| && raw[k].cik == cik ==> raw[k].industry.None?
    ensures CikSector(DropMissingIndustry(raw), cik) == None
    ensures CompanyInfo(DropMissingIndustry(raw), cik) == None
    ensures SectorCiks(DropMissingIndustry(raw), sectors, code).Ok? ==>
              cik !in SectorCiks(DropMissingIndustry(raw), sectors, code).value
  {
  }

  /** `get_sector_name`: the industry title of the first sector row with code `code`, or `None`. */
  function SectorName(sectors: seq<Sector>, code: int): (r: Option<string>)
    ensures r.None? <==> !HasCode(sectors, code)
    ensures r.Some? ==> exists k :: (&& 0 <= k < |sectors| && sectors[k].code == code && r.value == sectors[k].title
                                     && forall j :: 0 <= j < k ==> sectors[j].code != code)
  {
    match FirstWhere(sectors, (s: Sector) => s.code == code)
    case None => None
    case Some(k) => Some(sectors[k].title)
  }

  /** Each sector row with the number of company rows in its industry (the left merge with the group sizes). */
  function WithCounts(companies: seq<Company>, sectors: seq<Sector>): (rows: seq<SectorCount>)
    ensures |rows| == |sectors|
    ensures forall i :: 0 <= i < |rows| ==> rows[i].sector == sectors[i]
    ensures forall i :: 0 <= i < |rows| ==> rows[i].count == CountIn(companies, sectors[i].code)
  {
    if sectors == [] then []
    else [SectorCount(sectors[0], CountIn(companies, sectors[0].code))] + WithCounts(companies, sectors[1..])
  }

  /** The sector table rows of a listing. */
  function SectorsOf(rows: seq<SectorCount>): (sectors: seq<Sector>)
    ensures |sectors| == |rows|
    ensures forall i :: 0 <= i < |rows| ==> sectors[i] == rows[i].sector
  {
    seq(|rows|, i requires 0 <= i < |rows| => rows[i].sector)
  }

  /**
    `list_available_sectors`: every sector table row once, with the number of
    company rows in its industry (0 when there are none), ordered by SIC
    code. Company rows whose industry is no code of the table count nowhere.
   */
  function ListSectors(companies: seq<Company>, sectors: seq<Sector>): (rows: seq<SectorCount>)
    ensures |rows| == |sectors|
    ensures multiset(SectorsOf(rows)) == multiset(sectors)
    ensures forall i, j :: 0 <= i < j < |rows| ==> rows[i].sector.code <= rows[j].sector.code
    ensures forall i :: 0 <= i < |rows| ==> rows[i].count == CountIn(companies, rows[i].sector.code)
  {
    var sorted := SortBy(sectors, Code);
    var rows := WithCounts(companies, sorted);
    assert SectorsOf(rows) == sorted;
    rows
  }

  /** Each row's count in the listing is what `SectorCompanyCount` reports for its code. */
  lemma ListedCountIsSectorCount(companies: seq<Company>, sectors: seq<Sector>, i: int)
    requires 0 <= i < |ListSectors(companies, sectors)|
    ensures var row := ListSectors(companies, sectors)[i];
            SectorCompanyCount(companies, sectors, row.sector.code) == Ok(row.count)
  {
    var rows := ListSectors(companies, sectors);
    var k := PermutedIndex(sectors, SectorsOf(rows), i);
    assert Codes(sectors)[k] == rows[i].sector.code;
  }

  /** The sum of the counts of a listing. */
  function SumCounts(rows: seq<SectorCount>): nat {
    if rows == [] then 0 else rows[0].count + SumCounts(rows[1..])
  }

  /** The number of company rows whose industry is one of `codes`. */
  function ClassifiedIn(companies: seq<Company>, codes: seq<int>): nat {
    if companies == [] then 0
    else (if companies[0].industry in codes then 1 else 0) + ClassifiedIn(companies[1..], codes)
  }

  /** Inserting a sector row into a sorted listing adds its company count to the sum of counts. */
  lemma {:induction false} InsertedCount(companies: seq<Company>, x: Sector, sectors: seq<Sector>)
    requires SortedBy(sectors, Code)
    ensures SumCounts(WithCounts(companies, InsertBy(x, sectors, Code))) ==
            CountIn(companies, x.code) + SumCounts(WithCounts(companies, sectors))
  {
    if sectors != [] && Code(x) > Code(sectors[0]) {
      assert SortedBy(sectors[1..], Code);
      InsertedCount(companies, x, sectors[1..]);
      assert InsertBy(x, sectors, Code)[1..] == InsertBy(x, sectors[1..], Code);
    }
  }

  /** Sorting the sector rows does not change the sum of the counts. */
  lemma {:induction false} SortedCount(companies: seq<Company>, sectors: seq<Sector>)
    ensures SumCounts(WithCounts(companies, SortBy(sectors, Code))) == SumCounts(WithCounts(companies, sectors))
  {
    if sectors != [] {
      SortedCount(companies, sectors[1..]);
      InsertedCount(companies, sectors[0], SortBy(sectors[1..], Code));
    }
  }

  /** Rows classified under a new code plus the rows classified under the others. */
  lemma {:induction false} ClassifiedSplit(companies: seq<Company>, code: int, codes: seq<int>)
    requires code !in codes
    ensures ClassifiedIn(companies, [code] + codes) == CountIn(companies, code) + ClassifiedIn(companies, codes)
  {
    if companies != [] {
      ClassifiedSplit(companies[1..], code, codes);
    }
  }

  /** With unique codes, the counts of the unsorted listing add up to the classified rows. */
  lemma {:induction false} UnsortedCount(companies: seq<Company>, sectors: seq<Sector>)
    requires UniqueCodes(sectors)
    ensures SumCounts(WithCounts(companies, sectors)) == ClassifiedIn(companies, Codes(sectors))
  {
    if sectors == [] {
      assert Codes(sectors) == [];
      ClassifiedNone(companies);
    } else {
      var tail := sectors[1..];
      assert UniqueCodes(tail) by {
        forall i, j | 0 <= i < j < |tail| ensures tail[i].code != tail[j].code {
          assert tail[i] == sectors[i + 1] && tail[j] == sectors[j + 1];
        }
      }
      UnsortedCount(companies, tail);
      assert Codes(sectors) == [sectors[0].code] + Codes(tail);
      assert sectors[0].code !in Codes(tail);
      ClassifiedSplit(companies, sectors[0].code, Codes(tail));
    }
  }

  /** No row is classified under an empty list of codes. */
  lemma {:induction false} ClassifiedNone(companies: seq<Company>)
    ensures ClassifiedIn(companies, []) == 0
  {
    if companies != [] {
      ClassifiedNone(companies[1..]);
    }
  }

  /**
    With unique SIC codes, the counts of the listing add up to the number of
    company rows whose industry is a code of the sector table: every such row
    is counted once, and the others are not counted at all.
   */
  lemma ListedCountsCoverClassified(companies: seq<Company>, sectors: seq<Sector>)
    requires UniqueCodes(sectors)
    ensures SumCounts(ListSectors(companies, sectors)) == ClassifiedIn(companies, Codes(sectors))
  {
    SortedCount(companies, sectors);
    UnsortedCount(companies, sectors);
  }

  /** Every code of the sector table has a row in the listing. */
  lemma ListingCoversEveryCode(companies: seq<Company>, sectors: seq<Sector>, code: int)
    requires HasCode(sectors, code)
    ensures exists i :: 0 <= i < |ListSectors(companies, sectors)| && ListSectors(companies, sectors)[i].sector.code == code
  {
    var rows := ListSectors(companies, sectors);
    var k :| 0 <= k < |sectors| && Codes(sectors)[k] == code;
    var i := PermutedIndex(SectorsOf(rows), sectors, k);
    assert rows[i].sector.code == code;
  }

  /** Where a row of a table went in a permutation of it. */
  lemma PermutedIndex(listed: seq<Sector>, sectors: seq<Sector>, k: int) returns (i: int)
    requires multiset(listed) == multiset(sectors)
    requires 0 <= k < |sectors|
    ensures 0 <= i < |listed| && listed[i] == sectors[k]
  {
    assert sectors[k] in multiset(sectors);
    assert sectors[k] in listed;
    i :| 0 <= i < |listed| && listed[i] == sectors[k];
  }

  /** With unique SIC codes, no two rows of the listing share a code. */
  lemma ListingCodesAreUnique(companies: seq<Company>, sectors: seq<Sector>)
    requires UniqueCodes(sectors)
    ensures forall i, j :: 0 <= i < j < |ListSectors(companies, sectors)| ==>
              ListSectors(companies, sectors)[i].sector.code != ListSectors(companies, sectors)[j].sector.code
  {
    var rows := ListSectors(companies, sectors);
    var listed := SectorsOf(rows);
    forall i, j | 0 <= i < j < |rows| ensures rows[i].sector.code != rows[j].sector.code {
      DuplicateCodeSurvives(listed, sectors, i, j);
    }
  }

  /** Two rows of a permutation of a table with unique codes cannot share a code. */
  lemma DuplicateCodeSurvives(listed: seq<Sector>, sectors: seq<Sector>, i: int, j: int)
    requires multiset(listed) == multiset(sectors)
    requires UniqueCodes(sectors)
    requires 0 <= i < j < |listed|
    ensures listed[i].code != listed[j].code
  {
    if listed[i].code == listed[j].code {
      assert listed[i] in multiset(sectors) && listed[j] in multiset(sectors);
      var a :| 0 <= a < |sectors| && sectors[a] == listed[i];
      var b :| 0 <= b < |sectors| && sectors[b] == listed[j];
      if listed[i] == listed[j] {
        TwiceInMultiset(listed, i, j);
        OnceInMultiset(sectors, a);
      }
    }
  }

  /** An element at two positions occurs at least twice in the multiset. */
  lemma {:induction false} TwiceInMultiset<T>(s: seq<T>, i: int, j: int)
    requires 0 <= i < j < |s| && s[i] == s[j]
    ensures multiset(s)[s[i]] >= 2
  {
    assert s == s[..i] + [s[i]] + s[i + 1..j] + [s[j]] + s[j + 1..];
  }

  /** With unique codes, every row of the sector table occurs exactly once. */
  lemma {:induction false} OnceInMultiset(sectors: seq<Sector>, a: int)
    requires UniqueCodes(sectors)
    requires 0 <= a < |sectors|
    ensures multiset(sectors)[sectors[a]] == 1
  {
    assert sectors == sectors[..a] + [sectors[a]] + sectors[a + 1..];
    NotIn(sectors[..a], sectors[a]);
    NotIn(sectors[a + 1..], sectors[a]);
    var prefix, suffix := sectors[..a], sectors[a + 1..];
    forall j | 0 <= j < |prefix| ensures prefix[j].code != sectors[a].code {
      assert prefix[j] == sectors[j];
    }
    forall j | 0 <= j < |suffix| ensures suffix[j].code != sectors[a].code {
      assert suffix[j] == sectors[a + 1 + j];
    }
  }

  /** A row whose code no element of `part` has is not in `part`. */
  lemma NotIn(part: seq<Sector>, x: Sector)
    ensures (forall j :: 0 <= j < |part| ==> part[j].code != x.code) ==> multiset(part)[x] == 0
  {
  }

  /** The Apple example: the lookups by CIK and by code find the one row of each table. */
  lemma AppleLookups()
    ensures var companies := [Company(320193, "AAPL", "Apple Inc.", 3571)];
            var sectors := [Sector(3571, "ELECTRONIC COMPUTERS")];
            && CikSector(companies, 320193) == Some(3571)
            && SectorName(sectors, 3571) == Some("ELECTRONIC COMPUTERS")
            && CompanyInfo(companies, 320193) == Some(Company(320193, "AAPL", "Apple Inc.", 3571))
  {
    var companies := [Company(320193, "AAPL", "Apple Inc.", 3571)];
    assert FirstWithCik(companies, 320193, 0);
  }

  /** The Apple example: sector 3571 lists Apple, and 99999 is an unknown sector. */
  lemma AppleSectorCiks()
    ensures var companies := [Company(320193, "AAPL", "Apple Inc.", 3571)];
            var sectors := [Sector(3571, "ELECTRONIC COMPUTERS")];
            && SectorCiks(companies, sectors, 3571) == Ok([320193])
            && SectorCiks(companies, sectors, 99999) == Err(UnknownSector(99999, [3571]))
  {
    var companies := [Company(320193, "AAPL", "Apple Inc.", 3571)];
    var sectors := [Sector(3571, "ELECTRONIC COMPUTERS")];
    assert Codes(sectors) == [3571];
    assert CiksIn(companies, 3571) == [320193];
    assert SortBy([320193], Id) == [320193];
    assert Dedup([3571]) == [3571];
    assert AvailableCodes(sectors) == [3571];
  }
}
