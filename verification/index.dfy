/**
  The sector index as the program holds it: two caches that start empty and
  are filled on first use, then reused unchanged.

  Reading a reference file is outside the model: every method that may read
  one takes, as a parameter, the rows that a read would return at that call.
  The ghost counters record how many times each file has actually been read,
  and the ghost fields `companiesRead` and `industriesRead` the rows that the
  one read returned; the object invariant keeps each counter at most one and
  each cache equal to the normalised rows of its read. A later call whose
  file would now read differently still answers from the first read.
 */
module Index {
  import opened Tables
  import opened Queries

  /** The cached value when there is one, otherwise the newly loaded one. */
  function Cached<T>(cache: Option<T>, loaded: T): (r: T)
    ensures cache.Some? ==> r == cache.value
    ensures cache.None? ==> r == loaded
  {
    if cache.Some? then cache.value else loaded
  }

  class SectorIndex {
    /** The cached company table (`None` until the first load). */
    var companies: Option<seq<Company>>
    /** The cached sector table (`None` until the first load). */
    var industries: Option<seq<Sector>>

    /** How many times the company file has been read. */
    ghost var companyFileReads: nat
    /** How many times the SIC code file has been read. */
    ghost var industryFileReads: nat
    /** The rows the company file read returned. */
    ghost var companiesRead: seq<RawCompany>
    /** The rows the SIC code file read returned. */
    ghost var industriesRead: seq<Sector>

    /** Each cache is empty until its file is read, then holds the normalised rows of that one read. */
    ghost predicate Valid()
      reads this
    {
      && (companies.None? <==> companyFileReads == 0) && companyFileReads <= 1
      && (companies.Some? ==> companies.value == DropMissingIndustry(companiesRead))
      && (industries.None? <==> industryFileReads == 0) && industryFileReads <= 1
      && (industries.Some? ==> industries.value == industriesRead)
    }

    /** The process start: both caches are empty and nothing has been read. */
    constructor ()
      ensures Valid()
      ensures companies == None && industries == None
      ensures companyFileReads == 0 && industryFileReads == 0
    {
      companies := None;
      industries := None;
      companyFileReads := 0;
      industryFileReads := 0;
      companiesRead := [];
      industriesRead := [];
    }

    /**
      `_load_companies_data`: on the first call, reads the company file (whose
      rows are `file`) and caches it without the rows whose industry is
      missing; on later calls, returns the cache untouched, reads nothing and
      ignores `file`.
     */
    method LoadCompanies(file: seq<RawCompany>) returns (table: seq<Company>)
      requires Valid()
      modifies this
      ensures Valid()
      ensures companies == Some(table) && companyFileReads == 1
      ensures old(companies).None? ==> table == DropMissingIndustry(file) && companiesRead == file
      ensures old(companies).Some? ==>
                table == old(companies).value && companyFileReads == old(companyFileReads) && companiesRead == old(companiesRead)
      ensures industries == old(industries) && industryFileReads == old(industryFileReads) && industriesRead == old(industriesRead)
    {
      if companies.None? {
        companyFileReads := companyFileReads + 1;
        companiesRead := file;
        companies := Some(DropMissingIndustry(file));
      }
      table := companies.value;
    }

    /**
      `_load_industries_data`: on the first call, reads the SIC code file
      (whose rows are `file`) and caches it; on later calls, returns the cache
      untouched, reads nothing and ignores `file`.
     */
    method LoadIndustries(file: seq<Sector>) returns (table: seq<Sector>)
      requires Valid()
      modifies this
      ensures Valid()
      ensures industries == Some(table) && industryFileReads == 1
      ensures old(industries).None? ==> table == file && industriesRead == file
      ensures old(industries).Some? ==>
                table == old(industries).value && industryFileReads == old(industryFileReads) && industriesRead == old(industriesRead)
      ensures companies == old(companies) && companyFileReads == old(companyFileReads) && companiesRead == old(companiesRead)
    {
      if industries.None? {
        industryFileReads := industryFileReads + 1;
        industriesRead := file;
        industries := Some(file);
      }
      table := industries.value;
    }

    /** `get_sector_ciks`, after loading both tables. */
    method GetSectorCiks(companiesFile: seq<RawCompany>, industriesFile: seq<Sector>, code: int) returns (r: Result<seq<int>>)
      requires Valid()
      modifies this
      ensures Valid() && companyFileReads == 1 && industryFileReads == 1
      ensures companies == Some(Cached(old(companies), DropMissingIndustry(companiesFile)))
      ensures industries == Some(Cached(old(industries), industriesFile))
      ensures r == SectorCiks(companies.value, industries.value, code)
    {
      var companies := LoadCompanies(companiesFile);
      var industries := LoadIndustries(industriesFile);
      r := SectorCiks(companies, industries, code);
    }

    /** `get_cik_sector`, after loading the company table. */
    method GetCikSector(companiesFile: seq<RawCompany>, cik: int) returns (r: Option<int>)
      requires Valid()
      modifies this
      ensures Valid() && companyFileReads == 1
      ensures companies == Some(Cached(old(companies), DropMissingIndustry(companiesFile)))
      ensures industries == old(industries) && industryFileReads == old(industryFileReads) && industriesRead == old(industriesRead)
      ensures r == CikSector(companies.value, cik)
    {
      var companies := LoadCompanies(companiesFile);
      r := CikSector(companies, cik);
    }

    /** `get_sector_name`, after loading the sector table. */
    method GetSectorName(industriesFile: seq<Sector>, code: int) returns (r: Option<string>)
      requires Valid()
      modifies this
      ensures Valid() && industryFileReads == 1
      ensures industries == Some(Cached(old(industries), industriesFile))
      ensures companies == old(companies) && companyFileReads == old(companyFileReads) && companiesRead == old(companiesRead)
      ensures r == SectorName(industries.value, code)
    {
      var industries := LoadIndustries(industriesFile);
      r := SectorName(industries, code);
    }

    /** `get_sector_company_count`: the length of `GetSectorCiks`, failing when it fails. */
    method GetSectorCompanyCount(companiesFile: seq<RawCompany>, industriesFile: seq<Sector>, code: int) returns (r: Result<nat>)
      requires Valid()
      modifies this
      ensures Valid() && companyFileReads == 1 && industryFileReads == 1
      ensures companies == Some(Cached(old(companies), DropMissingIndustry(companiesFile)))
      ensures industries == Some(Cached(old(industries), industriesFile))
      ensures r == SectorCompanyCount(companies.value, industries.value, code)
    {
      var ciks := GetSectorCiks(companiesFile, industriesFile, code);
      CountIsLengthOfCiks(companies.value, industries.value, code);
      match ciks
      case Err(e) => r := Err(e);
      case Ok(list) => r := Ok(|list|);
    }

    /** `list_available_sectors`, after loading the sector table and then the company table. */
    method ListAvailableSectors(companiesFile: seq<RawCompany>, industriesFile: seq<Sector>) returns (rows: seq<SectorCount>)
      requires Valid()
      modifies this
      ensures Valid() && companyFileReads == 1 && industryFileReads == 1
      ensures companies == Some(Cached(old(companies), DropMissingIndustry(companiesFile)))
      ensures industries == Some(Cached(old(industries), industriesFile))
      ensures rows == ListSectors(companies.value, industries.value)
    {
      var industries := LoadIndustries(industriesFile);
      var companies := LoadCompanies(companiesFile);
      rows := ListSectors(companies, industries);
    }

    /** `get_company_info`, after loading the company table. */
    method GetCompanyInfo(companiesFile: seq<RawCompany>, cik: int) returns (r: Option<Company>)
      requires Valid()
      modifies this
      ensures Valid() && companyFileReads == 1
      ensures companies == Some(Cached(old(companies), DropMissingIndustry(companiesFile)))
      ensures industries == old(industries) && industryFileReads == old(industryFileReads) && industriesRead == old(industriesRead)
      ensures r == CompanyInfo(companies.value, cik)
    {
      var companies := LoadCompanies(companiesFile);
      r := CompanyInfo(companies, cik);
    }
  }

  /**
    Asking the same questions twice gives the same answers, even when the
    reference files would read differently the second time: the second round
    reads no file and answers from the tables cached by the first. On a fresh
    index, the answers are those of the files as the first round read them.
   */
  method RepeatedQueriesAgree(index: SectorIndex, code: int, cik: int,
                              companiesFile1: seq<RawCompany>, industriesFile1: seq<Sector>,
                              companiesFile2: seq<RawCompany>, industriesFile2: seq<Sector>)
      returns (first: Result<seq<int>>, second: Result<seq<int>>, sector1: Option<int>, sector2: Option<int>)
    requires index.Valid()
    modifies index
    ensures index.Valid()
    ensures first == second && sector1 == sector2
    ensures index.companyFileReads == 1 && index.industryFileReads == 1
    ensures old(index.companies).None? && old(index.industries).None? ==>
              && first == SectorCiks(DropMissingIndustry(companiesFile1), industriesFile1, code)
              && sector1 == CikSector(DropMissingIndustry(companiesFile1), cik)
  {
    first := index.GetSectorCiks(companiesFile1, industriesFile1, code);
    sector1 := index.GetCikSector(companiesFile1, cik);
    second := index.GetSectorCiks(companiesFile2, industriesFile2, code);
    sector2 := index.GetCikSector(companiesFile2, cik);
  }
}
