# Sector index: a Dafny model

This project models the company/sector classification index of `src/sector_utils.py`. The index maps SEC company identifiers (CIKs) to SIC (Standard Industrial Classification) industry codes and industry titles. It draws on two reference tables:

- a company table with rows (CIK, ticker, title, industry); the industry may be missing on a raw row;
- a sector table with rows (SIC code, industry title).

The tables are loaded lazily. Each loader fills a cache on its first call and returns the cached table after that. The company loader drops the rows whose industry is missing. The queries are lookups over the loaded tables:

- the sorted CIKs of a sector; an unknown SIC code is an error that carries the code and a preview of the valid codes;
- the sector of a CIK;
- the title of a sector;
- the number of companies in a sector;
- the listing of all sectors with company counts;
- the full row of a CIK.

Files:

- `sorting.dfy` (module `Sorting`): a stable insertion sort by an integer key, and the order-preserving removal of duplicates.
- `tables.dfy` (module `Tables`): the raw and loaded row types, the company loader's normalisation (`DropMissingIndustry`), and the first-match lookup.
- `queries.dfy` (module `Queries`): each query as a function of the loaded tables, with the lemmas that relate the queries to each other.
- `index.dfy` (module `Index`): class `SectorIndex`. It holds the two caches as nullable fields (`Option`). Its load methods fill them once, and each query method loads what it needs and then answers from the cache, in the order the source uses.

Reading a reference file is outside the model. Each method that may read a file takes as a parameter the rows that a read would return at that call. Ghost counters record how often each file has been read, and ghost fields record the rows that the read returned. The object invariant keeps each counter at most one and each cache equal to the normalised rows of its one read. So once a table is cached, a later call answers from it even if the file would now read differently.

## Model

| member | source | states |
|---|---|---|
| `Tables.DropMissingIndustry` | src/sector_utils.py:30-34 | the loaded table holds exactly the raw rows whose industry is present, each with that industry as an integer, and is no longer than the raw table |
| `Tables.DropKeepsEveryOccurrence` | src/sector_utils.py:32-34 | `dropna` keeps duplicates: each loaded row occurs exactly as often as its raw form with the industry present |
| `Tables.FirstWhere` | src/sector_utils.py:99-104 | `df[mask].iloc[0]`: the position of the first row satisfying the mask, none exactly when no row does, and no earlier row satisfies it |
| `Tables.FirstCikIndex` | src/sector_utils.py:99-104 | the position of the first company row with the CIK, or none exactly when no row has it |
| `Tables.FirstLoadedRow` | src/sector_utils.py:32-34 | dropping the rows without an industry does not change which row a CIK lookup finds: it is the first raw row with that CIK and a present industry |
| `Sorting.SortBy` | src/sector_utils.py:80 | the result is a permutation of the input (same multiset) in non-decreasing key order |
| `Sorting.Dedup` | src/sector_utils.py:73 | `unique()`: the result has no duplicates and holds exactly the elements of the input |
| `Sorting.SortDistinctIsStrict` | src/sector_utils.py:73 | sorting a duplicate-free list of integers gives a strictly ascending list |
| `Queries.AvailableCodes` | src/sector_utils.py:73 | the distinct SIC codes of the sector table, strictly ascending, holding exactly the codes of the table |
| `Queries.Preview` | src/sector_utils.py:73-74 | the error preview has at most 10 codes, is strictly ascending, and holds only table codes; every table code it leaves out is larger than all of them, and then it has exactly 10 |
| `Queries.SectorCiks` | src/sector_utils.py:72-80 | an error exactly when the code is not in the sector table; the error carries the code and the preview; on success the list is ascending, is a permutation of the CIKs of the rows with that industry, and holds a CIK exactly when such a row has it; it may be empty |
| `Queries.CiksIn` | src/sector_utils.py:77 | a CIK is in the filtered list exactly when some company row with that industry has it |
| `Queries.HasCode` | src/sector_utils.py:72 | the membership test of the code in the SIC column: true exactly when some sector row has that code |
| `Queries.CountIn` | src/sector_utils.py:164 | the size of an industry's group: at most the number of company rows, 0 exactly when no row has that industry, and all of them exactly when every row has it |
| `Queries.CountMatchesCiks` | src/sector_utils.py:164 | the group size of an industry equals the length of its filtered CIK list |
| `Queries.UniqueCiksGiveStrictList` | src/sector_utils.py:77-80 | when CIKs are unique, a successful `SectorCiks` is strictly ascending (no duplicates) |
| `Queries.SectorCompanyCount` | src/sector_utils.py:146 | fails exactly when the code is unknown, with the same error as `SectorCiks`; otherwise it is the number of company rows with that industry |
| `Queries.CountIsLengthOfCiks` | src/sector_utils.py:146 | the count is the length of the CIK list, and the two fail in the same cases with the same error |
| `Queries.CompanyInfo` | src/sector_utils.py:189-200 | none exactly when no row has the CIK; otherwise the first row with that CIK |
| `Queries.CikSector` | src/sector_utils.py:98-104 | none exactly when no row has the CIK; otherwise the industry of the first row with that CIK |
| `Queries.InfoAgreesWithCikSector` | src/sector_utils.py:196-200 | the `industry` of the company info is what the CIK-to-sector lookup returns, and both are absent together |
| `Queries.LoadedRowRoundTrip` | src/sector_utils.py:98-104 | with unique CIKs, every loaded row is found again by its CIK (its industry and the row itself), and a known sector of the row lists its CIK |
| `Queries.CikSectorIsListed` | src/sector_utils.py:77-80 | the sector found for a CIK, when it is a known code, lists that CIK |
| `Queries.DroppedRowsAreInvisible` | src/sector_utils.py:32-34 | a CIK whose raw rows all lack an industry is found by no lookup and listed in no sector |
| `Queries.SectorName` | src/sector_utils.py:122-128 | none exactly when the code is not in the sector table; otherwise the title of the first row with that code |
| `Queries.WithCounts` | src/sector_utils.py:164-169 | the left merge: one row per sector row, in order, each with the number of company rows in its industry (0 when there are none) |
| `Queries.ListSectors` | src/sector_utils.py:160-171 | one row per sector table row (a permutation of the table), ordered by SIC code, each with the number of company rows in its industry |
| `Queries.ListedCountIsSectorCount` | src/sector_utils.py:164-169 | every count in the listing equals `SectorCompanyCount` for its code |
| `Queries.ListedCountsCoverClassified` | src/sector_utils.py:164-169 | with unique SIC codes, the counts of the listing add up to the number of company rows whose industry is a code of the table; rows with an unknown industry count nowhere |
| `Queries.ListingCoversEveryCode` | src/sector_utils.py:168 | every code of the sector table has a row in the listing |
| `Queries.ListingCodesAreUnique` | src/sector_utils.py:168-171 | with unique SIC codes, no two rows of the listing share a code |
| `Queries.AppleLookups` | tests/unit_tests/test_sector_utils.py:27-45 | for the Apple row and sector 3571: the CIK lookup gives 3571, the title lookup gives "ELECTRONIC COMPUTERS", and the company info is the full row |
| `Queries.AppleSectorCiks` | tests/unit_tests/test_sector_utils.py:22-72 | sector 3571 lists exactly 320193, and 99999 is an unknown sector whose preview is [3571] |
| `Index.SectorIndex.constructor` | src/sector_utils.py:13-15 | both caches start empty and no file has been read |
| `Index.SectorIndex.LoadCompanies` | src/sector_utils.py:24-35 | the first call reads the company file once and caches its rows without the ones that lack an industry; later calls return the cache unchanged, read nothing and ignore what the file holds now; the sector cache is untouched |
| `Index.SectorIndex.LoadIndustries` | src/sector_utils.py:38-47 | the first call reads the SIC file once and caches its rows; later calls return the cache unchanged, read nothing and ignore what the file holds now; the company cache is untouched |
| `Index.SectorIndex.GetSectorCiks` | src/sector_utils.py:68-80 | loads both tables (the cached ones, or the given file rows on a first load), then answers `SectorCiks` on them |
| `Index.SectorIndex.GetCikSector` | src/sector_utils.py:98-104 | loads only the company table, then answers `CikSector` on it; the sector cache is untouched |
| `Index.SectorIndex.GetSectorName` | src/sector_utils.py:122-128 | loads only the sector table, then answers `SectorName` on it; the company cache is untouched |
| `Index.SectorIndex.GetSectorCompanyCount` | src/sector_utils.py:146 | the length of `GetSectorCiks`, with its error passed through: `SectorCompanyCount` on the loaded tables |
| `Index.SectorIndex.ListAvailableSectors` | src/sector_utils.py:160-171 | loads the sector table then the company table, then answers `ListSectors` on them |
| `Index.SectorIndex.GetCompanyInfo` | src/sector_utils.py:189-200 | loads only the company table, then answers `CompanyInfo` on it; the sector cache is untouched |
| `Index.RepeatedQueriesAgree` | src/sector_utils.py:26-35 | the same queries asked twice give the same answers even when the files would read differently the second time; each file is read exactly once; on a fresh index the answers come from the first read |

## Left out

- Reading the CSV files and finding their paths (`_get_data_path`, `pd.read_csv`, src/sector_utils.py:18-21, 28-29, 42-43) is file I/O. The rows a read returns are parameters of the load and query methods.
- Header cleanup of the SIC table (stripping whitespace and U+FEFF from column names, src/sector_utils.py:45) is left out. So are the `astype(int)` conversions (lines 31, 34, 46). The model takes integer columns as given.
- A load that fails part-way is not modelled. In the source, a failing conversion after `read_csv` leaves a half-normalised table in the cache (line 29 assigns before converting). Load-time failures are outside the model.
- The text of the `ValueError` message, including its trailing `...` (line 74), is not modelled. The error is a value carrying the code and the preview list.
- Concurrent first calls are not modelled, because the source does not guard its caches. The model is single-threaded.
- The SIC table's columns other than code and title (the docstring also names an "Office" column) are not carried. The listing row holds the sector row and its count.
- `Queries.ListSectors`: the source sorts with pandas' default `sort_values`, which is not stable, so rows with equal SIC codes come out in no particular order. The model sorts stably. Its contract says nothing about the order among equal codes.
- The scripts `src/10_index_basics.py` to `src/50_standardize_statements.py` call an external filings library. They are not part of this model.

## Notes

- `SectorCiks` keeps duplicate CIKs, because the code sorts the filtered CIKs without removing duplicates (src/sector_utils.py:80). `Queries.UniqueCiksGiveStrictList` shows that the list is strictly ascending when CIKs are unique.
- The source never checks that CIKs or SIC codes are unique. Only the lemmas that need uniqueness require it.
