# Internship listings: extraction and cleaning, modelled in Dafny

The system scrapes internship listings from a paginated job board. It runs in two stages.

- **Extraction** (`extract.py`) requests result pages 1 to 5 in order. For each page answered with status 200, every listing element appends one value to each of four module-level lists: `titles`, `links`, `descriptions` and `opened_dates`. A missing field appends the sentinel `'N/A'`. A found href is prefixed with `https://myjobmag.co.ke`. At the end the four lists are packaged as the single columnar record of `internships`.
- **Cleaning** (`clean.py`, `clean_data`) takes the columnar records through four pandas steps. It explodes them into one row per position, labels the rows 1..N, turns every cell exactly equal to `'N/A'` into null, and drops every row that holds a null. Any exception is caught, and the spreadsheet is written only when every step succeeds.

The model has four modules, one file each:

- `records.dfy` (`Records`): the `Option` and `Result` wrappers, the sentinel, and the columnar record `Aggregate`.
- `extract.dfy` (`Extract`): the page and listing loops. The module-level lists become the fields of a `Scraper` class, mutated by `AppendListing` (one listing), `ProcessPage` (one page) and `Package`. `Scrape` drives them over pages 1..5. Each method is proved against specification functions: `ListingEntry`, `PageEntries`, `RunEntries` (entries in page-then-listing order) and `Columns` (the columnar record of a run of entries).
- `clean.dfy` (`Clean`): `clean_data` as composed pure functions, one per pandas step (`Explode`, `ResetIndex`, `ShiftIndex`, `ReplaceSentinel`, `DropNulls`), combined in `CleanData`, with lemmas about counts, order, labels and filtering.
- `pipeline.dfy` (`Pipeline`): the two stages composed. The record is passed directly to the cleaner. Lemmas here state what survives end to end.

`extract.py` never writes `data.json`; it only prints the result at line 54. The model therefore connects the stages by passing the record directly (`Pipeline.ScrapeAndClean`).

`CleanData` is a function of its input, so running the cleaning twice on the same records gives the same rows and labels. No separate lemma is needed for that.

Details of the code that the model follows:

- The title is the text of the listing's `h2` element.
- The extractor only prints its record; it does not write a file.
- The pause (`time.sleep`) runs once per listing, inside the listing loop.
- The explode follows pandas' multi-column explode, which the code relies on. A list's element count is its length, but an empty list counts as one and explodes to a single null cell. Four empty lists explode to one all-null row, which the drop then removes. An empty list beside one-element lists is not a count mismatch; its null cell drops that row.
- A decoded file with no record at all has no columns to explode. The explode raises, and this is modelled as the `MissingColumns` error.

## Model

| member | source | states |
|---|---|---|
| Extract.ListingEntries | extract.py:25-41 | one entry per listing, in document order: entry k is listing k's |
| Extract.Columns | extract.py:25-41 | the columnar record of a run of entries has four lists of equal length, as long as the run |
| Extract.ListingEntryFields | extract.py:26-41 | title, description and date are the found text, or exactly `'N/A'` when not found; the link is origin + href when an href is found, else `'N/A'` |
| Extract.LinkTextPrefix | extract.py:30-33 | a found href is prefixed unconditionally: the link starts with the origin and the rest of it is the href unchanged |
| Extract.ColumnsAt | extract.py:25-41 | alignment: position k of each of the four lists holds the field of listing k |
| Extract.ColumnsAppend | extract.py:25-41 | appending a run of entries appends each field's values to its own list, and nothing else |
| Extract.RunEntriesSnoc | extract.py:21-41 | one more page appends exactly that page's entries |
| Extract.RunEntriesAppend | extract.py:12-45 | the entries of consecutive page runs concatenate in page order |
| Extract.RunEntriesLength | extract.py:12-45 | the number of entries is the sum of listing counts over the pages answered with 200 only |
| Extract.FailedPageSkipped | extract.py:21-45 | a non-200 page contributes nothing, and the pages after it are processed as if it had not been requested |
| Extract.RunEntriesAt | extract.py:12-25 | page-then-listing order: listing j of successful page i sits right after all listings of the earlier successful pages |
| Extract.Scraper.constructor | extract.py:6-10 | all accumulator lists start empty |
| Extract.Scraper.AppendListing | extract.py:26-41 | one listing grows each of the four lists by exactly one value, keeps them equal in length, and leaves `internships` alone |
| Extract.Scraper.ProcessPage | extract.py:21-45 | a 200 page appends its listings' entries in document order; any other page appends nothing; lengths stay equal |
| Extract.Scraper.Package | extract.py:47-52 | `internships` gains one record whose four fields are the four lists |
| Extract.Scrape | extract.py:12-52 | the run ends with exactly one record: the columns of the entries of pages 1..5, with equal list lengths equal to the listing count of the successful pages |
| Clean.ElementCount | clean.py:9 | a non-empty list explodes to its length in rows, and an empty list to exactly one row |
| Clean.ExplodeRecord | clean.py:9 | a record explodes to as many rows as its element count; N >= 1 equal-length lists give N rows, row k taking element k of every list; four empty lists give one all-null row |
| Clean.Explode | clean.py:9 | fails with no records, and fails on a count mismatch in any record, in exactly those cases; otherwise its rows are the records' rows, record after record |
| Clean.ExplodeAllLength | clean.py:9 | the explode yields as many rows as the records' element counts add up to |
| Clean.ExplodeAllAppend | clean.py:9 | the rows of consecutive runs of records concatenate in record order |
| Clean.ExplodeSingle | clean.py:8-9 | a single record explodes to exactly its own rows |
| Clean.ResetIndex | clean.py:9 | after the reset, the labels are 0..N-1 in order, on unchanged rows |
| Clean.ShiftIndex | clean.py:10 | every label moves by the offset; rows are unchanged |
| Clean.IndicesOneToN | clean.py:9-10 | before filtering, row k carries label k + 1 |
| Clean.Nullify | clean.py:11 | a cell becomes null iff it is null or exactly `'N/A'`; any other cell is unchanged |
| Clean.ReplaceSentinel | clean.py:11 | the replacement keeps length and labels and nulls sentinel cells row by row |
| Clean.DropNulls | clean.py:12 | a row is kept iff it has no null cell; nothing is added |
| Clean.DropNullsKeepsOrder | clean.py:12 | dropping keeps the survivors' labels and their relative order |
| Clean.CleanData | clean.py:6-18 | it fails iff the file is not read, holds no record, or some record has mismatched counts; on success no row holds a null |
| Clean.ReplacedAt | clean.py:9-11 | the table before the drop holds exploded row k, sentinels nulled, with label k + 1 |
| Clean.CleanRowsIncreasing | clean.py:9-12 | the cleaned labels strictly increase |
| Clean.CleanRowsMembers | clean.py:9-12 | each cleaned row is exploded row `label - 1` with sentinels nulled, its label is within 1..N, and it has no null |
| Clean.CleanRowsKeeps | clean.py:9-12 | exploded row k survives, with label k + 1, iff no cell of it is null after the replacement |
| Clean.CleanSingleRecordRows | clean.py:8-9 | one record with equal-length lists is cleaned through its own exploded rows, without error |
| Clean.CleanSingleRecordKeeps | clean.py:9-12 | position k survives, labelled k + 1, iff none of its four values is `'N/A'` |
| Clean.CleanSingleRecordMembers | clean.py:9-12 | every survivor is a sentinel-free position, labelled by its position from 1 |
| Clean.CleanSingleRecord | clean.py:7-12 | one record with equal lengths N cleans without error to at most N rows. Labels increase, with gaps where rows were dropped. Survivors are exactly the sentinel-free positions. For N = 0 nothing is kept |
| Clean.EveryRowHasSentinel | clean.py:11-12 | the two-row record where every row holds a sentinel yields zero rows |
| Clean.SentinelFreeRowKept | clean.py:9-12 | the sentinel-free one-row record yields that single row, labelled 1 |
| Clean.DroppedRowLeavesGap | clean.py:10-12 | dropping a middle row leaves labels 1 and 3; labels are not renumbered |
| Clean.OnlyExactSentinelNulled | clean.py:11 | only the exact string `'N/A'` is nulled; differently-cased, padded or empty strings pass through |
| Clean.UnequalListsFail | clean.py:9-18 | lists of different lengths make the cleaning fail, so nothing is exported |
| Clean.EmptyListBesideSingletons | clean.py:9-12 | an empty list beside one-element lists is no error; its null cell drops the row |
| Pipeline.SentinelRoundTrip | extract.py:26-41 | the cleaner's replacement recovers the found value or its absence, unless the found text was literally `'N/A'` |
| Pipeline.LinkNeverNulled | extract.py:30-33 | a found href never becomes null after cleaning; the prefixed link passes through |
| Pipeline.ListingCompleteIff | extract.py:26-41 | a listing has no sentinel iff all four fields were found and no found text is literally `'N/A'` |
| Pipeline.ExtractThenClean | clean.py:8-12 | cleaning the extracted record never fails; it keeps exactly the sentinel-free entries, labelled by position from 1, in order |
| Pipeline.ScrapeAndClean | extract.py:47-54 | extraction then cleaning never fails; the rows are the sentinel-free listings of the successful pages, labelled by page-then-listing position, in order |

## Left out

- HTTP fetching is not modelled: the page URL, the User-Agent header and `requests.get` (extract.py:13-19). A page request is the parameter `fetch`, which gives each page's status and listings. Network exceptions, which the extractor does not catch, are not modelled.
- HTML parsing is not modelled: `BeautifulSoup`, `find_all`, `find`, `has_attr` and `get_text(strip=True)` (extract.py:22-40). Each field lookup arrives already resolved, as an optional string. The three texts arrive already stripped. The href is the attribute value as written.
- The pause `time.sleep(response.elapsed...)` (extract.py:43) is a timing side effect with no effect on the data.
- Console output is not modelled (extract.py:45,54; clean.py:13,16,18). Cleaning errors are a `CleanError` value, not printed text.
- Reading the JSON file and writing the spreadsheet (clean.py:8,15) are file I/O. The input is the decoded list of records, or `None` when it cannot be read. The output is the labelled rows that would be written.
- Decoded files whose records lack one of the four keys, or hold non-list or non-string values, are not modelled. The input type always holds four lists of strings.
- pandas' float NaN is modelled as `None` in an `Option` cell; dtypes are not modelled.
