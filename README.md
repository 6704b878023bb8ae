# Jobinja and JobVision scrapers, modelled in Dafny

This project models the core of a small collection of job-board scrapers and
proves properties of that model. The scrapers are:

- `f_new7.py`: the Jobinja listing scraper. It has two modes:
  - a "new jobs only" scan, which walks listing pages and stops after five
    duplicates of a reference list;
  - a full scan, which saves every page's jobs together with an optional
    existing file.
- `Updater_table.py`: the link-file updater. It copies an old output file into
  a new one, then scrapes every input link and inserts its row above the copied
  rows. It aborts on the first link that is already known.
- `table2.py`: the resumable link scraper. It scrapes the links of an input
  sheet in order, saves its position after each link and backs up the output
  every fifth link. It can resume from the saved position.
- `jobvision1.py`: the JobVision scraper that drives a Playwright browser. It
  reads result pages and appends each page's records. It replaces the browser
  every 20 pages and stops at 1200 records.
- `jobvision2.py`: the JobVision scraper that drives Selenium. It has the same
  page loop, with its own field extraction and state file.

The browser, the file system and the stop button become parameters:

- **Site** (Jobinja listing): the pages it lists, whether the first page opens,
  the page count reported on each page, and whether "next" works from a page.
- **Extractor oracles** (link scrapers): each attempt at a link yields a record
  or raises.
- **Responses** (JobVision): a sequence with one entry consumed per page load.
  Past its end, every load fails.
- **Stop flag**: a predicate on the loop position, read where the program
  checks its flag.
- **Files**: sheets given as sequences of rows of cell texts. A worksheet that
  the program changes in place is the class `Worksheets.Sheet`.

Modules follow the program's files:

- `Text` and `Percent`: Python string operations and `urllib.parse.unquote`.
- `Worksheets`: the openpyxl worksheet.
- `JobinjaListing` and `JobinjaCrawl`: `f_new7.py`.
- `LinkUpdater`: `Updater_table.py`.
- `ResumableScraper`: `table2.py`.
- `JobvisionBrowser`: `jobvision1.py`.
- `JobvisionDriver`: `jobvision2.py`.
- `Steps`: a page loop seen as a step function iterated once per page load.
  Each JobVision loop is specified by the snapshot `After(s0, …, n)` it
  reaches after `n` loads; `BelowCap` says every load was made below 1200
  records.

Behaviour worth knowing:

- The "new jobs only" scan counts every duplicate it meets, not only
  consecutive ones. Five duplicates anywhere end the scan.
- The job slug is the text between the first and the second "/jobs/" of the
  link (`split('/jobs/')[1]`), not everything after the first one.
- `Updater_table.py` aborts the run on a known link; it does not skip it.

## Model

| member | source | states |
|---|---|---|
| Text.JoinSplit | f_new7.py:57 | `str.split` loses nothing: joining the parts with the separator gives the string back |
| Text.SplitPartsFree | f_new7.py:57 | no part of a split contains the separator |
| Text.StripIdempotent | Updater_table.py:153 | stripping a stripped text changes nothing |
| Text.StripEdges | Updater_table.py:153 | `strip()` removes exactly the leading and trailing whitespace and keeps the middle |
| Text.LowerIdempotent | f_new7.py:87-88 | lower-casing twice is lower-casing once |
| Text.IntDecimalRoundTrip | f_new7.py:124 | the decimal text of a page number reads back as that number |
| Percent.Unquote | f_new7.py:63 | decoding never lengthens the text, and each decoded unit comes from one to three characters |
| Percent.UnquoteNoPercent | f_new7.py:63 | text without '%' decodes to itself |
| Percent.UnquoteEncode | f_new7.py:63 | every "%XX" escape decodes to the byte it names |
| Worksheets.ColumnsAttained | Updater_table.py:151 | `max_column` is the width of some row unless it is the minimum 1 |
| Worksheets.DataRows | Updater_table.py:239 | rows from row 2 on, each padded to `max_column` |
| Worksheets.RawLinksMembers | table2.py:296 | a link is collected exactly when some data row has it non-empty in its last column |
| Worksheets.RawLinksPrefix | table2.py:296 | only the last cells of the data rows decide the links collected |
| Worksheets.WithCellCells | Updater_table.py:598 | writing a cell sets that cell and no other |
| Worksheets.Sheet.Append | Updater_table.py:210 | `ws.append` puts the row after every existing row |
| Worksheets.Sheet.InsertRow | Updater_table.py:579 | `insert_rows` moves the rows from the index down by one and leaves an empty row there |
| Worksheets.Sheet.SetCell | Updater_table.py:598 | `ws.cell(row, column, value)` as a change to the rows |
| JobinjaListing.ExtractJobSlug | f_new7.py:48-66 | a link without "/jobs/" is its own slug |
| JobinjaListing.SlugOfListingLink | f_new7.py:55-63 | a listing link `…/jobs/id/title?query`, title without '/' or '?', yields `unquote(title)`, percent-encoded titles included; a title without '%' yields its own characters |
| JobinjaListing.IsDuplicateIff | f_new7.py:68-95 | a job is a duplicate exactly when one of the first `n` known jobs has the same slug, the same title and company ignoring case, or the same link |
| JobinjaListing.IsDuplicatePrefixOnly | f_new7.py:79 | known jobs past the first `n` never change the answer |
| JobinjaListing.LinkRuleSubsumed | f_new7.py:91-93 | the full-link rule never decides alone: equal links already have equal slugs |
| JobinjaListing.GetPageUrl | f_new7.py:120-124 | every page URL starts with the listing's base URL |
| JobinjaListing.PageUrlRoundTrip | f_new7.py:120-124 | the page number can be read back from every page URL |
| JobinjaListing.PageUrlInjective | f_new7.py:120-124 | different pages have different URLs |
| JobinjaListing.Combine | f_new7.py:304 | a save writes the existing rows, if any, followed by the new data |
| JobinjaCrawl.NewOrCounted | f_new7.py:389-395 | every scraped job is either kept as new or counted as a duplicate |
| JobinjaCrawl.NewOnlyMembers | f_new7.py:389-395 | a job is kept exactly when it was scraped and is not a duplicate |
| JobinjaCrawl.NewOnlyAppend | f_new7.py:389-395 | classifying page after page is classifying their concatenation |
| JobinjaCrawl.CountDupsAppend | f_new7.py:389-393 | the duplicate count adds up across pages |
| JobinjaCrawl.ClassifyPage | f_new7.py:389-395 | the jobs of a page are examined in order, and the page is abandoned exactly at the job on which the match counter reaches 5 |
| JobinjaCrawl.ScanPage | f_new7.py:385-401 | after a page, the new jobs and the count are those of every job seen so far, and the save holds the new jobs followed by the reference list; when the count reaches 5, the last job looked at is the duplicate that reached it, so no later job of the page is seen |
| JobinjaCrawl.ScanPages | f_new7.py:351-409 | the scan reads pages 1 to `pagesRead` in order, and it ends by exactly one of these: no first page, page bound, five duplicates, stop, empty page or a failed "next"; on five duplicates the scan stops at the duplicate that reached the cap |
| JobinjaCrawl.ScrapeNewJobs | f_new7.py:330-410 | the new jobs are the non-duplicates among all jobs seen, the count is at most 5, and each way the scan can end is stated; when the cap is reached, the jobs after the fifth duplicate are not examined |
| JobinjaCrawl.NewJobsAreNew | f_new7.py:389-395 | every kept job was seen and is not a duplicate of the first five reference jobs |
| JobinjaCrawl.AdvancedPages | f_new7.py:478-510 | every page passed was not stopped and not empty, and was left through a working "next" |
| JobinjaCrawl.MaxSeenMonotone | f_new7.py:513-518 | the page bound never goes down as the scan advances |
| JobinjaCrawl.ScrapeAllPages | f_new7.py:448-520 | the collected jobs are those of pages 1 to `pagesRead`; the last save is the existing rows plus all of them; the status names the last page; each way the scan can end is stated |
| JobinjaCrawl.CrawledGrows | f_new7.py:500-501 | the jobs of the first `m` pages are a prefix of those of the first `n`, for `m <= n` |
| JobinjaCrawl.PartialPage | f_new7.py:389-393 | the jobs seen at the cap lie between the jobs of the pages before and the jobs of the whole page |
| LinkUpdater.HeadersDistinct | Updater_table.py:130-136 | the 14 header names are pairwise distinct, and "URL" is the last |
| LinkUpdater.ShapeRowRecordOf | Updater_table.py:198-216 | a row read back as a record and appended again is the same row |
| LinkUpdater.RecordOfShapeRow | Updater_table.py:207 | an appended row keeps each header's value, with "N/A" for the missing ones |
| LinkUpdater.RecordRowIsShape | Updater_table.py:582-598 | the inline cell writer writes the row `append_data` would, with the link as URL |
| LinkUpdater.Placeholder | Updater_table.py:552-569 | the placeholder record has every header: the link for URL, the "not extracted" mark elsewhere |
| LinkUpdater.PlaceholderRow | Updater_table.py:552-598 | the placeholder row is 13 "not extracted" marks and the link |
| LinkUpdater.FirstSuccess | Updater_table.py:539-550 | the first attempt that yields non-empty data, with every attempt before it failing |
| LinkUpdater.ExtractWithRetry | Updater_table.py:539-550 | at most 3 attempts, stopping at the first that yields data; without data after 3 attempts there is none |
| LinkUpdater.LinkSetMembers | Updater_table.py:151-154 | a link is known exactly when some data row has it, stripped, in a non-empty last cell |
| LinkUpdater.ReadInputLinks | Updater_table.py:179-196 | a missing input file is an error; otherwise the links are the stripped non-empty last cells of rows 2 on, in order |
| LinkUpdater.GetExistingLinks | Updater_table.py:138-159 | a missing file has no links; otherwise the set of stripped non-empty last cells |
| LinkUpdater.AppendData | Updater_table.py:198-216 | the record's row, shaped by the headers, goes after every existing row |
| LinkUpdater.CopyExistingData | Updater_table.py:218-247 | a missing source copies nothing; otherwise a new sheet with the header row and then the source's data rows |
| LinkUpdater.CopyKeepsLinks | Updater_table.py:218-247 | the copy knows the same links as its source when the source is at least as wide as the header row |
| LinkUpdater.PlaceRecord | Updater_table.py:579-598 | the row lands at the given row, and the rows from there on move down by one |
| LinkUpdater.WriteLink | Updater_table.py:535-606 | one link's row is placed just below the rows written before it and above the copied rows |
| LinkUpdater.AcceptedLinks | Updater_table.py:522-533 | the written links were each checked with the stop flag clear, were not known, and are pairwise distinct |
| LinkUpdater.ProcessLinks | Updater_table.py:515-606 | new rows go in link order between the header and the copied rows, and the loop ends on stop, on a known link or after the last link |
| LinkUpdater.RunProcessing | Updater_table.py:473-617 | each early exit (copy, browser, input, no links) happens exactly when its condition holds, and otherwise the link loop finishes, stops or meets a duplicate that was not stopped; the output on each path is header, written rows, copied rows; written links are new and pairwise distinct |
| ResumableScraper.LoadStatus | table2.py:177-188 | the saved position when the status is for this input file and names an existing output file, else 0 |
| ResumableScraper.StatusRoundTrip | table2.py:164-184 | a status saved by a run reads back as its position |
| ResumableScraper.StatusOtherInput | table2.py:182-185 | a status saved for another input file is ignored |
| ResumableScraper.FirstResultMeans | table2.py:225-274 | no data exactly when all 3 attempts raise; otherwise the data of the first attempt that does not raise |
| ResumableScraper.ExtractData | table2.py:225-274 | at most 3 attempts, returning the first one that loads |
| ResumableScraper.DataRow | table2.py:354-359 | a scraped row is the 13 fields followed by the link |
| ResumableScraper.FailureRow | table2.py:361-364 | a failure row is 11 "N/A", two failure notes and the link |
| ResumableScraper.FailureRowOnlyOnFailure | table2.py:352-364 | a link gets the failure row only when extraction failed, or when its fields coincide with the failure marks |
| ResumableScraper.RowsAt | table2.py:338-367 | the `k`-th row written is the row for link `start + k` |
| ResumableScraper.RowsSplit | table2.py:338-367 | a run stopped at a position and resumed there writes the same rows as one run |
| ResumableScraper.BackupsMembers | table2.py:370-371 | a backup follows exactly the processed positions that are multiples of 5 |
| ResumableScraper.BackupsIncreasing | table2.py:370-371 | backups come in increasing position order |
| ResumableScraper.BackupsCount | table2.py:370-371 | one backup per multiple of 5 crossed |
| ResumableScraper.ScrapeLink | table2.py:352-364 | a link's row is its data row, or the failure row when all attempts failed |
| ResumableScraper.EffectsStep | table2.py:342-371 | one more link: output saved, position after it saved, backup at a multiple of 5, one more delay unless first |
| ResumableScraper.UnstoppedAll | table2.py:338-340 | no stop was requested before any processed link |
| ResumableScraper.ScrapeNext | table2.py:342-371 | the link's row is appended, and the file, status and backups are updated |
| ResumableScraper.ScrapeFrom | table2.py:338-371 | from the start position the rows are appended in link order until the end or a stop, and the effects of each link are stated |
| ResumableScraper.RunScraping | table2.py:288-383 | each early exit; the start position; the output file then holds its previous rows plus one row per processed link; the status file after a stop or a completed run; the backups and delays |
| ResumableScraper.ResumeContinues | table2.py:303-371 | resuming after a stop reads back the stop position, and the output ends as one uninterrupted run would leave it |
| JobvisionBrowser.ExtractJobData | jobvision1.py:181-220 | a card that raises gives no record; otherwise the record has the page, a salary other than "N/A", and status Urgent exactly when the urgent tag is present |
| JobvisionBrowser.SalaryChoice | jobvision1.py:196-212 | the salary is the span text, else the block's last segment when it names an amount, else "Negotiable" |
| JobvisionBrowser.FallbackSalaryIsSegment | jobvision1.py:204 | a block salary contains no '&#124;' and no surrounding whitespace |
| JobvisionBrowser.LinkDropsQuery | jobvision1.py:184-185 | for a present, non-empty `href` the link joins the part of `href` before its first '?'; a missing or empty `href` gives "N/A" |
| JobvisionBrowser.Batch | jobvision1.py:154-162 | a page's records all carry that page, and the batch is empty exactly when every card raised |
| JobvisionBrowser.CollectBatch | jobvision1.py:154-162 | the card loop keeps every extracted record in card order |
| JobvisionBrowser.LoadState | jobvision1.py:56-64 | the stored state, else page 1 with no records, also for a state file that fails to load |
| JobvisionBrowser.Scraper.constructor | jobvision1.py:40-46 | no browser, and the state loaded from the state file |
| JobvisionBrowser.Scraper.InitBrowser | jobvision1.py:81-109 | a new browser with the session count reset |
| JobvisionBrowser.Scraper.CloseBrowser | jobvision1.py:111-120 | the browser is closed and nothing else changes |
| JobvisionBrowser.Scraper.ScrapePage | jobvision1.py:122-179 | relaunches at 20 pages; succeeds exactly when the page loads with cards; a non-empty batch is appended, advances the state, saves it and counts for the session |
| JobvisionBrowser.Scraper.NextPage | jobvision1.py:237-250 | one loop pass: a successful load appends exactly the batch of the page the state named, and the state, output, state file, session count and browsers move as one page step says, a browser that reached 20 pages being replaced |
| JobvisionBrowser.Scraper.LoadNext | jobvision1.py:237-240 | page load `k` takes the loop from its snapshot after `k` loads to the one after `k + 1`, made below 1200 records |
| JobvisionBrowser.Scraper.ScrapeWhileShort | jobvision1.py:237-250 | the state, output, state file, session count and browsers are those after `calls` page steps; every load was made with fewer than 1200 records saved (`BelowCap`); the loop ends on a failed page, and a successful last load leaves 1200 or more |
| JobvisionBrowser.Scraper.Run | jobvision1.py:232-259 | a failed first launch ends the run before any page with nothing changed; otherwise the state, output and state file are those after `calls` page steps from the first browser, every load made below 1200 records and a successful last load leaving 1200 or more; every load before the last succeeded; records come in page order and match the saved count; once the page has moved the state file holds the state, and until then it is untouched; browsers launched are 1 plus one per 20 pages advanced |
| JobvisionBrowser.Scraper.RunLaunched | jobvision1.py:235-250 | from the first browser, the state, output and state file are those after `calls` page steps; every load was made below 1200 records and a successful last load leaves 1200 or more; records come in page order and match the saved count; browsers launched are 1 plus one per 20 pages advanced |
| Steps.AllBelowMeans | jobvision1.py:237 | `BelowCap` means that the saved count before each of the loads made was below the cap |
| Steps.IterateKeeps | jobvision1.py:237-250 | a property of the starting snapshot that every page step keeps holds after any number of page loads |
| JobvisionBrowser.AfterGrown | jobvision1.py:164-167 | after any number of page steps the page and the saved count have only grown, the count by the records appended, and the output is the old output followed by records in page order; once the page has moved the state file holds the state, and until then it is untouched |
| JobvisionBrowser.AfterSessions | jobvision1.py:246-250 | after any number of page steps from a fresh browser, the pages advanced are 20 per browser launched plus the open browser's pages, fewer than 20 |
| Steps.ServedLoads | jobvision1.py:237-240 | every page load the loop went past succeeded (used by both JobVision loops) |
| JobvisionBrowser.ExtendsAppend | jobvision1.py:164-167 | appending a page's batch keeps the output an extension in page order |
| JobvisionBrowser.SessionCount | jobvision1.py:246-250 | the session count is the pages advanced modulo 20, and the completed browsers their quotient |
| JobvisionDriver.SafeExtract | jobvision2.py:84-91 | the element's text, or the default when the element is missing or its text is empty |
| JobvisionDriver.ExtractJobData | jobvision2.py:93-121 | a card that raises gives no record; otherwise the record has the page, a salary other than "N/A", and an urgent or normal status |
| JobvisionDriver.UrgentIff | jobvision2.py:114 | urgent exactly when the urgent tag has a text other than "" and "N/A" |
| JobvisionDriver.SalaryChoice | jobvision2.py:102-113 | the salary is the span text, else the block's last segment when it names an amount, else "negotiable" |
| JobvisionDriver.LinkDropsQuery | jobvision2.py:96-100 | when `href` is not "N/A" the link is the site address followed by the part of `href` before its first '?'; when it is "N/A" the link is "N/A" |
| JobvisionDriver.LinkHasNoQuery | jobvision2.py:96-100 | no link contains '?' |
| JobvisionDriver.Batch | jobvision2.py:139-143 | a page's records all carry that page, and the batch is empty exactly when every card raised |
| JobvisionDriver.CollectBatch | jobvision2.py:139-143 | the card loop keeps every extracted record in card order |
| JobvisionDriver.SaveToExcel | jobvision2.py:62-79 | a write keeps the readable records and adds the batch, returning the new count; a failed write returns 0 and leaves the file |
| JobvisionDriver.SaveKeepsRecords | jobvision2.py:62-76 | a successful save keeps the old records first and ends with the batch; an unreadable file keeps only the batch |
| JobvisionDriver.LoadState | jobvision2.py:41-49 | the stored state, page 1 with nothing saved when there is no file, an error for an unreadable file |
| JobvisionDriver.Crawl.ScrapePage | jobvision2.py:123-153 | succeeds exactly when the page loads with cards; a non-empty batch is saved, and the state takes the returned count and the next page |
| JobvisionDriver.AfterKept | jobvision2.py:145-148 | after any number of page steps the page has not gone back, the processed URLs are unchanged, and once the page has moved the saved count is the file's length or 0 and the state file holds the state; until then the state file is untouched |
| JobvisionDriver.Crawl.LoadNext | jobvision2.py:161-164 | page load `k` takes the loop from its snapshot after `k` loads to the one after `k + 1`, on the page the state names |
| JobvisionDriver.Crawl.RunCrawl | jobvision2.py:160-164 | the state, output and state file are those after `calls` page steps; every load was made with fewer than 1200 saved; the loop ends on a failed page, and a successful last load leaves 1200 or more; each load before the last succeeded; the saved count is the file's length or 0; the state file holds the state once the page has moved and is untouched otherwise |
| JobvisionDriver.RunMain | jobvision2.py:155-175 | an unreadable state file, and then a browser that fails to start, each end the run before any page; otherwise the page loop runs from the loaded state, the state file and the file's records, with the guarantees of the loop, and the state file ends as the resume point: the final state once the page has moved |

## Left out

- The Tk user interfaces, logging, progress reporting and message boxes.
- Pausing (a wait that returns to the same point). The stop flag is a predicate
  read where the program reads it.
- The "Scheduled" mode of `Updater_table.py`, which sleeps and repeats forever.
  Only one "Immediate" pass is modelled.
- Sleeps, random delays and user-agent choice. `table2.py`'s delays are
  counted, not timed.
- Timestamps in records, in status files and in backup file names.
- File formats (pickle, JSON, xlsx) and their exact encoding. Files are their
  rows or records.
- Failures while writing files. The model assumes every save succeeds, except
  `jobvision2.py`'s `save_to_excel`, whose failure is a parameter because it
  changes the saved count.
- Browser setup and its failures inside each fetch. Each browser-backed step
  is an oracle result. A failing setup before the first page is a flag
  (`browserOk` in `Updater_table.py` and `table2.py`, `launchOk` for
  `jobvision1.py`'s first browser, `driverOk` for `jobvision2.py`).
- JobvisionBrowser.Scraper.Run: a browser that fails to relaunch, after 20
  pages or inside `scrape_page`, is not modelled; every relaunch succeeds.
- JobinjaListing.IsDuplicate: reference cells are always text. In the
  program an empty Title or Company cell of the reference file reads as NaN
  and a numeric one as a number. `.lower()` raises on either
  (f_new7.py:87-88), and the scan's handler (f_new7.py:424-426) then saves
  its status and ends the scan. The model compares such cells as text and
  the scan goes on (JobinjaCrawl.ScrapeNewJobs).
- The outer exception handlers beyond the error paths modelled.
- The CSS and XPath selectors of each page. A page is the elements they find.
- The UTF-8 step of `unquote`. Decoded bytes above 0x7F stay raw bytes. For
  the slug rule of `is_duplicate` this means two differences. A slug written
  with literal non-ASCII characters and the same slug in %-escapes are equal
  after the program's `unquote` but different in the model. Escapes of
  different invalid UTF-8 bytes all become U+FFFD in the program, so they
  compare equal there; the model keeps them apart.
- Case folding outside ASCII in `str.lower`.
- `urljoin` in `jobvision1.py`, which is a parameter.
- The `new_jobs` status file of `f_new7.py`, and the status removal at the end
  of the scan.
- The backup copies of `f_new7.py`'s `save_data`.
- JobvisionBrowser.Scraper.Run: when a loaded page yields no record at all,
  the program stays on the same page and reloads it. Each reload here
  consumes the next response, so the model's run always ends.
- JobvisionDriver.Crawl.RunCrawl: the same reload happens in `jobvision2.py`
  (jobvision2.py:145-150). A page with cards but no record returns success
  without moving the page. The model again consumes the next response.
- `processed_urls` in `jobvision2.py`'s state. The program never changes it,
  and the model only carries it along.
- ResumableScraper.LoadStatus: the saved `last_index` is a natural number,
  which is what the program writes. A negative value in a hand-edited status
  file is not modelled.
- LinkUpdater.CopyKeepsLinks: proved only for old files at least as wide as
  the 14 header columns. For a narrower file the copy's last column is a
  different column.
