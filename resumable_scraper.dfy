/**
 * The resumable link scraper (`table2.py`): every link of the input sheet
 * is scraped in order, from a saved position on when resuming, and one row
 * per link goes into the output sheet. After each link the position is
 * saved to the status file; every fifth link a backup copy is made; a run
 * that reaches the end removes the status file.
 *
 * The file system is a map from file names to sheets; the status file, the
 * browser and the stop button are parameters.
 */
module ResumableScraper {
  import opened Wrappers
  import opened Worksheets

  const NotAvailable := "N/A"
  const FailedText := "Failed to extract data"
  const MaxRetries: nat := 3
  const BackupEvery: nat := 5

  /** The 13 fields `extract_data` reads for a job page, in header order (every column but URL). */
  type Fields = f: seq<string> | |f| == |Headers| - 1 witness seq(|Headers| - 1, _ => NotAvailable)

  /**
   * The browser: attempt `a` (0-based) at loading `url` gives the page's
   * fields, or `None` when loading the page raised.
   */
  type Extractor = (string, nat) -> Option<Fields>

  // ---------------------------------------------------------------------
  // The status file

  datatype Status = Status(lastIndex: nat, outputFile: string, inputFile: string)

  /** The status file: missing, not parseable (or lacking a key), or a saved status. */
  datatype StatusFile = Absent | Unreadable | Saved(status: Status)

  /**
   * `load_status`: the saved position, when the status belongs to this
   * input file and names an output file that exists; 0 otherwise, also for
   * a missing or unreadable status file.
   */
  function LoadStatus(file: StatusFile, inputFile: string, fs: map<string, seq<Row>>): (k: nat)
    ensures k != 0 ==> file.Saved? && file.status.inputFile == inputFile && file.status.outputFile in fs
    ensures file.Saved? && file.status.inputFile == inputFile && file.status.outputFile in fs ==> k == file.status.lastIndex
    ensures !file.Saved? ==> k == 0
  {
    match file
    case Saved(status) =>
      if status.inputFile == inputFile && status.outputFile in fs then status.lastIndex else 0
    case _ => 0
  }

  /** A status saved by a run is read back as the saved position while its output file exists. */
  lemma {:induction false} StatusRoundTrip(k: nat, outputFile: string, inputFile: string, fs: map<string, seq<Row>>)
    requires outputFile in fs
    ensures LoadStatus(Saved(Status(k, outputFile, inputFile)), inputFile, fs) == k
  {
  }

  /** A status saved for another input file is ignored. */
  lemma {:induction false} StatusOtherInput(status: Status, inputFile: string, fs: map<string, seq<Row>>)
    requires status.inputFile != inputFile
    ensures LoadStatus(Saved(status), inputFile, fs) == 0
  {
  }

  // ---------------------------------------------------------------------
  // Extraction with retries

  /**
   * The result of the attempts from `attempt` on: the first attempt below
   * `MaxRetries` that loads the page, or `None` when every one raised.
   */
  function FirstResult(extract: Extractor, url: string, attempt: nat): Option<Fields>
    decreases MaxRetries - attempt
  {
    if attempt >= MaxRetries then None
    else if extract(url, attempt).Some? then extract(url, attempt)
    else FirstResult(extract, url, attempt + 1)
  }

  /**
   * There is no result exactly when every remaining attempt raised, and a
   * result is that of an attempt before which every attempt raised.
   */
  lemma {:induction false} FirstResultMeans(extract: Extractor, url: string, attempt: nat)
    ensures var r := FirstResult(extract, url, attempt);
      && (r.None? <==> forall a :: attempt <= a < MaxRetries ==> extract(url, a).None?)
      && (r.Some? ==>
            exists a :: attempt <= a < MaxRetries && extract(url, a) == r && forall b :: attempt <= b < a ==> extract(url, b).None?)
    decreases MaxRetries - attempt
  {
    if attempt < MaxRetries && extract(url, attempt).None? {
      FirstResultMeans(extract, url, attempt + 1);
    }
  }

  /**
   * `extract_data`: up to three attempts at loading the page; the first one
   * that does not raise gives the data, and after three failures there is
   * none.
   */
  method ExtractData(extract: Extractor, url: string) returns (data: Option<Fields>, attempts: nat)
    ensures data == FirstResult(extract, url, 0)
    ensures 1 <= attempts <= MaxRetries
    ensures data.Some? ==> data == extract(url, attempts - 1)
    ensures data.None? ==> attempts == MaxRetries
  {
    attempts := 0;
    while attempts < MaxRetries
      invariant attempts <= MaxRetries
      invariant FirstResult(extract, url, attempts) == FirstResult(extract, url, 0)
    {
      var result := extract(url, attempts);
      attempts := attempts + 1;
      if result.Some? {
        return result, attempts;
      }
    }
    data := None;
  }

  // ---------------------------------------------------------------------
  // Output rows

  /** The row appended for a scraped page: its 13 fields, then the link. */
  function DataRow(fields: Fields, link: string): (row: Row)
    ensures |row| == |Headers| && row[..|Headers| - 1] == fields && row[|Headers| - 1] == link
  {
    fields + [link]
  }

  /** The row appended when every attempt failed: 11 "N/A", two failure notes, then the link. */
  function FailureRow(link: string): (row: Row)
    ensures |row| == |Headers| && row[|Headers| - 1] == link
    ensures forall c :: 0 <= c < 11 ==> row[c] == NotAvailable
    ensures row[11] == FailedText && row[12] == FailedText
  {
    [NotAvailable, NotAvailable, NotAvailable, NotAvailable, NotAvailable, NotAvailable,
     NotAvailable, NotAvailable, NotAvailable, NotAvailable, NotAvailable,
     FailedText, FailedText, link]
  }

  /** The row written for `link`. */
  function RowFor(extract: Extractor, link: string): (row: Row)
    ensures |row| == |Headers| && row[|Headers| - 1] == link
  {
    match FirstResult(extract, link, 0)
    case Some(fields) => DataRow(fields, link)
    case None => FailureRow(link)
  }

  /**
   * A link gets the failure row exactly when every attempt failed, or when
   * the scraped fields happen to equal the failure row's marks.
   */
  lemma {:induction false} FailureRowOnlyOnFailure(extract: Extractor, link: string)
    ensures RowFor(extract, link) == FailureRow(link) <==> FirstResult(extract, link, 0).None? || FirstResult(extract, link, 0).value == FailureRow(link)[..|Headers| - 1]
  {
    var r := FirstResult(extract, link, 0);
    if r.Some? && RowFor(extract, link) == FailureRow(link) {
      assert DataRow(r.value, link)[..|Headers| - 1] == r.value;
    }
  }

  /** The rows written for links `lo` up to (excluding) `hi`, in link order; none when `lo == hi`, even past the last link. */
  function Rows(extract: Extractor, links: seq<string>, lo: nat, hi: nat): (rows: seq<Row>)
    requires lo <= hi && (hi <= |links| || lo == hi)
    ensures |rows| == hi - lo
    decreases hi - lo
  {
    if lo == hi then [] else Rows(extract, links, lo, hi - 1) + [RowFor(extract, links[hi - 1])]
  }

  /** Row `k` of the rows for links `lo` to `hi` is the row for link `lo + k`. */
  lemma {:induction false} RowsAt(extract: Extractor, links: seq<string>, lo: nat, hi: nat, k: nat)
    requires lo <= hi <= |links| && k < hi - lo
    ensures Rows(extract, links, lo, hi)[k] == RowFor(extract, links[lo + k])
    decreases hi - lo
  {
    if k < hi - lo - 1 {
      RowsAt(extract, links, lo, hi - 1, k);
    }
  }

  /**
   * A run stopped at `mid` and resumed from there writes the same rows, in
   * the same order, as one run over `lo` to `hi`: no link is skipped or
   * written twice.
   */
  lemma {:induction false} RowsSplit(extract: Extractor, links: seq<string>, lo: nat, mid: nat, hi: nat)
    requires lo <= mid <= hi <= |links|
    ensures Rows(extract, links, lo, mid) + Rows(extract, links, mid, hi) == Rows(extract, links, lo, hi)
    decreases hi - mid
  {
    if mid < hi {
      RowsSplit(extract, links, lo, mid, hi - 1);
      var last := [RowFor(extract, links[hi - 1])];
      assert Rows(extract, links, lo, mid) + Rows(extract, links, mid, hi)
          == (Rows(extract, links, lo, mid) + Rows(extract, links, mid, hi - 1)) + last;
    }
  }


  // ---------------------------------------------------------------------
  // Backups

  /** The positions after which a backup is made when links `lo` up to `hi` are processed: the multiples of 5 in (lo, hi]. */
  function Backups(lo: nat, hi: nat): (ks: seq<nat>)
    ensures |ks| <= hi - lo || hi < lo
    decreases hi
  {
    if hi <= lo then [] else Backups(lo, hi - 1) + (if hi % BackupEvery == 0 then [hi] else [])
  }

  /** A backup follows exactly the positions that are multiples of 5 past the start. */
  lemma {:induction false} BackupsMembers(lo: nat, hi: nat, k: nat)
    ensures k in Backups(lo, hi) <==> lo < k <= hi && k % BackupEvery == 0
    decreases hi
  {
    if hi > lo {
      BackupsMembers(lo, hi - 1, k);
    }
  }

  /** Backups come in increasing order. */
  lemma {:induction false} BackupsIncreasing(lo: nat, hi: nat)
    ensures forall i, j :: 0 <= i < j < |Backups(lo, hi)| ==> Backups(lo, hi)[i] < Backups(lo, hi)[j]
    decreases hi
  {
    if hi > lo {
      BackupsIncreasing(lo, hi - 1);
      var prev := Backups(lo, hi - 1);
      forall i | 0 <= i < |prev|
        ensures prev[i] < hi
      {
        BackupsMembers(lo, hi - 1, prev[i]);
      }
    }
  }

  /** There is one backup per multiple of 5 crossed. */
  lemma {:induction false} BackupsCount(lo: nat, hi: nat)
    requires lo <= hi
    ensures |Backups(lo, hi)| == hi / BackupEvery - lo / BackupEvery
    decreases hi
  {
    if hi > lo {
      BackupsCount(lo, hi - 1);
    }
  }

  // ---------------------------------------------------------------------
  // The run

  /** `[row[-1].value for row in ws.iter_rows(min_row=2) if row[-1].value]`: the raw non-empty last cells. */
  function InputLinks(rows: seq<Row>): seq<string> {
    RawLinks(rows, |rows|)
  }

  /** The links of the input file `name`; none when it cannot be loaded. */
  function LinksOf(fs: map<string, seq<Row>>, name: string): seq<string> {
    if name in fs then InputLinks(fs[name]) else []
  }

  /** The output sheet a run starts from: the existing file, else a new sheet holding the header row. */
  function InitialOf(fs: map<string, seq<Row>>, name: string): seq<Row> {
    if name in fs then fs[name] else [Headers]
  }

  datatype Outcome = InputUnreadable | NoLinks | BrowserFailed | Stopped(at: nat) | Completed {
    predicate Ran() { Stopped? || Completed? }
  }

  /** One link: `extract_data`, then its data row or, when that failed, its failure row. */
  method ScrapeLink(extract: Extractor, link: string) returns (row: Row)
    ensures row == RowFor(extract, link)
  {
    var data, attempts := ExtractData(extract, link);
    if data.Some? {
      row := DataRow(data.value, link);
    } else {
      row := FailureRow(link);
    }
  }

  /**
   * What the processing of links `start` up to `end` leaves behind besides
   * the sheet: the output file saved with `rows` and the status naming
   * `end` once a link was processed (else both as they were), a backup at
   * each multiple of 5 passed, and a delay before every link but the first.
   */
  predicate Effects(fs: map<string, seq<Row>>, outputName: string, inputName: string, statusIn: StatusFile,
                    start: nat, end: nat, rows: seq<Row>,
                    fsOut: map<string, seq<Row>>, status: StatusFile, backups: seq<nat>, delays: nat)
  {
    && fsOut == (if end > start then fs[outputName := rows] else fs)
    && status == (if end > start then Saved(Status(end, outputName, inputName)) else statusIn)
    && backups == Backups(start, end)
    && delays == (if end > start then end - start - 1 else 0)
  }

  /** One more processed link: save the output, save the position after it, back up at a multiple of 5. */
  lemma {:induction false} EffectsStep(fs: map<string, seq<Row>>, outputName: string, inputName: string, statusIn: StatusFile,
                                       start: nat, end: nat, rows: seq<Row>, rows': seq<Row>,
                                       fsOut: map<string, seq<Row>>, status: StatusFile, backups: seq<nat>, delays: nat)
    requires start <= end
    requires Effects(fs, outputName, inputName, statusIn, start, end, rows, fsOut, status, backups, delays)
    ensures Effects(fs, outputName, inputName, statusIn, start, end + 1, rows',
                    fsOut[outputName := rows'], Saved(Status(end + 1, outputName, inputName)),
                    backups + (if (end + 1) % BackupEvery == 0 then [end + 1] else []),
                    if end > start then delays + 1 else delays)
  {
  }

  /** No stop was requested before any of the links `start` to `end - 1`. */
  predicate Unstopped(stop: nat -> bool, start: nat, end: nat)
    decreases end
  {
    end <= start || (Unstopped(stop, start, end - 1) && !stop(end - 1))
  }

  lemma {:induction false} UnstoppedAll(stop: nat -> bool, start: nat, end: nat)
    requires Unstopped(stop, start, end)
    ensures forall i :: start <= i < end ==> !stop(i)
    decreases end
  {
    if start < end {
      UnstoppedAll(stop, start, end - 1);
    }
  }

  /**
   * One pass of `run_scraping`'s loop, for the link at position `end`: the
   * link's row is appended and the output file, the status and the backups
   * are brought up to date.
   */
  method ScrapeNext(sheet: Sheet, links: seq<string>, start: nat, end: nat, extract: Extractor,
                    fs: map<string, seq<Row>>, outputName: string, inputName: string, statusIn: StatusFile,
                    fsIn: map<string, seq<Row>>, statusNow: StatusFile, backupsIn: seq<nat>, delaysIn: nat)
    returns (fsOut: map<string, seq<Row>>, status: StatusFile, backups: seq<nat>, delays: nat)
    requires start <= end < |links|
    requires Effects(fs, outputName, inputName, statusIn, start, end, sheet.rows, fsIn, statusNow, backupsIn, delaysIn)
    modifies sheet
    ensures sheet.rows == old(sheet.rows) + [RowFor(extract, links[end])]
    ensures Effects(fs, outputName, inputName, statusIn, start, end + 1, sheet.rows, fsOut, status, backups, delays)
  {
    ghost var before := sheet.rows;
    EffectsStep(fs, outputName, inputName, statusIn, start, end, before, before + [RowFor(extract, links[end])],
                fsIn, statusNow, backupsIn, delaysIn);
    delays := delaysIn;
    if end > start {
      delays := delays + 1;
    }
    var row := ScrapeLink(extract, links[end]);
    sheet.Append(row);
    var next: nat := end + 1;
    fsOut := fsIn[outputName := sheet.rows];
    status := Saved(Status(next, outputName, inputName));
    backups := backupsIn;
    if next % BackupEvery == 0 {
      backups := backups + [next];
    }
  }

  /**
   * The loop of `run_scraping` from position `start`: before each link the
   * stop request is read; there is a delay before every link but the
   * first; the link's row is appended, the output file saved with it, the
   * position after it saved as the status, and a backup made when that
   * position is a multiple of 5.
   */
  method ScrapeFrom(sheet: Sheet, links: seq<string>, start: nat, extract: Extractor, stop: nat -> bool,
                    fs: map<string, seq<Row>>, outputName: string, inputName: string, statusIn: StatusFile)
    returns (fsOut: map<string, seq<Row>>, status: StatusFile, end: nat, backups: seq<nat>, delays: nat)
    modifies sheet
    ensures start <= end && (end <= |links| || end == start)
    ensures end < |links| ==> stop(end)
    ensures Unstopped(stop, start, end)
    ensures sheet.rows == old(sheet.rows) + Rows(extract, links, start, end)
    ensures Effects(fs, outputName, inputName, statusIn, start, end, sheet.rows, fsOut, status, backups, delays)
  {
    ghost var initial := sheet.rows;
    fsOut, status, backups, delays := fs, statusIn, [], 0;
    end := start;
    while end < |links|
      invariant start <= end && (end <= |links| || end == start)
      invariant sheet.rows == initial + Rows(extract, links, start, end)
      invariant Effects(fs, outputName, inputName, statusIn, start, end, sheet.rows, fsOut, status, backups, delays)
      invariant Unstopped(stop, start, end)
    {
      if stop(end) {
        break;
      }
      fsOut, status, backups, delays := ScrapeNext(sheet, links, start, end, extract, fs, outputName, inputName, statusIn,
                                                   fsOut, status, backups, delays);
      assert sheet.rows == initial + Rows(extract, links, start, end + 1);
      var next: nat := end + 1;
      end := next;
    }
  }

  /**
   * `run_scraping`: read the links, pick the start (the saved position when
   * resuming), open the output sheet, start the browser, then process links
   * until the end or the stop request; a run that was not stopped removes
   * the status file. Returned with the outcome: the file system and the
   * status file afterwards, the first and the end position, the backup
   * positions and the number of delays between requests.
   */
  method RunScraping(fs: map<string, seq<Row>>, inputName: string, outputName: string, resume: bool,
                     statusIn: StatusFile, browserOk: bool, extract: Extractor, stop: nat -> bool)
    returns (outcome: Outcome, fsOut: map<string, seq<Row>>, status: StatusFile,
             start: nat, end: nat, backups: seq<nat>, delays: nat)
    ensures outcome == InputUnreadable <==> inputName !in fs
    ensures outcome == NoLinks <==> inputName in fs && LinksOf(fs, inputName) == []
    ensures outcome == BrowserFailed <==> inputName in fs && LinksOf(fs, inputName) != [] && !browserOk
    ensures !outcome.Ran() ==> fsOut == fs && status == statusIn && start == end == 0 && backups == [] && delays == 0
    ensures outcome.Ran() ==> start == if resume then LoadStatus(statusIn, inputName, fs) else 0
    ensures outcome.Ran() ==> start <= end && (end <= |LinksOf(fs, inputName)| || end == start)
    ensures outcome.Ran() ==> forall i :: start <= i < end ==> !stop(i)
    ensures outcome == Completed ==> end == Max(start, |LinksOf(fs, inputName)|) && !stop(end) && status == Absent
    ensures outcome.Stopped? ==> outcome.at == end && stop(end)
    ensures outcome.Ran() && end == start ==> fsOut == fs
    ensures outcome.Ran() && end > start ==>
      fsOut == fs[outputName := InitialOf(fs, outputName) + Rows(extract, LinksOf(fs, inputName), start, end)]
    ensures outcome.Stopped? ==> status == if end > start then Saved(Status(end, outputName, inputName)) else statusIn
    ensures backups == Backups(start, end)
    ensures delays == if end > start then end - start - 1 else 0
  {
    fsOut, status, start, end, backups, delays := fs, statusIn, 0, 0, [], 0;
    if inputName !in fs {
      return InputUnreadable, fsOut, status, start, end, backups, delays;
    }
    var links := InputLinks(fs[inputName]);
    if links == [] {
      return NoLinks, fsOut, status, start, end, backups, delays;
    }
    var first := if resume then LoadStatus(statusIn, inputName, fs) else 0;
    var sheet := new Sheet(InitialOf(fs, outputName));
    if !browserOk {
      return BrowserFailed, fsOut, status, start, end, backups, delays;
    }
    start := first;
    fsOut, status, end, backups, delays := ScrapeFrom(sheet, links, start, extract, stop, fs, outputName, inputName, statusIn);
    UnstoppedAll(stop, start, end);
    if stop(end) {
      outcome := Stopped(end);
    } else {
      outcome := Completed;
      status := Absent;
    }
  }

  /**
   * After a run stopped part-way, resuming with the same input reads back
   * the position it stopped at, and the output file then holds the rows of
   * both runs in link order, as one run would have written them.
   */
  lemma {:induction false} ResumeContinues(extract: Extractor, links: seq<string>, initial: seq<Row>,
                                           start: nat, end: nat, hi: nat, outputName: string, inputName: string,
                                           fs: map<string, seq<Row>>)
    requires start < end <= hi <= |links|
    requires outputName in fs && fs[outputName] == initial + Rows(extract, links, start, end)
    ensures LoadStatus(Saved(Status(end, outputName, inputName)), inputName, fs) == end
    ensures fs[outputName] + Rows(extract, links, end, hi) == initial + Rows(extract, links, start, hi)
  {
    StatusRoundTrip(end, outputName, inputName, fs);
    RowsSplit(extract, links, start, end, hi);
  }
}
