/**
 * The Selenium JobVision scraper (`jobvision2.py`): result pages are read
 * one after another from the saved page on; each page's job cards become
 * records appended to the output file, and the saved state takes the
 * file's new record count and the next page. The loop ends at the first
 * page that fails or once the saved count reaches 1200.
 *
 * The browser is replaced by what it would show: each page load consumes
 * the next entry of a sequence of responses (an exhausted sequence reads
 * as a failed load); whether each write of the output file succeeds is a
 * parameter indexed by the page load.
 */
module JobvisionDriver {
  import opened Wrappers
  import opened Text
  import opened Steps

  const MaxRecords: nat := 1200
  const NotAvailable := "N/A"
  const Site := "https://jobvision.ir"
  /** "negotiable", "urgent" and "normal". */
  const Negotiable := "توافقی"
  const Urgent := "فوری"
  const Normal := "معمولی"
  /** The salary keywords: "million" and "toman". */
  const Million := "میلیون"
  const Toman := "تومان"

  // ---------------------------------------------------------------------
  // Records

  /**
   * `safe_extract`: the element's text (or attribute value), or `default`
   * when the element is missing (`found` is `None`) or the text is empty.
   * The text is taken as it is, unstripped.
   */
  function SafeExtract(found: Option<string>, default: string): (r: string)
    ensures r == default || (found.Some? && r == found.value)
    ensures found.Some? && found.value != "" ==> r == found.value
    ensures default != "" ==> r != ""
  {
    if found.Some? && found.value != "" then found.value else default
  }

  /**
   * A job card as the page shows it: for the link's `href` and for the
   * title, company, location, salary span, salary block and urgent tag,
   * the text found, or `None` when there is no such element.
   */
  datatype Card = Card(href: Option<string>, title: Option<string>, company: Option<string>,
                       location: Option<string>, salary: Option<string>, salaryBlock: Option<string>,
                       urgentTag: Option<string>)

  /** One record of the output file (the extraction timestamp is not modelled). */
  datatype Job = Job(title: string, company: string, location: string, salary: string,
                     status: string, link: string, page: nat)

  predicate NamesAmount(block: string) {
    Contains(block, Million) || Contains(block, Toman)
  }

  /** The link: the site address followed by `href` cut at its first `?`; "N/A" when `href` reads as "N/A". */
  function JobLink(href: string): string {
    if href != NotAvailable then Site + Before(href, "?") else NotAvailable
  }

  /** The salary before the "negotiable" substitution. */
  function RawSalary(card: Card): string {
    var salary := SafeExtract(card.salary, NotAvailable);
    var block := SafeExtract(card.salaryBlock, NotAvailable);
    if salary == NotAvailable && NamesAmount(block) then Strip(LastPart(block, "|")) else salary
  }

  /**
   * `extract_job_data`: the record for a card read from page `page`, or
   * `None` when reading the card raised.
   */
  function ExtractJobData(card: Option<Card>, page: nat): (job: Option<Job>)
    ensures job.None? <==> card.None?
    ensures job.Some? ==> job.value.page == page && job.value.salary != NotAvailable
    ensures job.Some? ==> job.value.status == Urgent || job.value.status == Normal
  {
    match card
    case None => None
    case Some(c) =>
      var salary := RawSalary(c);
      Some(Job(SafeExtract(c.title, NotAvailable), SafeExtract(c.company, NotAvailable),
               SafeExtract(c.location, NotAvailable),
               if salary != NotAvailable then salary else Negotiable,
               if SafeExtract(c.urgentTag, NotAvailable) != NotAvailable then Urgent else Normal,
               JobLink(SafeExtract(c.href, NotAvailable)), page))
  }

  /**
   * The status is "urgent" exactly when the urgent tag is there with a text
   * other than "" and "N/A": a tag with empty text reads as normal.
   */
  lemma {:induction false} UrgentIff(c: Card, page: nat)
    ensures ExtractJobData(Some(c), page).value.status == Urgent <==>
      c.urgentTag.Some? && c.urgentTag.value != "" && c.urgentTag.value != NotAvailable
  {
  }

  /**
   * When `href` reads as something other than "N/A", the link is the site
   * address followed by a prefix of `href` without `?`, which is all of
   * `href` or is followed by a `?`; when it reads as "N/A", so does the link.
   */
  lemma {:induction false} LinkDropsQuery(c: Card, page: nat)
    ensures var link := ExtractJobData(Some(c), page).value.link;
      var href := SafeExtract(c.href, NotAvailable);
      && (href != NotAvailable ==> exists path :: (link == Site + path && path <= href
        && (forall k :: 0 <= k < |path| ==> path[k] != '?') && (|path| < |href| ==> href[|path|] == '?')))
      && (href == NotAvailable ==> link == NotAvailable)
  {
    var href := SafeExtract(c.href, NotAvailable);
    if href != NotAvailable {
      BeforeCharSpec(href, '?');
      var path := Before(href, "?");
      assert ExtractJobData(Some(c), page).value.link == Site + path;
    }
  }

  /** A link built from an `href` contains no `?` (the site address has none). */
  lemma {:induction false} LinkHasNoQuery(c: Card, page: nat)
    ensures forall k :: 0 <= k < |ExtractJobData(Some(c), page).value.link| ==> ExtractJobData(Some(c), page).value.link[k] != '?'
  {
    var href := SafeExtract(c.href, NotAvailable);
    var link := ExtractJobData(Some(c), page).value.link;
    if href != NotAvailable {
      BeforeCharSpec(href, '?');
      var path := Before(href, "?");
      assert link == Site + path;
      forall k | 0 <= k < |link|
        ensures link[k] != '?'
      {
        if k >= |Site| {
          assert link[k] == path[k - |Site|];
        }
      }
    }
  }

  /**
   * The salary written is the span's text when it is neither missing, empty
   * nor "N/A"; otherwise the block's last segment, stripped, when the block
   * names an amount and that segment is not "N/A"; otherwise "negotiable".
   */
  lemma {:induction false} SalaryChoice(c: Card, page: nat)
    ensures var salary := ExtractJobData(Some(c), page).value.salary;
      var primary := SafeExtract(c.salary, NotAvailable);
      var block := SafeExtract(c.salaryBlock, NotAvailable);
      && (primary != NotAvailable ==> salary == primary)
      && (primary == NotAvailable && NamesAmount(block) ==>
            var segment := Strip(LastPart(block, "|"));
            salary == if segment != NotAvailable then segment else Negotiable)
      && (primary == NotAvailable && !NamesAmount(block) ==> salary == Negotiable)
  {
  }

  /** The records of a page's cards, in card order, skipping cards whose reading raised. */
  function Batch(cards: seq<Option<Card>>, page: nat): (batch: seq<Job>)
    ensures |batch| <= |cards|
    ensures forall j :: 0 <= j < |batch| ==> batch[j].page == page
    ensures batch == [] <==> forall i :: 0 <= i < |cards| ==> cards[i].None?
    decreases |cards|
  {
    if cards == [] then []
    else
      var rest := Batch(cards[..|cards| - 1], page);
      match ExtractJobData(cards[|cards| - 1], page)
      case None => rest
      case Some(job) => rest + [job]
  }

  /** `batch_data`: the loop over a page's cards that keeps every record extracted. */
  method CollectBatch(cards: seq<Option<Card>>, page: nat) returns (batch: seq<Job>)
    ensures batch == Batch(cards, page)
  {
    batch := [];
    for i := 0 to |cards|
      invariant batch == Batch(cards[..i], page)
    {
      assert cards[..i + 1][..i] == cards[..i];
      var job := ExtractJobData(cards[i], page);
      if job.Some? {
        batch := batch + [job.value];
      }
    }
    assert cards[..|cards|] == cards;
  }

  // ---------------------------------------------------------------------
  // The output file and the state

  /**
   * `save_to_excel`: the existing records (none when the file cannot be
   * read) followed by the new ones are written back, and their number is
   * returned; when the write fails the file is left as it was and 0 is
   * returned.
   */
  function SaveToExcel(file: Option<seq<Job>>, batch: seq<Job>, writeOk: bool): (r: (nat, Option<seq<Job>>))
    ensures writeOk ==> r.1 == Some(file.GetOr([]) + batch) && r.0 == |r.1.value|
    ensures !writeOk ==> r == (0, file)
  {
    if writeOk then
      var rows := file.GetOr([]) + batch;
      (|rows|, Some(rows))
    else (0, file)
  }

  /** A successful write keeps every readable record and adds the batch after them; an unreadable file loses its records. */
  lemma {:induction false} SaveKeepsRecords(file: Option<seq<Job>>, batch: seq<Job>)
    ensures var (count, written) := SaveToExcel(file, batch, true);
      && written.Some? && count == |written.value|
      && written.value[count - |batch|..] == batch
      && (file.Some? ==> written.value[..|file.value|] == file.value && count == |file.value| + |batch|)
      && (file.None? ==> written.value == batch)
  {
  }

  datatype State = State(currentPage: nat, processedUrls: set<string>, savedRecords: nat)

  datatype StateFile = Missing | Corrupt | Stored(state: State)

  datatype LoadError = StateUnreadable

  /**
   * `load_state`: the stored state, or page 1 with no URLs and no records
   * when there is no state file. An unreadable file is not caught and ends
   * the program.
   */
  function LoadState(file: StateFile): (r: Result<State, LoadError>)
    ensures r.Failure? <==> file.Corrupt?
    ensures file.Stored? ==> r == Success(file.state)
    ensures file.Missing? ==> r == Success(State(1, {}, 0))
  {
    match file
    case Missing => Success(State(1, {}, 0))
    case Corrupt => Failure(StateUnreadable)
    case Stored(s) => Success(s)
  }

  /** A page load's response, whose cards are this scraper's job cards. */
  type Load = Steps.Load<Option<Card>>

  /** What the page loop changes: the state, the output file's records and what the state file holds. */
  datatype Snapshot = Snapshot(state: State, output: Option<seq<Job>>, stateFile: StateFile)

  /** The records a page load yields: the batch of the page, or nothing when the load fails. */
  function Appended(load: Load, pageNum: nat): (batch: seq<Job>)
    ensures forall j :: 0 <= j < |batch| ==> batch[j].page == pageNum
  {
    if Fails(load) then [] else Batch(load.cards, pageNum)
  }

  /**
   * Saving the records `batch` of page `pageNum`: an empty batch changes
   * nothing; otherwise the output takes what the save wrote, the state
   * the count it returned and the next page, and the state is stored.
   */
  function Advance(s: Snapshot, pageNum: nat, batch: seq<Job>, writeOk: bool): Snapshot {
    if batch == [] then s
    else
      var (count, written) := SaveToExcel(s.output, batch, writeOk);
      var next := State(pageNum + 1, s.state.processedUrls, count);
      Snapshot(next, written, Stored(next))
  }

  /** What `scrape_page` on page `pageNum` does to the state and the output. */
  function PageStep(s: Snapshot, pageNum: nat, load: Load, writeOk: bool): Snapshot {
    Advance(s, pageNum, Appended(load, pageNum), writeOk)
  }


  /** Page load `k` of the loop: `scrape_page` on the page the state names, with the `k`-th response and write. */
  function LoopStep(responses: seq<Load>, writes: nat -> bool): (Snapshot, nat) -> Snapshot {
    (s: Snapshot, k: nat) => PageStep(s, s.state.currentPage, Response(responses, k), writes(k))
  }

  /** The saved-record count of a snapshot, which the loop tests against 1200. */
  function SavedCount(s: Snapshot): nat {
    s.state.savedRecords
  }

  /** The snapshot after the first `n` page loads of the loop from `s0`. */
  function After(s0: Snapshot, responses: seq<Load>, writes: nat -> bool, n: nat): Snapshot {
    Iterate(LoopStep(responses, writes), s0, n)
  }

  /** Each of the first `n` page loads was made while the saved count was below 1200. */
  predicate BelowCap(s0: Snapshot, responses: seq<Load>, writes: nat -> bool, n: nat) {
    AllBelow(LoopStep(responses, writes), s0, SavedCount, MaxRecords, n)
  }

  /**
   * Since `s0`: the page has not gone back, the processed URLs are
   * unchanged, and once the page has moved the saved count is the output
   * file's length, or 0 after a failed write, and the state file holds the
   * state; while the page has not moved, the state file is untouched.
   */
  predicate Kept(s0: Snapshot, s: Snapshot) {
    && s0.state.currentPage <= s.state.currentPage
    && s.state.processedUrls == s0.state.processedUrls
    && (s.state.currentPage > s0.state.currentPage ==>
          s.state.savedRecords == 0 || (s.output.Some? && s.state.savedRecords == |s.output.value|))
    && (s.state.currentPage > s0.state.currentPage ==> s.stateFile == Stored(s.state))
    && (s.state.currentPage == s0.state.currentPage ==> s.stateFile == s0.stateFile)
  }

  /** Saving a batch of the current page keeps `Kept`. */
  lemma StepKept(s0: Snapshot, s: Snapshot, batch: seq<Job>, writeOk: bool)
    requires Kept(s0, s)
    ensures Kept(s0, Advance(s, s.state.currentPage, batch, writeOk))
  {
  }

  /** Any number of passes of the loop keeps `Kept`. */
  lemma AfterKept(s0: Snapshot, responses: seq<Load>, writes: nat -> bool, n: nat)
    ensures Kept(s0, After(s0, responses, writes, n))
  {
    var step := LoopStep(responses, writes);
    var kept := (s: Snapshot) => Kept(s0, s);
    forall s: Snapshot, k: nat | kept(s)
      ensures kept(step(s, k))
    {
      StepKept(s0, s, Appended(Response(responses, k), s.state.currentPage), writes(k));
    }
    IterateKeeps(step, s0, kept, n);
  }

  class Crawl {
    var state: State
    var stateFile: StateFile
    /** The output file's records; `None` when it cannot be read. */
    var output: Option<seq<Job>>

    /** The fields the page loop changes, as a snapshot. */
    ghost function Current(): Snapshot
      reads this
    {
      Snapshot(state, output, stateFile)
    }

    constructor (s: State, file: StateFile, out: Option<seq<Job>>)
      ensures state == s && stateFile == file && output == out
    {
      state := s;
      stateFile := file;
      output := out;
    }

    /**
     * `scrape_page`: a failed load or a page without cards fails and
     * changes nothing. A non-empty batch is saved; the saved-record count
     * becomes what the save returned (the file's new record count, or 0
     * when the write failed), the page moves to the next one and the state
     * is stored. An empty batch changes nothing.
     */
    method ScrapePage(pageNum: nat, load: Load, writeOk: bool) returns (ok: bool)
      modifies this
      ensures ok <==> !Fails(load)
      ensures ok && Batch(load.cards, pageNum) != [] ==>
        var (count, written) := SaveToExcel(old(output), Batch(load.cards, pageNum), writeOk);
        && output == written
        && state == State(pageNum + 1, old(state.processedUrls), count)
        && stateFile == Stored(state)
      ensures !ok || Batch(load.cards, pageNum) == [] ==>
        output == old(output) && state == old(state) && stateFile == old(stateFile)
      ensures Current() == PageStep(old(Current()), pageNum, load, writeOk)
    {
      if load.LoadFailed? || load.cards == [] {
        return false;
      }
      var batch := CollectBatch(load.cards, pageNum);
      if batch != [] {
        var (count, written) := SaveToExcel(output, batch, writeOk);
        output := written;
        state := state.(savedRecords := count, currentPage := pageNum + 1);
        stateFile := Stored(state);
      }
      ok := true;
    }

    /** One turn of the page loop: page load `k`, made on the page the state names. */
    method LoadNext(ghost s0: Snapshot, responses: seq<Load>, writes: nat -> bool, k: nat) returns (ok: bool)
      requires Current() == After(s0, responses, writes, k)
      requires BelowCap(s0, responses, writes, k) && Served(responses, k) && state.savedRecords < MaxRecords
      modifies this
      ensures ok <==> !Fails(Response(responses, k))
      ensures Current() == After(s0, responses, writes, k + 1)
      ensures BelowCap(s0, responses, writes, k + 1) && (ok ==> Served(responses, k + 1))
    {
      ok := ScrapePage(state.currentPage, Response(responses, k), writes(k));
    }

    /**
     * The page loop of `main`: pages from the saved page on while the
     * saved count is below 1200, stopping at the first failing page.
     * Returns how many page loads were made. The state and the output are
     * those after that many loads; every load was made below the cap, and
     * the loop ended on a failing page or with the count at 1200 or more.
     */
    method RunCrawl(responses: seq<Load>, writes: nat -> bool) returns (calls: nat)
      modifies this
      ensures calls <= |responses| + 1
      ensures Current() == After(old(Current()), responses, writes, calls)
      ensures forall k :: 0 <= k < calls ==> After(old(Current()), responses, writes, k).state.savedRecords < MaxRecords
      ensures state.savedRecords < MaxRecords ==> calls >= 1 && Fails(Response(responses, calls - 1))
      ensures calls >= 1 && !Fails(Response(responses, calls - 1)) ==> state.savedRecords >= MaxRecords
      ensures forall k :: 0 <= k < calls - 1 ==> !Fails(Response(responses, k))
      ensures old(state.savedRecords) >= MaxRecords ==> calls == 0 && Current() == old(Current())
      ensures old(state.currentPage) <= state.currentPage
      ensures state.processedUrls == old(state.processedUrls)
      ensures state.currentPage > old(state.currentPage) ==>
        state.savedRecords == 0 || (output.Some? && state.savedRecords == |output.value|)
      ensures state.currentPage > old(state.currentPage) ==> stateFile == Stored(state)
      ensures state.currentPage == old(state.currentPage) ==> stateFile == old(stateFile)
    {
      ghost var s0 := Current();
      calls := 0;
      while state.savedRecords < MaxRecords
        invariant calls <= |responses|
        invariant Current() == After(s0, responses, writes, calls)
        invariant BelowCap(s0, responses, writes, calls)
        invariant Served(responses, calls)
        invariant s0.state.savedRecords >= MaxRecords ==> calls == 0
        decreases |responses| - calls
      {
        var ok := LoadNext(s0, responses, writes, calls);
        calls := calls + 1;
        if !ok {
          break;
        }
      }
      AllBelowMeans(LoopStep(responses, writes), s0, SavedCount, MaxRecords, calls);
      AfterKept(s0, responses, writes, calls);
      if calls > 0 {
        ServedLoads(responses, calls - 1);
      }
    }
  }

  datatype Outcome = StateUnloadable | DriverFailed | Ended(calls: nat)

  /**
   * `main`: load the state (an unreadable state file ends the program
   * before any page is read), start the browser (a failure, `driverOk`
   * false, also ends it before any page), then run the page loop from the
   * loaded state and the output file's records.
   */
  method RunMain(stateFile: StateFile, driverOk: bool, output: Option<seq<Job>>, responses: seq<Load>, writes: nat -> bool)
    returns (outcome: Outcome, crawl: Option<Crawl>)
    ensures outcome.StateUnloadable? <==> stateFile.Corrupt?
    ensures outcome.DriverFailed? <==> !stateFile.Corrupt? && !driverOk
    ensures crawl.None? <==> stateFile.Corrupt? || !driverOk
    ensures crawl.Some? ==> fresh(crawl.value) && outcome.Ended?
    ensures crawl.Some? ==>
      var s0 := Snapshot(LoadState(stateFile).value, output, stateFile);
      && crawl.value.Current() == After(s0, responses, writes, outcome.calls)
      && (forall k :: 0 <= k < outcome.calls ==> After(s0, responses, writes, k).state.savedRecords < MaxRecords)
    ensures crawl.Some? && crawl.value.state.savedRecords < MaxRecords ==>
      outcome.calls >= 1 && Fails(Response(responses, outcome.calls - 1))
    ensures crawl.Some? && outcome.calls >= 1 && !Fails(Response(responses, outcome.calls - 1)) ==>
      crawl.value.state.savedRecords >= MaxRecords
    ensures crawl.Some? ==>
      var c := crawl.value;
      && (c.state.currentPage > LoadState(stateFile).value.currentPage ==> c.stateFile == Stored(c.state))
      && (c.state.currentPage == LoadState(stateFile).value.currentPage ==> c.stateFile == stateFile)
  {
    var loaded := LoadState(stateFile);
    if loaded.Failure? {
      return StateUnloadable, None;
    }
    if !driverOk {
      return DriverFailed, None;
    }
    var c := new Crawl(loaded.value, stateFile, output);
    ghost var s0 := c.Current();
    assert s0 == Snapshot(LoadState(stateFile).value, output, stateFile);
    var calls := c.RunCrawl(responses, writes);
    assert c.Current() == After(s0, responses, writes, calls);
    return Ended(calls), Some(c);
  }
}
