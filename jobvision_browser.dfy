/**
 * The Playwright JobVision scraper (`jobvision1.py`): result pages are read
 * one after another, each page's job cards become records appended to the
 * output file, and the saved state (next page, records saved) advances
 * after every page that yields records. The browser is replaced after
 * every 20 such pages; the run ends at the first page that fails or once
 * 1200 records are saved.
 *
 * The browser is replaced by what it would show: each call to read a page
 * consumes the next entry of a sequence of responses (an exhausted sequence
 * reads as a failed load), and `join` stands for
 * `urljoin("https://jobvision.ir", ·)`.
 */
module JobvisionBrowser {
  import opened Wrappers
  import opened Text
  import opened Steps

  const MaxRecords: nat := 1200
  const PagesPerBrowser: nat := 20
  const NotAvailable := "N/A"
  const Negotiable := "Negotiable"
  const Urgent := "Urgent"
  const Normal := "Normal"
  /** The salary keywords: "million" and "toman". */
  const Million := "میلیون"
  const Toman := "تومان"

  // ---------------------------------------------------------------------
  // Records

  /**
   * A job card as the page shows it: the `href` attribute and the inner
   * texts of the title, company, location, salary span and salary block,
   * each `None` when the element or attribute is missing, and whether the
   * urgent tag is present.
   */
  datatype Card = Card(href: Option<string>, title: Option<string>, company: Option<string>,
                       location: Option<string>, salary: Option<string>, salaryBlock: Option<string>,
                       urgent: bool)

  /** One record of the output file (the extraction timestamp is not modelled). */
  datatype Job = Job(title: string, company: string, location: string, salary: string,
                     status: string, link: string, page: nat)

  /** `el.inner_text().strip() if el else "N/A"`. */
  function TextOr(el: Option<string>): string {
    if el.Some? then Strip(el.value) else NotAvailable
  }

  /** The block text names an amount: it mentions "million" or "toman". */
  predicate NamesAmount(block: string) {
    Contains(block, Million) || Contains(block, Toman)
  }

  /**
   * The salary before the "Negotiable" substitution: the salary span's
   * text, or, when that is "N/A" and the salary block names an amount, the
   * block's last `|`-separated segment, stripped.
   */
  function RawSalary(card: Card): string {
    var primary := TextOr(card.salary);
    if primary == NotAvailable && card.salaryBlock.Some? && NamesAmount(card.salaryBlock.value)
    then Strip(LastPart(card.salaryBlock.value, "|"))
    else primary
  }

  /** The link: `join` of `href` cut at its first `?`, or "N/A" for a missing or empty `href`. */
  function JobLink(href: Option<string>, join: string -> string): string {
    if href.Some? && href.value != "" then join(Before(href.value, "?")) else NotAvailable
  }

  /**
   * `extract_job_data`: the record for a card read from page `page`, or
   * `None` when reading the card raised.
   */
  function ExtractJobData(card: Option<Card>, page: nat, join: string -> string): (job: Option<Job>)
    ensures job.None? <==> card.None?
    ensures job.Some? ==> job.value.page == page && job.value.salary != NotAvailable
    ensures job.Some? ==> (job.value.status == Urgent <==> card.value.urgent)
    ensures job.Some? ==> job.value.status == Urgent || job.value.status == Normal
  {
    match card
    case None => None
    case Some(c) =>
      var salary := RawSalary(c);
      Some(Job(TextOr(c.title), TextOr(c.company), TextOr(c.location),
               if salary != NotAvailable then salary else Negotiable,
               if c.urgent then Urgent else Normal,
               JobLink(c.href, join), page))
  }

  /**
   * The salary written is the span's text when it has one other than "N/A";
   * otherwise the block's last segment when the block names an amount and
   * that segment is not "N/A"; otherwise "Negotiable".
   */
  lemma {:induction false} SalaryChoice(c: Card, page: nat, join: string -> string)
    ensures var salary := ExtractJobData(Some(c), page, join).value.salary;
      var primary := TextOr(c.salary);
      var fallback := c.salaryBlock.Some? && NamesAmount(c.salaryBlock.value);
      && (primary != NotAvailable ==> salary == primary)
      && (primary == NotAvailable && fallback ==>
            var segment := Strip(LastPart(c.salaryBlock.value, "|"));
            salary == if segment != NotAvailable then segment else Negotiable)
      && (primary == NotAvailable && !fallback ==> salary == Negotiable)
  {
  }

  /** A salary taken from the block is one segment: it contains no `|` and no surrounding whitespace. */
  lemma {:induction false} FallbackSalaryIsSegment(block: string)
    ensures !Contains(Strip(LastPart(block, "|")), "|")
    ensures var s := Strip(LastPart(block, "|")); |s| > 0 ==> !IsSpace(s[0]) && !IsSpace(s[|s| - 1])
  {
    var part := LastPart(block, "|");
    LastPartFree(block, "|");
    NotContainsChar(part, '|');
    StripPiece(part);
    StripEdges(part);
    var s, lead := Strip(part), LeadingSpace(part);
    forall k | 0 <= k < |s|
      ensures s[k] != '|'
    {
      assert s[k] == part[lead + k];
    }
    CharFreeNotContains(s, '|');
  }

  /**
   * For a present, non-empty `href` the link is `join` applied to the part
   * of `href` before its first `?`: a prefix of `href` without `?`, which is
   * all of `href` or is followed by a `?`. A missing or empty `href` gives "N/A".
   */
  lemma {:induction false} LinkDropsQuery(href: Option<string>, join: string -> string)
    ensures href.Some? && href.value != "" ==>
      exists path :: (JobLink(href, join) == join(path) && path <= href.value
        && (forall k :: 0 <= k < |path| ==> path[k] != '?') && (|path| < |href.value| ==> href.value[|path|] == '?'))
    ensures href.None? || href.value == "" ==> JobLink(href, join) == NotAvailable
  {
    if href.Some? && href.value != "" {
      BeforeCharSpec(href.value, '?');
      var path := Before(href.value, "?");
      assert JobLink(href, join) == join(path);
    }
  }

  // ---------------------------------------------------------------------
  // A page's batch

  /** The records of a page's cards, in card order, skipping cards whose reading raised. */
  function Batch(cards: seq<Option<Card>>, page: nat, join: string -> string): (batch: seq<Job>)
    ensures |batch| <= |cards|
    ensures forall j :: 0 <= j < |batch| ==> batch[j].page == page
    ensures batch == [] <==> forall i :: 0 <= i < |cards| ==> cards[i].None?
    decreases |cards|
  {
    if cards == [] then []
    else
      var rest := Batch(cards[..|cards| - 1], page, join);
      match ExtractJobData(cards[|cards| - 1], page, join)
      case None => rest
      case Some(job) => rest + [job]
  }

  /** `batch_data`: the loop over a page's cards that keeps every record extracted. */
  method CollectBatch(cards: seq<Option<Card>>, page: nat, join: string -> string) returns (batch: seq<Job>)
    ensures batch == Batch(cards, page, join)
  {
    batch := [];
    for i := 0 to |cards|
      invariant batch == Batch(cards[..i], page, join)
    {
      assert cards[..i + 1][..i] == cards[..i];
      var job := ExtractJobData(cards[i], page, join);
      if job.Some? {
        batch := batch + [job.value];
      }
    }
    assert cards[..|cards|] == cards;
  }

  // ---------------------------------------------------------------------
  // The scraper

  datatype State = State(currentPage: nat, savedRecords: nat)

  /** The state file: missing, unreadable, or a pickled state. */
  datatype StateFile = Missing | Corrupt | Stored(state: State)

  /** `load_state`: the stored state, else (no file, or a file that fails to load) page 1 with no records. */
  function LoadState(file: StateFile): (s: State)
    ensures file.Stored? ==> s == file.state
    ensures !file.Stored? ==> s.currentPage == 1 && s.savedRecords == 0
  {
    if file.Stored? then file.state else State(1, 0)
  }

  /** A page load's response, whose cards are this scraper's job cards. */
  type Load = Steps.Load<Option<Card>>

  /**
   * What the page loop changes: the state, the output file's records, what
   * the state file holds, the open browser's page count and how many
   * browsers were launched.
   */
  datatype Snapshot = Snapshot(state: State, output: seq<Job>, stateFile: StateFile, inSession: nat, launched: nat)

  /** The records a page load appends: the batch of the page, or nothing when the load fails. */
  function Appended(load: Load, page: nat, join: string -> string): (batch: seq<Job>)
    ensures forall j :: 0 <= j < |batch| ==> batch[j].page == page
  {
    if Fails(load) then [] else Batch(load.cards, page, join)
  }

  /**
   * Appending `batch`: an empty batch changes nothing; otherwise the state
   * moves to the next page with the batch's records added and is stored,
   * and the page counts for the open browser, which is replaced once it has
   * served 20.
   */
  function Advance(s: Snapshot, batch: seq<Job>): Snapshot {
    if batch == [] then s
    else
      var served := s.inSession + 1;
      var next := State(s.state.currentPage + 1, s.state.savedRecords + |batch|);
      Snapshot(next, s.output + batch, Stored(next),
               if served == PagesPerBrowser then 0 else served,
               if served == PagesPerBrowser then s.launched + 1 else s.launched)
  }

  /** A snapshot whose fields are those `Advance` gives is the snapshot `Advance` gives. */
  lemma AdvanceFields(s: Snapshot, batch: seq<Job>, t: Snapshot)
    requires batch == [] ==> t == s
    requires batch != [] ==>
      var served := s.inSession + 1;
      && t.state == State(s.state.currentPage + 1, s.state.savedRecords + |batch|)
      && t.output == s.output + batch
      && t.stateFile == Stored(t.state)
      && t.inSession == (if served == PagesPerBrowser then 0 else served)
      && t.launched == (if served == PagesPerBrowser then s.launched + 1 else s.launched)
    ensures t == Advance(s, batch)
  {
  }

  /** One pass of the loop on the page the state names. */
  function PageStep(s: Snapshot, load: Load, join: string -> string): Snapshot {
    Advance(s, Appended(load, s.state.currentPage, join))
  }

  /** The snapshot once `run` has launched its first browser. */
  function Launched(state: State, output: seq<Job>, stateFile: StateFile, browsers: nat): Snapshot {
    Snapshot(state, output, stateFile, 0, browsers + 1)
  }

  /** Page load `k` of the loop, with the `k`-th response. */
  function LoopStep(responses: seq<Load>, join: string -> string): (Snapshot, nat) -> Snapshot {
    (s: Snapshot, k: nat) => PageStep(s, Response(responses, k), join)
  }

  /** The saved-record count of a snapshot, which the loop tests against 1200. */
  function SavedCount(s: Snapshot): nat {
    s.state.savedRecords
  }

  /** The snapshot after the first `n` page loads of the loop from `s0`. */
  function After(s0: Snapshot, responses: seq<Load>, join: string -> string, n: nat): Snapshot {
    Iterate(LoopStep(responses, join), s0, n)
  }

  /** Each of the first `n` page loads was made while fewer than 1200 records were saved. */
  predicate BelowCap(s0: Snapshot, responses: seq<Load>, join: string -> string, n: nat) {
    AllBelow(LoopStep(responses, join), s0, SavedCount, MaxRecords, n)
  }

  /**
   * `s` is `s0` after some passes of the loop: the page and the saved count
   * have only grown, the count by the records appended, and the output is
   * the old output followed by records in page order from the pages passed.
   * Once the page has moved the state file holds the state; until then it
   * is untouched.
   */
  predicate Grown(s0: Snapshot, s: Snapshot) {
    && s0.state.currentPage <= s.state.currentPage
    && s0.state.savedRecords <= s.state.savedRecords
    && s.state.savedRecords - s0.state.savedRecords == |s.output| - |s0.output|
    && Extends(s0.output, s.output, s0.state.currentPage, s.state.currentPage)
    && (s.state.currentPage > s0.state.currentPage ==> s.stateFile == Stored(s.state))
    && (s.state.currentPage == s0.state.currentPage ==> s.stateFile == s0.stateFile)
  }

  /** Appending a batch of the current page keeps `Grown`. */
  lemma StepGrown(s0: Snapshot, s: Snapshot, batch: seq<Job>)
    requires Grown(s0, s)
    requires forall j :: 0 <= j < |batch| ==> batch[j].page == s.state.currentPage
    ensures Grown(s0, Advance(s, batch))
  {
    if batch != [] {
      ExtendsAppend(s0.output, s.output, batch, s0.state.currentPage, s.state.currentPage);
    }
  }

  /** Any number of passes of the loop keeps `Grown`. */
  lemma AfterGrown(s0: Snapshot, responses: seq<Load>, join: string -> string, n: nat)
    ensures Grown(s0, After(s0, responses, join, n))
  {
    var step := LoopStep(responses, join);
    var grown := (s: Snapshot) => Grown(s0, s);
    forall s: Snapshot, k: nat | grown(s)
      ensures grown(step(s, k))
    {
      StepGrown(s0, s, Appended(Response(responses, k), s.state.currentPage, join));
    }
    assert s0.output[..|s0.output|] == s0.output;
    IterateKeeps(step, s0, grown, n);
  }

  /**
   * Since `s0`: the pages advanced are 20 per browser launched plus the
   * open browser's pages, and the open browser has served fewer than 20.
   */
  predicate SessionsFrom(s0: Snapshot, s: Snapshot) {
    && s.inSession < PagesPerBrowser
    && s0.launched <= s.launched && s0.state.currentPage <= s.state.currentPage
    && s.state.currentPage - s0.state.currentPage == PagesPerBrowser * (s.launched - s0.launched) + s.inSession
  }

  /** Appending a batch keeps `SessionsFrom`. */
  lemma StepSessions(s0: Snapshot, s: Snapshot, batch: seq<Job>)
    requires SessionsFrom(s0, s)
    ensures SessionsFrom(s0, Advance(s, batch))
  {
  }

  /** From a fresh browser, any number of passes of the loop keeps `SessionsFrom`. */
  lemma AfterSessions(s0: Snapshot, responses: seq<Load>, join: string -> string, n: nat)
    requires s0.inSession == 0
    ensures SessionsFrom(s0, After(s0, responses, join, n))
  {
    var step := LoopStep(responses, join);
    var sessions := (s: Snapshot) => SessionsFrom(s0, s);
    forall s: Snapshot, k: nat | sessions(s)
      ensures sessions(step(s, k))
    {
      StepSessions(s0, s, Appended(Response(responses, k), s.state.currentPage, join));
    }
    IterateKeeps(step, s0, sessions, n);
  }

  class Scraper {
    /** `self.state`. */
    var state: State
    /** What the state file holds. */
    var stateFile: StateFile
    /** `self.pages_scraped_in_session`. */
    var pagesInSession: nat
    /** Whether `self.page` is set. */
    var hasPage: bool
    /** The records of the output file. */
    var output: seq<Job>
    /** How many browsers were launched. */
    ghost var browsers: nat

    /** `__init__`: no browser yet, state loaded from the state file. */
    constructor (file: StateFile, existing: seq<Job>)
      ensures state == LoadState(file) && stateFile == file
      ensures pagesInSession == 0 && !hasPage && output == existing && browsers == 0
    {
      state := LoadState(file);
      stateFile := file;
      pagesInSession := 0;
      hasPage := false;
      output := existing;
      browsers := 0;
    }

    /** `init_browser`: a new browser and page, with the session's page count reset. */
    method InitBrowser()
      modifies this
      ensures hasPage && pagesInSession == 0 && browsers == old(browsers) + 1
      ensures state == old(state) && stateFile == old(stateFile) && output == old(output)
    {
      hasPage := true;
      pagesInSession := 0;
      browsers := browsers + 1;
    }

    /** `close_browser`. */
    method CloseBrowser()
      modifies this
      ensures !hasPage && pagesInSession == old(pagesInSession) && browsers == old(browsers)
      ensures state == old(state) && stateFile == old(stateFile) && output == old(output)
    {
      hasPage := false;
    }

    /**
     * `scrape_page`: a fresh browser when there is none or the current one
     * has served 20 pages; a failed load or a page without cards fails. A
     * page whose batch is not empty appends it to the output, moves the
     * state to the next page with the records added, saves the state and
     * counts the page for the session; an empty batch changes none of them.
     */
    method ScrapePage(pageNum: nat, load: Load, join: string -> string) returns (ok: bool)
      modifies this
      ensures ok <==> !Fails(load)
      ensures hasPage
      ensures var relaunch := !old(hasPage) || old(pagesInSession) >= PagesPerBrowser;
        && browsers == old(browsers) + (if relaunch then 1 else 0)
        && pagesInSession == (if relaunch then 0 else old(pagesInSession))
                             + (if ok && Batch(load.cards, pageNum, join) != [] then 1 else 0)
      ensures ok && Batch(load.cards, pageNum, join) != [] ==>
        && output == old(output) + Batch(load.cards, pageNum, join)
        && state == State(pageNum + 1, old(state.savedRecords) + |Batch(load.cards, pageNum, join)|)
        && stateFile == Stored(state)
      ensures !ok || Batch(load.cards, pageNum, join) == [] ==>
        output == old(output) && state == old(state) && stateFile == old(stateFile)
    {
      if !hasPage || pagesInSession >= PagesPerBrowser {
        InitBrowser();
      }
      if load.LoadFailed? || load.cards == [] {
        return false;
      }
      var batch := CollectBatch(load.cards, pageNum, join);
      if batch != [] {
        output := output + batch;
        state := State(pageNum + 1, state.savedRecords + |batch|);
        stateFile := Stored(state);
        pagesInSession := pagesInSession + 1;
      }
      ok := true;
    }

    /**
     * One pass of `run`'s loop with a browser that has served fewer than 20
     * pages: the current page is scraped, and a browser that has now served
     * 20 pages is replaced. `batch` is what the page added to the output.
     */
    method NextPage(load: Load, join: string -> string) returns (ok: bool, ghost batch: seq<Job>)
      requires hasPage && pagesInSession < PagesPerBrowser
      modifies this
      ensures ok <==> !Fails(load)
      ensures hasPage && pagesInSession < PagesPerBrowser && old(browsers) <= browsers
      ensures !ok ==> batch == []
      ensures ok ==> batch == Batch(load.cards, old(state.currentPage), join)
      ensures forall j :: 0 <= j < |batch| ==> batch[j].page == old(state.currentPage)
      ensures Current() == Advance(old(Current()), batch)
      ensures Current() == PageStep(old(Current()), load, join)
    {
      ghost var before := Current();
      ok := ScrapePage(state.currentPage, load, join);
      batch := if ok then Batch(load.cards, before.state.currentPage, join) else [];
      if pagesInSession >= PagesPerBrowser {
        CloseBrowser();
        InitBrowser();
      }
      assert batch == Appended(load, before.state.currentPage, join);
      AdvanceFields(before, batch, Current());
    }

    /** The fields the page loop changes, as a snapshot. */
    ghost function Current(): Snapshot
      reads this
    {
      Snapshot(state, output, stateFile, pagesInSession, browsers)
    }

    /** Page load `k` of the loop, as `NextPage` with the `k`-th response, tracked against `After`. */
    method LoadNext(ghost s0: Snapshot, responses: seq<Load>, join: string -> string, k: nat) returns (ok: bool)
      requires hasPage && pagesInSession < PagesPerBrowser
      requires Current() == After(s0, responses, join, k)
      requires BelowCap(s0, responses, join, k) && Served(responses, k) && state.savedRecords < MaxRecords
      modifies this
      ensures ok <==> !Fails(Response(responses, k))
      ensures hasPage && pagesInSession < PagesPerBrowser
      ensures Current() == After(s0, responses, join, k + 1)
      ensures BelowCap(s0, responses, join, k + 1) && (ok ==> Served(responses, k + 1))
    {
      ghost var batch;
      ok, batch := NextPage(Response(responses, k), join);
    }

    /**
     * The loop of `run`, from a freshly launched browser: pages from the
     * saved page on while fewer than 1200 records are saved, stopping at the
     * first failing page; a browser that has served 20 pages is replaced.
     */
    method ScrapeWhileShort(responses: seq<Load>, join: string -> string) returns (calls: nat)
      requires hasPage && pagesInSession < PagesPerBrowser
      modifies this
      ensures hasPage && pagesInSession < PagesPerBrowser
      ensures calls <= |responses| + 1
      ensures Current() == After(old(Current()), responses, join, calls)
      ensures BelowCap(old(Current()), responses, join, calls)
      ensures calls >= 1 && !Fails(Response(responses, calls - 1)) ==> state.savedRecords >= MaxRecords
      ensures state.savedRecords < MaxRecords ==> calls >= 1 && Fails(Response(responses, calls - 1))
      ensures calls == 0 || Served(responses, calls - 1)
      ensures old(state.savedRecords) >= MaxRecords ==> calls == 0 && Current() == old(Current())
    {
      ghost var s0 := Current();
      calls := 0;
      while state.savedRecords < MaxRecords
        invariant calls <= |responses|
        invariant hasPage && pagesInSession < PagesPerBrowser
        invariant Served(responses, calls)
        invariant Current() == After(s0, responses, join, calls)
        invariant BelowCap(s0, responses, join, calls)
        invariant s0.state.savedRecords >= MaxRecords ==> calls == 0
        decreases |responses| - calls
      {
        var ok := LoadNext(s0, responses, join, calls);
        calls := calls + 1;
        if !ok {
          break;
        }
      }
    }

    /**
     * `run` once its first browser is up: a first browser, then the pages of
     * `ScrapeWhileShort`, then the browser is closed. Returns how many page
     * loads were made.
     *
     * Within a run the browser never reaches 20 pages inside `scrape_page`:
     * the session count is the number of pages advanced modulo 20, and one
     * browser is launched per 20 pages advanced, plus the first.
     */
    method RunLaunched(responses: seq<Load>, join: string -> string) returns (calls: nat)
      modifies this
      ensures !hasPage
      ensures calls <= |responses| + 1
      ensures Current() == After(Launched(old(state), old(output), old(stateFile), old(browsers)), responses, join, calls)
      ensures forall k :: 0 <= k < calls ==>
        After(Launched(old(state), old(output), old(stateFile), old(browsers)), responses, join, k).state.savedRecords < MaxRecords
      ensures calls >= 1 && !Fails(Response(responses, calls - 1)) ==> state.savedRecords >= MaxRecords
      ensures state.savedRecords < MaxRecords ==> calls >= 1 && Fails(Response(responses, calls - 1))
      ensures forall k :: 0 <= k < calls - 1 ==> !Fails(Response(responses, k))
      ensures old(state.savedRecords) >= MaxRecords ==> calls == 0 && state == old(state) && output == old(output)
      ensures old(state.savedRecords) >= MaxRecords ==> stateFile == old(stateFile)
      ensures state.currentPage > old(state.currentPage) ==> stateFile == Stored(state)
      ensures state.currentPage == old(state.currentPage) ==> stateFile == old(stateFile)
      ensures old(state.currentPage) <= state.currentPage
      ensures old(state.savedRecords) <= state.savedRecords
      ensures |old(output)| <= |output| && output[..|old(output)|] == old(output)
      ensures state.savedRecords - old(state.savedRecords) == |output| - |old(output)|
      ensures PagesInOrder(output[|old(output)|..], old(state.currentPage), state.currentPage)
      ensures browsers == old(browsers) + 1 + (state.currentPage - old(state.currentPage)) / PagesPerBrowser
    {
      InitBrowser();
      ghost var s0 := Current();
      calls := ScrapeWhileShort(responses, join);
      CloseBrowser();
      AllBelowMeans(LoopStep(responses, join), s0, SavedCount, MaxRecords, calls);
      AfterGrown(s0, responses, join, calls);
      AfterSessions(s0, responses, join, calls);
      SessionCount(state.currentPage - s0.state.currentPage, browsers - s0.launched, pagesInSession);
      if calls > 0 {
        ServedLoads(responses, calls - 1);
      }
    }

    /**
     * `run`: when the first browser fails to launch (`launchOk` false), the
     * handler of `run` ends it before any page, and only the browser is
     * closed; otherwise `RunLaunched`.
     */
    method Run(launchOk: bool, responses: seq<Load>, join: string -> string) returns (calls: nat)
      modifies this
      ensures !hasPage
      ensures !launchOk ==>
        calls == 0 && state == old(state) && output == old(output) && stateFile == old(stateFile) && browsers == old(browsers)
      ensures calls <= |responses| + 1
      ensures launchOk ==>
        Current() == After(Launched(old(state), old(output), old(stateFile), old(browsers)), responses, join, calls)
      ensures launchOk ==> forall k :: 0 <= k < calls ==>
        After(Launched(old(state), old(output), old(stateFile), old(browsers)), responses, join, k).state.savedRecords < MaxRecords
      ensures calls >= 1 && !Fails(Response(responses, calls - 1)) ==> state.savedRecords >= MaxRecords
      ensures launchOk && state.savedRecords < MaxRecords ==> calls >= 1 && Fails(Response(responses, calls - 1))
      ensures forall k :: 0 <= k < calls - 1 ==> !Fails(Response(responses, k))
      ensures old(state.savedRecords) >= MaxRecords ==> calls == 0 && state == old(state) && output == old(output)
      ensures old(state.savedRecords) >= MaxRecords ==> stateFile == old(stateFile)
      ensures state.currentPage > old(state.currentPage) ==> stateFile == Stored(state)
      ensures state.currentPage == old(state.currentPage) ==> stateFile == old(stateFile)
      ensures old(state.currentPage) <= state.currentPage
      ensures old(state.savedRecords) <= state.savedRecords
      ensures |old(output)| <= |output| && output[..|old(output)|] == old(output)
      ensures state.savedRecords - old(state.savedRecords) == |output| - |old(output)|
      ensures PagesInOrder(output[|old(output)|..], old(state.currentPage), state.currentPage)
      ensures launchOk ==> browsers == old(browsers) + 1 + (state.currentPage - old(state.currentPage)) / PagesPerBrowser
    {
      if !launchOk {
        CloseBrowser();
        calls := 0;
        assert output[..|old(output)|] == old(output);
        return;
      }
      calls := RunLaunched(responses, join);
    }
  }

  /** The records of `jobs` come from pages `lo` to `hi - 1`, in page order. */
  predicate PagesInOrder(jobs: seq<Job>, lo: nat, hi: nat) {
    && (forall j :: 0 <= j < |jobs| ==> lo <= jobs[j].page < hi)
    && (forall i, j :: 0 <= i < j < |jobs| ==> jobs[i].page <= jobs[j].page)
  }

  /**
   * `output` is `out0` followed by records from pages `lo` to `hi - 1`, in
   * page order.
   */
  predicate Extends(out0: seq<Job>, output: seq<Job>, lo: nat, hi: nat) {
    |out0| <= |output| && output[..|out0|] == out0 && PagesInOrder(output[|out0|..], lo, hi)
  }

  /** Appending the batch of page `p` keeps the output an extension in page order. */
  lemma ExtendsAppend(out0: seq<Job>, output: seq<Job>, batch: seq<Job>, lo: nat, p: nat)
    requires Extends(out0, output, lo, p) && lo <= p
    requires forall j :: 0 <= j < |batch| ==> batch[j].page == p
    ensures Extends(out0, output + batch, lo, p + 1)
  {
    assert (output + batch)[..|out0|] == output[..|out0|];
    assert (output + batch)[|out0|..] == output[|out0|..] + batch;
    PagesInOrderAppend(output[|out0|..], batch, lo, p);
  }

  /** Appending the batch of page `p` to records in page order from earlier pages keeps them in page order. */
  lemma PagesInOrderAppend(jobs: seq<Job>, batch: seq<Job>, lo: nat, p: nat)
    requires PagesInOrder(jobs, lo, p) && lo <= p
    requires forall j :: 0 <= j < |batch| ==> batch[j].page == p
    ensures PagesInOrder(jobs + batch, lo, p + 1)
  {
  }

  /** Pages advanced as whole browsers' worth plus the current session's pages: the quotient and remainder by 20. */
  lemma SessionCount(advanced: nat, sessions: nat, inSession: nat)
    requires inSession < PagesPerBrowser && advanced == PagesPerBrowser * sessions + inSession
    ensures advanced / PagesPerBrowser == sessions && advanced % PagesPerBrowser == inSession
  {
  }
}
