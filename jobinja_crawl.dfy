/**
 * The two crawling loops of the Jobinja listing scraper (f_new7.py):
 * the "new jobs only" scan, which walks listing pages until it has seen
 * `MaxMatches` duplicates of the reference list, and the full scan, which
 * collects every page up to a page count it re-reads now and then.
 *
 * The browser is replaced by a `Site`: the listing each page shows, whether
 * the first page loads, the page count the paginator reports while a page
 * is shown, and whether the "next" link works from a page. The stop button
 * is a flag read once per page, before the page is scraped.
 */
module JobinjaCrawl {
  import opened Wrappers
  import opened JobinjaListing

  datatype Site = Site(pages: seq<seq<Job>>, opens: bool, reportedMax: nat -> nat, nextOk: nat -> bool)

  /** The jobs page `p` (1-based) lists; nothing past the last page. */
  function Listing(site: Site, p: nat): (jobs: seq<Job>)
    ensures jobs != [] ==> 1 <= p <= |site.pages|
  {
    if 1 <= p <= |site.pages| then site.pages[p - 1] else []
  }

  /** The jobs of pages 1 to `n`, in page order. */
  function Crawled(site: Site, n: nat): seq<Job> {
    if n == 0 then [] else Crawled(site, n - 1) + Listing(site, n)
  }

  predicate IsPrefix(a: seq<Job>, b: seq<Job>) {
    |a| <= |b| && b[..|a|] == a
  }

  /** `seen` is every job of pages 1 to `n - 1` followed by the first `taken` jobs of page `n`. */
  predicate SeenUpTo(site: Site, seen: seq<Job>, n: nat, taken: nat) {
    n > 0 && taken <= |Listing(site, n)| && seen == Crawled(site, n - 1) + Listing(site, n)[..taken]
  }

  /** The jobs up to part of page `n` lie between the jobs of the first `n - 1` pages and those of the first `n`. */
  lemma PartialPage(site: Site, n: nat, k: nat)
    requires 1 <= n && k <= |Listing(site, n)|
    ensures IsPrefix(Crawled(site, n - 1), Crawled(site, n - 1) + Listing(site, n)[..k])
    ensures IsPrefix(Crawled(site, n - 1) + Listing(site, n)[..k], Crawled(site, n))
  {
    var a := Crawled(site, n - 1);
    var page := Listing(site, n);
    assert (a + page[..k])[..|a|] == a;
    assert Crawled(site, n) == a + page;
    assert (a + page)[..|a| + k] == a + page[..k];
  }

  /** The jobs of the first `m` pages are a prefix of those of the first `n`, for `m <= n`: pages are only ever appended. */
  lemma {:induction false} CrawledGrows(site: Site, m: nat, n: nat)
    requires m <= n
    ensures IsPrefix(Crawled(site, m), Crawled(site, n))
    decreases n - m
  {
    var c := Crawled(site, n);
    if m == n {
      assert c[..|c|] == c;
    } else {
      CrawledGrows(site, m, n - 1);
      var a, b := Crawled(site, m), Crawled(site, n - 1);
      assert c[..|b|] == b;
      assert c[..|a|] == c[..|b|][..|a|];
    }
  }

  // ---------------------------------------------------------------------
  // Classifying scraped jobs against the reference list

  /** The duplicate test the scan applies: against the first five reference jobs. */
  function DupTest(reference: seq<Job>): Job -> bool {
    job => IsDuplicate(job, reference, CheckFirstN)
  }

  /** The jobs that are not duplicates, in their order. */
  function NewOnly(jobs: seq<Job>, dup: Job -> bool): (kept: seq<Job>)
    ensures |kept| <= |jobs|
    decreases |jobs|
  {
    if jobs == [] then []
    else
      var last := jobs[|jobs| - 1];
      NewOnly(jobs[..|jobs| - 1], dup) + (if dup(last) then [] else [last])
  }

  /** The number of duplicates among `jobs`. */
  function CountDups(jobs: seq<Job>, dup: Job -> bool): (n: nat)
    ensures n <= |jobs|
    decreases |jobs|
  {
    if jobs == [] then 0
    else CountDups(jobs[..|jobs| - 1], dup) + (if dup(jobs[|jobs| - 1]) then 1 else 0)
  }

  /** Every job is either new or counted as a duplicate. */
  lemma {:induction false} NewOrCounted(jobs: seq<Job>, dup: Job -> bool)
    ensures |NewOnly(jobs, dup)| + CountDups(jobs, dup) == |jobs|
    decreases |jobs|
  {
    if jobs != [] {
      NewOrCounted(jobs[..|jobs| - 1], dup);
    }
  }

  /** A job is kept exactly when it occurs among the jobs and is no duplicate. */
  lemma {:induction false} NewOnlyMembers(jobs: seq<Job>, dup: Job -> bool, job: Job)
    ensures job in NewOnly(jobs, dup) <==> job in jobs && !dup(job)
    decreases |jobs|
  {
    if jobs != [] {
      var init := jobs[..|jobs| - 1];
      NewOnlyMembers(init, dup, job);
      assert jobs == init + [jobs[|jobs| - 1]];
    }
  }

  lemma {:induction false} NewOnlyAppend(a: seq<Job>, b: seq<Job>, dup: Job -> bool)
    ensures NewOnly(a + b, dup) == NewOnly(a, dup) + NewOnly(b, dup)
    decreases |b|
  {
    if b != [] {
      var init := b[..|b| - 1];
      assert (a + b)[..|a + b| - 1] == a + init;
      NewOnlyAppend(a, init, dup);
    } else {
      assert a + b == a;
    }
  }

  lemma {:induction false} CountDupsAppend(a: seq<Job>, b: seq<Job>, dup: Job -> bool)
    ensures CountDups(a + b, dup) == CountDups(a, dup) + CountDups(b, dup)
    decreases |b|
  {
    if b != [] {
      var init := b[..|b| - 1];
      assert (a + b)[..|a + b| - 1] == a + init;
      CountDupsAppend(a, init, dup);
    } else {
      assert a + b == a;
    }
  }

  /** The match counter would reach the cap on the `k`-th job (1-based) of the page. */
  predicate CapsAt(jobs: seq<Job>, dup: Job -> bool, matchesIn: nat, k: nat)
    requires 1 <= k <= |jobs|
  {
    dup(jobs[k - 1]) && matchesIn + CountDups(jobs[..k], dup) >= MaxMatches
  }

  /**
   * The inner loop over one page's jobs: a duplicate raises the match
   * counter, and the page is abandoned as soon as the counter reaches the
   * cap; any other job joins the new jobs.
   */
  method ClassifyPage(jobs: seq<Job>, dup: Job -> bool, newIn: seq<Job>, matchesIn: nat)
    returns (newJobs: seq<Job>, matches: nat, examined: nat)
    ensures examined <= |jobs|
    ensures newJobs == newIn + NewOnly(jobs[..examined], dup)
    ensures matches == matchesIn + CountDups(jobs[..examined], dup)
    ensures forall k :: 1 <= k < examined ==> !CapsAt(jobs, dup, matchesIn, k)
    ensures examined < |jobs| ==> 1 <= examined && CapsAt(jobs, dup, matchesIn, examined)
    ensures matchesIn < MaxMatches ==> matches <= MaxMatches
    ensures matches < MaxMatches ==> examined == |jobs|
    ensures matchesIn < MaxMatches <= matches ==> 1 <= examined && CapsAt(jobs, dup, matchesIn, examined)
  {
    newJobs, matches, examined := newIn, matchesIn, 0;
    while examined < |jobs|
      invariant examined <= |jobs|
      invariant newJobs == newIn + NewOnly(jobs[..examined], dup)
      invariant matches == matchesIn + CountDups(jobs[..examined], dup)
      invariant forall k :: 1 <= k <= examined ==> !CapsAt(jobs, dup, matchesIn, k)
      invariant matchesIn < MaxMatches ==> matches < MaxMatches
    {
      var job := jobs[examined];
      ghost var before := jobs[..examined];
      ghost var after := jobs[..examined + 1];
      assert after[..examined] == before && after[examined] == job;
      assert CountDups(after, dup) == CountDups(before, dup) + (if dup(job) then 1 else 0);
      assert NewOnly(after, dup) == NewOnly(before, dup) + (if dup(job) then [] else [job]);
      if dup(job) {
        matches := matches + 1;
        examined := examined + 1;
        if matches >= MaxMatches {
          assert CapsAt(jobs, dup, matchesIn, examined);
          return;
        }
        assert !CapsAt(jobs, dup, matchesIn, examined);
      } else {
        newJobs := newJobs + [job];
        examined := examined + 1;
        assert !CapsAt(jobs, dup, matchesIn, examined);
      }
    }
  }

  // ---------------------------------------------------------------------
  // The "new jobs only" scan

  /**
   * The scan went through pages 1 to `n`: none was stopped before being
   * scraped, none was empty, and each but the last was left through a
   * working "next" link.
   */
  predicate Advanced(site: Site, stop: nat -> bool, n: nat)
    decreases n
  {
    n == 0 || (Advanced(site, stop, n - 1) && !stop(n) && Listing(site, n) != [] && (n == 1 || site.nextOk(n - 1)))
  }

  lemma {:induction false} AdvancedPages(site: Site, stop: nat -> bool, n: nat, p: nat)
    requires Advanced(site, stop, n) && 1 <= p <= n
    ensures !stop(p) && Listing(site, p) != [] && (p < n ==> site.nextOk(p))
    decreases n
  {
    if p < n {
      AdvancedPages(site, stop, n - 1, p);
    }
  }

  datatype NewScanEnd = NotOpened | PagesDone | CapReached | Stopped | EmptyPage | NoNextPage

  /**
   * Why the scan ended after reading `pagesRead` pages: the site did not
   * open (and nothing was read), the page count was reached, the stop flag
   * was set or the next page was empty, or the "next" link failed.
   */
  predicate NewScanEnded(site: Site, stop: nat -> bool, end: NewScanEnd, pagesRead: nat)
  {
    (end == NotOpened <==> !site.opens) &&
    (site.opens ==> pagesRead <= site.reportedMax(1)) &&
    match end
    case NotOpened => pagesRead == 0
    case PagesDone => pagesRead == site.reportedMax(1)
    case CapReached => true
    case Stopped => stop(pagesRead + 1)
    case EmptyPage => Listing(site, pagesRead + 1) == []
    case NoNextPage => pagesRead > 0 && !site.nextOk(pagesRead)
  }

  /**
   * One page of the scan: the page's jobs are classified, continuing the
   * match counter, until the counter reaches the cap; `taken` jobs of the
   * page were looked at.
   */
  method ScanPage(site: Site, reference: seq<Job>, dup: Job -> bool, n: nat, newIn: seq<Job>, matchesIn: nat,
                  savedIn: Option<seq<Job>>, ghost seenIn: seq<Job>)
    returns (newJobs: seq<Job>, matches: nat, saved: Option<seq<Job>>, ghost seen: seq<Job>, ghost taken: nat)
    requires 1 <= n && seenIn == Crawled(site, n - 1)
    requires newIn == NewOnly(seenIn, dup) && matchesIn == CountDups(seenIn, dup)
    requires savedIn == if newIn == [] then None else Some(newIn + reference)
    requires matchesIn < MaxMatches
    ensures newJobs == NewOnly(seen, dup) && matches == CountDups(seen, dup)
    ensures saved == if newJobs == [] then None else Some(newJobs + reference)
    ensures matches <= MaxMatches
    ensures SeenUpTo(site, seen, n, taken)
    ensures matches < MaxMatches ==> seen == Crawled(site, n)
    ensures matches == MaxMatches ==> 1 <= taken && dup(Listing(site, n)[taken - 1])
  {
    var jobs := Listing(site, n);
    var examined;
    newJobs, matches, examined := ClassifyPage(jobs, dup, newIn, matchesIn);
    seen, taken := seenIn + jobs[..examined], examined;
    NewOnlyAppend(seenIn, jobs[..examined], dup);
    CountDupsAppend(seenIn, jobs[..examined], dup);
    if matches < MaxMatches {
      assert jobs[..examined] == jobs;
    }
    saved := savedIn;
    if newJobs != [] {
      saved := Some(Combine(newJobs + reference, None));
    }
  }

  /** The scan's loop, for any duplicate test `dup`. */
  method ScanPages(site: Site, reference: seq<Job>, dup: Job -> bool, stop: nat -> bool)
    returns (newJobs: seq<Job>, matches: nat, saved: Option<seq<Job>>, pagesRead: nat,
             end: NewScanEnd, ghost seen: seq<Job>, ghost taken: nat)
    ensures matches <= MaxMatches
    ensures newJobs == NewOnly(seen, dup) && matches == CountDups(seen, dup)
    ensures saved == if newJobs == [] then None else Some(newJobs + reference)
    ensures end == CapReached ==> SeenUpTo(site, seen, pagesRead, taken)
    ensures end == CapReached ==> 1 <= taken && dup(Listing(site, pagesRead)[taken - 1])
    ensures end != CapReached ==> seen == Crawled(site, pagesRead)
    ensures end == CapReached <==> matches == MaxMatches
    ensures NewScanEnded(site, stop, end, pagesRead)
    ensures Advanced(site, stop, pagesRead)
  {
    newJobs, matches, saved, pagesRead, seen, taken := [], 0, None, 0, [], 0;
    if !site.opens {
      end := NotOpened;
      return;
    }
    var maxPages := site.reportedMax(1);
    var current := 1;
    while true
      invariant current == pagesRead + 1 <= |site.pages| + 1
      invariant pagesRead <= maxPages == site.reportedMax(1)
      invariant seen == Crawled(site, pagesRead)
      invariant newJobs == NewOnly(seen, dup) && matches == CountDups(seen, dup)
      invariant matches < MaxMatches
      invariant saved == if newJobs == [] then None else Some(newJobs + reference)
      invariant Advanced(site, stop, pagesRead) && (pagesRead > 0 ==> site.nextOk(pagesRead))
      decreases |site.pages| + 1 - current
    {
      if current > maxPages {
        end := PagesDone;
        break;
      }
      if stop(current) {
        end := Stopped;
        break;
      }
      if Listing(site, current) == [] {
        end := EmptyPage;
        break;
      }
      assert Advanced(site, stop, current);
      newJobs, matches, saved, seen, taken := ScanPage(site, reference, dup, current, newJobs, matches, saved, seen);
      pagesRead := current;
      if matches >= MaxMatches {
        end := CapReached;
        break;
      }
      if !site.nextOk(current) {
        end := NoNextPage;
        break;
      }
      current := current + 1;
    }
  }

  /**
   * `scrape_new_jobs`: from page 1, classify each page's jobs against the
   * reference list; after each page with new jobs so far, the output holds
   * the new jobs followed by the whole reference list. The scan looked at
   * every job of the pages before `pagesRead` and the first `taken` jobs of
   * page `pagesRead` (all of them unless the cap was reached, in which case
   * the `taken`-th is the duplicate that reached it).
   */
  method ScrapeNewJobs(site: Site, reference: seq<Job>, stop: nat -> bool)
    returns (newJobs: seq<Job>, matches: nat, saved: Option<seq<Job>>, pagesRead: nat,
             end: NewScanEnd, ghost seen: seq<Job>, ghost taken: nat)
    ensures matches <= MaxMatches
    ensures newJobs == NewOnly(seen, DupTest(reference)) && matches == CountDups(seen, DupTest(reference))
    ensures saved == if newJobs == [] then None else Some(newJobs + reference)
    ensures end == CapReached ==> SeenUpTo(site, seen, pagesRead, taken)
    ensures end == CapReached ==> 1 <= taken && DupTest(reference)(Listing(site, pagesRead)[taken - 1])
    ensures end != CapReached ==> seen == Crawled(site, pagesRead)
    ensures end == CapReached <==> matches == MaxMatches
    ensures end == NotOpened <==> !site.opens
    ensures site.opens ==> pagesRead <= site.reportedMax(1)
    ensures end == PagesDone ==> pagesRead == site.reportedMax(1)
    ensures end == Stopped ==> stop(pagesRead + 1)
    ensures end == EmptyPage ==> Listing(site, pagesRead + 1) == []
    ensures end == NoNextPage ==> pagesRead > 0 && !site.nextOk(pagesRead)
    ensures Advanced(site, stop, pagesRead)
  {
    newJobs, matches, saved, pagesRead, end, seen, taken := ScanPages(site, reference, DupTest(reference), stop);
  }

  /** Every job the scan keeps was seen and failed the duplicate test against the first five reference jobs. */
  lemma NewJobsAreNew(seen: seq<Job>, reference: seq<Job>)
    ensures forall job :: job in NewOnly(seen, DupTest(reference)) ==>
      job in seen && !IsDuplicate(job, reference, CheckFirstN)
  {
    forall job | job in NewOnly(seen, DupTest(reference))
      ensures job in seen && !IsDuplicate(job, reference, CheckFirstN)
    {
      NewOnlyMembers(seen, DupTest(reference), job);
    }
  }

  // ---------------------------------------------------------------------
  // The full scan

  datatype FullScanEnd = NoOutputPath | LoadFailed | PastMaxPages | LastPage | StopRequested | NoJobsOnPage | NextFailed

  /**
   * Why the full scan ended on page `current` with `pagesRead` pages read
   * and the page count at `maxPages`: past the page count, on the last
   * counted page, on a stop request, on an empty page or on a failed
   * "next" link.
   */
  predicate FullScanEnded(site: Site, stop: nat -> bool, end: FullScanEnd, maxPages: nat, current: nat, pagesRead: nat)
  {
    (end != NoOutputPath && end != LoadFailed ==>
       current >= 1 && maxPages == MaxSeen(site, current) && pagesRead <= current <= pagesRead + 1) &&
    match end
    case NoOutputPath => pagesRead == 0
    case LoadFailed => pagesRead == 0
    case PastMaxPages => current > maxPages
    case LastPage => pagesRead == current && current >= maxPages
    case StopRequested => stop(current) && current == pagesRead + 1
    case NoJobsOnPage => Listing(site, current) == [] && current == pagesRead + 1
    case NextFailed => pagesRead == current && !site.nextOk(current)
  }

  function Max(a: nat, b: nat): nat {
    if a < b then b else a
  }

  /**
   * The page count the full scan works with once it is on page `p`: the
   * count read on page 1, raised by the count re-read on every page whose
   * number is a multiple of 5.
   */
  function MaxSeen(site: Site, p: nat): nat
    decreases p
  {
    if p <= 1 then site.reportedMax(1)
    else if p % 5 == 0 then Max(MaxSeen(site, p - 1), site.reportedMax(p))
    else MaxSeen(site, p - 1)
  }

  /** The page count never goes down as the scan advances. */
  lemma {:induction false} MaxSeenMonotone(site: Site, p: nat, q: nat)
    requires p <= q
    ensures MaxSeen(site, p) <= MaxSeen(site, q)
    decreases q
  {
    if p < q {
      MaxSeenMonotone(site, p, q - 1);
    }
  }

  /**
   * `scrape_all_pages`: every page's jobs are added to the collected list,
   * and after each page the output holds the existing rows (if any)
   * followed by everything collected, and the status names that page.
   */
  method ScrapeAllPages(site: Site, outputFile: string, existing: Option<seq<Job>>, stop: nat -> bool)
    returns (allJobs: seq<Job>, saved: Option<seq<Job>>, statusPage: Option<nat>,
             maxPages: nat, current: nat, pagesRead: nat, end: FullScanEnd)
    ensures end == NoOutputPath <==> outputFile == ""
    ensures end == LoadFailed <==> outputFile != "" && !site.opens
    ensures allJobs == Crawled(site, pagesRead)
    ensures saved == if pagesRead == 0 then None else Some(Combine(allJobs, existing))
    ensures statusPage == if pagesRead == 0 then None else Some(pagesRead)
    ensures FullScanEnded(site, stop, end, maxPages, current, pagesRead)
    ensures Advanced(site, stop, pagesRead)
  {
    allJobs, saved, statusPage, maxPages, current, pagesRead := [], None, None, 0, 0, 0;
    if outputFile == "" {
      end := NoOutputPath;
      return;
    }
    current := 1;
    if !site.opens {
      end := LoadFailed;
      return;
    }
    maxPages := site.reportedMax(1);
    while true
      invariant 1 <= current == pagesRead + 1 <= |site.pages| + 1
      invariant maxPages == MaxSeen(site, current)
      invariant allJobs == Crawled(site, pagesRead)
      invariant saved == if pagesRead == 0 then None else Some(Combine(allJobs, existing))
      invariant statusPage == if pagesRead == 0 then None else Some(pagesRead)
      invariant Advanced(site, stop, pagesRead) && (pagesRead > 0 ==> site.nextOk(pagesRead))
      decreases |site.pages| + 1 - current
    {
      if current > maxPages {
        end := PastMaxPages;
        break;
      }
      if stop(current) {
        end := StopRequested;
        break;
      }
      var jobs := Listing(site, current);
      if jobs == [] {
        end := NoJobsOnPage;
        break;
      }
      assert Advanced(site, stop, current);
      allJobs := allJobs + jobs;
      saved := Some(Combine(allJobs, existing));
      statusPage := Some(current);
      pagesRead := current;
      if current >= maxPages {
        end := LastPage;
        break;
      }
      if !site.nextOk(current) {
        end := NextFailed;
        break;
      }
      current := current + 1;
      if current % 5 == 0 {
        var newMax := site.reportedMax(current);
        if newMax > maxPages {
          maxPages := newMax;
        }
      }
    }
  }
}
