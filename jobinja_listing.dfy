/**
 * The pure parts of the Jobinja listing scraper (`JobScraper` in
 * f_new7.py): reducing a job link to its title slug, the duplicate test
 * against the head of a reference list, the listing-page URLs, and the
 * list that a save writes.
 */
module JobinjaListing {
  import opened Wrappers
  import opened Text
  import opened Percent

  /** One listing entry: the fields read from a job card. */
  datatype Job = Job(title: string, company: string, location: string, contract: string, link: string)

  /** How many reference jobs the duplicate test inspects. */
  const CheckFirstN: nat := 5

  /** The number of duplicates after which the new-jobs scan stops. */
  const MaxMatches: nat := 5

  const JobsMarker: string := "/jobs/"

  // ---------------------------------------------------------------------
  // Slugs

  /**
   * The title slug of a job link: the text after the first "/jobs/" (up to
   * a second one), cut at the first '?', then the segment after the job id
   * when a '/' remains, percent-decoded. A link without "/jobs/" is its own
   * slug.
   */
  function ExtractJobSlug(url: string): (slug: Units)
    ensures !Contains(url, JobsMarker) ==> slug == Plain(url)
  {
    var parts := Split(url, JobsMarker);
    if |parts| > 1 then
      var slugPart := Before(parts[1], "?");
      var segment := if Contains(slugPart, "/") then Split(slugPart, "/")[1] else slugPart;
      Unquote(segment)
    else
      Plain(url)
  }

  predicate NoChar(s: string, c: char) {
    forall k :: 0 <= k < |s| ==> s[k] != c
  }

  /** In `id/title?query` with no '/' or '?' in `id` and `title`, "/jobs/" cannot start before the '?'. */
  lemma NoMarkerBeforeQuery(id: string, title: string, query: string, j: nat)
    requires NoChar(id, '/') && NoChar(id, '?') && NoChar(title, '/') && NoChar(title, '?')
    requires j < |id| + |title| + 2
    ensures !OccursAt(id + "/" + title + "?" + query, JobsMarker, j)
  {
    var s := id + "/" + title + "?" + query;
    var q := |id| + |title| + 1;
    assert s[q] == '?';
    assert forall k :: 0 <= k < |id| ==> s[k] == id[k];
    assert s[|id|] == '/';
    assert forall k :: |id| < k < q ==> s[k] == title[k - |id| - 1];
    if j + 6 <= |s| {
      var w := s[j..j + 6];
      if j == |id| {
        if j + 5 < q {
          assert w[5] == s[j + 5] != '/';
        } else {
          assert w[q - j] == '?';
        }
      } else if j < q {
        assert w[0] == s[j] != '/';
      } else {
        assert w[0] == '?';
      }
    }
  }

  /** After a first "/jobs/" that ends `pre`, the second split part is the text before the next "/jobs/". */
  lemma MarkerSplit(pre: string, rest: string)
    requires IndexOf(pre + JobsMarker, JobsMarker) == Some(|pre|)
    ensures |Split(pre + JobsMarker + rest, JobsMarker)| > 1
    ensures Split(pre + JobsMarker + rest, JobsMarker)[1] == Before(rest, JobsMarker)
  {
    var url := pre + JobsMarker + rest;
    IndexOfAfter(pre, rest, JobsMarker);
    assert url[|pre| + |JobsMarker|..] == rest;
    SplitSecond(url, JobsMarker, |pre|);
  }

  /** Cutting `id/title?query` at "/jobs/" and then at '?' leaves `id/title`. */
  lemma PathBeforeQuery(id: string, title: string, query: string)
    requires NoChar(id, '/') && NoChar(id, '?') && NoChar(title, '/') && NoChar(title, '?')
    ensures Before(Before(id + "/" + title + "?" + query, JobsMarker), "?") == id + "/" + title
  {
    var rest := id + "/" + title + "?" + query;
    var p := id + "/" + title;
    var m := |p| + 1;
    forall j | 0 <= j < m
      ensures !OccursAt(rest, JobsMarker, j)
    {
      NoMarkerBeforeQuery(id, title, query, j);
    }
    BeforeKeeps(rest, JobsMarker, m);
    var between := Before(rest, JobsMarker);
    assert rest[..m] == p + "?";
    assert between == p + "?" + between[m..] by {
      assert between[..m] == p + "?";
    }
    BeforeChar(p, '?', between[m..]);
  }

  /** `id/title` with no '/' in either part splits at '/' into `id` and `title`. */
  lemma PathSegments(id: string, title: string)
    requires NoChar(id, '/') && NoChar(title, '/')
    ensures Contains(id + "/" + title, "/")
    ensures Split(id + "/" + title, "/")[1] == title
  {
    var p := id + "/" + title;
    CharAfterFree(id, '/');
    IndexOfAfter(id, title, "/");
    SplitSecond(p, "/", |id|);
    assert p[|id| + 1..] == title;
    CharFreeNotContains(title, '/');
  }

  lemma Regroup(a: string, b: string, c: string, d: string, e: string, f: string)
    ensures a + b + c + d + e + f == a + (b + c + d + e + f)
  {
  }

  /** The slug follows from the three cuts once each is known. */
  lemma SlugSteps(url: string, between: string, path: string, segment: string)
    requires |Split(url, JobsMarker)| > 1 && Split(url, JobsMarker)[1] == between
    requires Before(between, "?") == path
    requires Contains(path, "/") && Split(path, "/")[1] == segment
    ensures ExtractJobSlug(url) == Unquote(segment)
  {
  }

  /**
   * A listing link `pre/jobs/id/title?query`, whose first "/jobs/" is the
   * one after `pre`, yields the percent-decoded `title` when the title holds
   * no '/' or '?'; a title without '%' yields its own characters.
   */
  lemma {:induction false} SlugOfListingLink(pre: string, id: string, title: string, query: string)
    requires IndexOf(pre + JobsMarker, JobsMarker) == Some(|pre|)
    requires NoChar(id, '/') && NoChar(id, '?')
    requires NoChar(title, '/') && NoChar(title, '?')
    ensures ExtractJobSlug(pre + JobsMarker + id + "/" + title + "?" + query) == Unquote(title)
    ensures NoChar(title, '%') ==> ExtractJobSlug(pre + JobsMarker + id + "/" + title + "?" + query) == Plain(title)
  {
    Regroup(pre + JobsMarker, id, "/", title, "?", query);
    SlugAfterMarker(pre, id + "/" + title + "?" + query, id, title, query);
    if NoChar(title, '%') {
      UnquoteNoPercent(title);
    }
  }

  lemma {:induction false} SlugAfterMarker(pre: string, rest: string, id: string, title: string, query: string)
    requires IndexOf(pre + JobsMarker, JobsMarker) == Some(|pre|)
    requires rest == id + "/" + title + "?" + query
    requires NoChar(id, '/') && NoChar(id, '?')
    requires NoChar(title, '/') && NoChar(title, '?')
    ensures ExtractJobSlug(pre + JobsMarker + rest) == Unquote(title)
  {
    MarkerSplit(pre, rest);
    PathBeforeQuery(id, title, query);
    PathSegments(id, title);
    SlugSteps(pre + JobsMarker + rest, Before(rest, JobsMarker), id + "/" + title, title);
  }

  // ---------------------------------------------------------------------
  // Duplicates

  /** The three duplicate rules: same slug, same title and company ignoring case, or same link. */
  predicate SameJob(job: Job, other: Job) {
    ExtractJobSlug(job.link) == ExtractJobSlug(other.link)
    || (Lower(job.title) == Lower(other.title) && Lower(job.company) == Lower(other.company))
    || job.link == other.link
  }

  /**
   * `is_duplicate(job, existing, n)`: scans `existing[:n]` in order and
   * answers true at the first entry that matches on a rule.
   */
  function IsDuplicate(job: Job, existing: seq<Job>, n: nat): (dup: bool)
    ensures dup ==> n > 0 && |existing| > 0
    decreases |existing|
  {
    if n == 0 || existing == [] then false
    else
      var e := existing[0];
      if ExtractJobSlug(job.link) == ExtractJobSlug(e.link) then true
      else if Lower(job.title) == Lower(e.title) && Lower(job.company) == Lower(e.company) then true
      else if job.link == e.link then true
      else IsDuplicate(job, existing[1..], n - 1)
  }

  /** True at the first of the first `n` entries of `xs` that `p` accepts; false when none does. */
  function AnyOfFirst<T>(p: T -> bool, xs: seq<T>, n: nat): bool
    decreases |xs|
  {
    if n == 0 || xs == [] then false
    else if p(xs[0]) then true
    else AnyOfFirst(p, xs[1..], n - 1)
  }

  /** The scan answers true exactly when one of the first `n` entries is accepted. */
  lemma {:induction false} AnyOfFirstIff<T>(p: T -> bool, xs: seq<T>, n: nat)
    ensures AnyOfFirst(p, xs, n) <==> exists k :: 0 <= k < n && k < |xs| && p(xs[k])
    decreases |xs|
  {
    if n > 0 && xs != [] {
      var rest := xs[1..];
      AnyOfFirstIff(p, rest, n - 1);
      if AnyOfFirst(p, xs, n) && !p(xs[0]) {
        var k :| 0 <= k < n - 1 && k < |rest| && p(rest[k]);
        assert rest[k] == xs[k + 1];
      }
      if exists k :: 0 <= k < n && k < |xs| && p(xs[k]) {
        var k :| 0 <= k < n && k < |xs| && p(xs[k]);
        if k > 0 {
          assert rest[k - 1] == xs[k];
        }
      }
    }
  }

  /** The duplicate rules for `job`, as a test on the other job. */
  function SameAs(job: Job): Job -> bool {
    other => SameJob(job, other)
  }

  /** `is_duplicate`'s loop is the scan with the duplicate rules. */
  lemma {:induction false} IsDuplicateScans(job: Job, existing: seq<Job>, n: nat)
    ensures IsDuplicate(job, existing, n) == AnyOfFirst(SameAs(job), existing, n)
    decreases |existing|
  {
    if n > 0 && existing != [] {
      IsDuplicateScans(job, existing[1..], n - 1);
      assert SameAs(job)(existing[0]) == SameJob(job, existing[0]);
    }
  }

  /** A job is a duplicate exactly when one of the first `n` entries matches it. */
  lemma IsDuplicateIff(job: Job, existing: seq<Job>, n: nat)
    ensures IsDuplicate(job, existing, n) <==> exists k :: 0 <= k < n && k < |existing| && SameJob(job, existing[k])
  {
    IsDuplicateScans(job, existing, n);
    AnyOfFirstIff(SameAs(job), existing, n);
    if IsDuplicate(job, existing, n) {
      var k :| 0 <= k < n && k < |existing| && SameAs(job)(existing[k]);
      assert SameJob(job, existing[k]);
    }
    if exists k :: 0 <= k < n && k < |existing| && SameJob(job, existing[k]) {
      var k :| 0 <= k < n && k < |existing| && SameJob(job, existing[k]);
      assert SameAs(job)(existing[k]);
    }
  }

  /** Entries past the first `n` never change the answer. */
  lemma {:induction false} IsDuplicatePrefixOnly(job: Job, existing: seq<Job>, other: seq<Job>, n: nat)
    requires n <= |existing| && n <= |other| && existing[..n] == other[..n]
    ensures IsDuplicate(job, existing, n) == IsDuplicate(job, other, n)
    decreases n
  {
    if n > 0 {
      assert existing[0] == existing[..n][0] == other[0];
      assert existing[1..][..n - 1] == other[1..][..n - 1];
      IsDuplicatePrefixOnly(job, existing[1..], other[1..], n - 1);
    }
  }

  /** The link rule never decides alone: equal links already give equal slugs. */
  lemma LinkRuleSubsumed(job: Job, other: Job)
    ensures SameJob(job, other) <==>
      ExtractJobSlug(job.link) == ExtractJobSlug(other.link)
      || (Lower(job.title) == Lower(other.title) && Lower(job.company) == Lower(other.company))
  {
  }

  // ---------------------------------------------------------------------
  // Listing-page URLs

  const BaseUrl: string := "https://jobinja.ir/jobs/latest-job-post-%D8%A7%D8%B3%D8%AA%D8%AE%D8%AF%D8%A7%D9%85%DB%8C-%D8%AC%D8%AF%DB%8C%D8%AF"
  const UrlParams: string := "preferred_before=1743954204&sort_by=published_at_desc"

  /** The URL of listing page `n`; page 1 carries no page parameter. */
  function GetPageUrl(n: int): (url: string)
    ensures |BaseUrl| < |url|
    ensures url[..|BaseUrl|] == BaseUrl
  {
    if n == 1 then BaseUrl + "?" + UrlParams
    else BaseUrl + "?&page=" + IntToDecimal(n) + "&" + UrlParams
  }

  /** Reads the page number back from a listing URL. */
  function PageNumber(url: string): Option<int> {
    var pre := BaseUrl + "?&page=";
    var post := "&" + UrlParams;
    if url == BaseUrl + "?" + UrlParams then Some(1)
    else if |pre| + |post| <= |url| && url[..|pre|] == pre && url[|url| - |post|..] == post
      && IsIntLiteral(url[|pre|..|url| - |post|])
    then Some(DecimalToInt(url[|pre|..|url| - |post|]))
    else None
  }

  /** Every page URL names its page. */
  lemma PageUrlRoundTrip(n: int)
    ensures PageNumber(GetPageUrl(n)) == Some(n)
  {
    if n != 1 {
      var url := GetPageUrl(n);
      var pre := BaseUrl + "?&page=";
      var post := "&" + UrlParams;
      var d := IntToDecimal(n);
      assert url == pre + d + post;
      assert |url| != |BaseUrl + "?" + UrlParams|;
      assert url[..|pre|] == pre;
      assert url[|url| - |post|..] == post;
      assert url[|pre|..|url| - |post|] == d;
      IntDecimalRoundTrip(n);
    }
  }

  /** Different pages have different URLs. */
  lemma PageUrlInjective(a: int, b: int)
    requires GetPageUrl(a) == GetPageUrl(b)
    ensures a == b
  {
    PageUrlRoundTrip(a);
    PageUrlRoundTrip(b);
  }

  // ---------------------------------------------------------------------
  // Saving

  /** The list a save writes: the existing rows (when there are any) followed by the new data. */
  function Combine<T>(data: seq<T>, existing: Option<seq<T>>): (combined: seq<T>)
    ensures combined == existing.GetOr([]) + data
  {
    if existing.Some? && existing.value != [] then existing.value + data else data
  }
}
