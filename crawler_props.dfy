/** What the crawl guarantees, stated over the specification functions of `Crawler`. */
module CrawlerProperties {
  import opened Wrappers
  import opened Crawler

  /** With `max_pages < 1` no page loop runs: nothing is fetched and nothing gathered. */
  lemma {:induction false} NoPagesNoFetches(websites: seq<Url>, maxPages: int, fetches: seq<Fetch>)
    requires maxPages < 1
    ensures CrawlAll(websites, maxPages, fetches) == Crawl([], 0, true)
    decreases |websites|
  {
    if websites != [] {
      NoPagesNoFetches(websites[1..], maxPages, fetches);
      assert fetches[0..] == fetches;
    }
  }

  /** Every record gathered for a website names that website as its source. */
  lemma {:induction false} SiteRecordsFromUrl(url: Url, page: int, maxPages: int, fetches: seq<Fetch>)
    ensures forall rec <- CrawlSite(url, page, maxPages, fetches).records :: rec.source == url
    decreases |fetches|
  {
    if page <= maxPages && fetches != [] {
      match fetches[0]
      case Failed =>
        SiteRecordsFromUrl(url, page, maxPages, fetches[1..]);
      case Fetched(items) =>
        var scan := ScanPage(items, url);
        ScanPageRecords(items, url);
        forall k | 0 <= k < |scan.records| ensures scan.records[k].source == url {
          assert Extract(items[k], url) == Some(scan.records[k]);
        }
        SiteRecordsFromUrl(url, if scan.raised then page else page + 1, maxPages, fetches[1..]);
    }
  }

  /** Records come grouped by website, in the order of `websites`: `site[k]` is the index
      of the website the k-th record was crawled from, and it never decreases. */
  lemma {:induction false} RecordsGroupedBySite(websites: seq<Url>, maxPages: int, fetches: seq<Fetch>)
    returns (site: seq<nat>)
    ensures var records := CrawlAll(websites, maxPages, fetches).records;
            && |site| == |records|
            && (forall k :: 0 <= k < |site| ==> site[k] < |websites| && records[k].source == websites[site[k]])
            && (forall k, l :: 0 <= k < l < |site| ==> site[k] <= site[l])
    decreases |websites|
  {
    if websites == [] {
      site := [];
    } else {
      var first := CrawlSite(websites[0], 1, maxPages, fetches);
      var here := seq(|first.records|, _ => 0);
      if !first.completed {
        site := here;
        SiteRecordsFromUrl(websites[0], 1, maxPages, fetches);
        assert forall k :: 0 <= k < |here| ==> first.records[k] in first.records;
      } else {
        var later := RecordsGroupedBySite(websites[1..], maxPages, fetches[first.used..]);
        site := here + seq(|later|, k requires 0 <= k < |later| => later[k] + 1);
        var records := CrawlAll(websites, maxPages, fetches).records;
        var rest := CrawlAll(websites[1..], maxPages, fetches[first.used..]).records;
        assert records == first.records + rest;
        SiteRecordsFromUrl(websites[0], 1, maxPages, fetches);
        forall k | 0 <= k < |site| ensures site[k] < |websites| && records[k].source == websites[site[k]] {
          if k < |here| {
            assert first.records[k] in first.records;
          } else {
            assert records[k] == rest[k - |here|];
          }
        }
      }
    }
  }

  /** A page fetched cleanly: it did not raise and none of its nodes has an anchor without `href`. */
  predicate CleanPage(fetch: Fetch) {
    fetch.Fetched? && forall item <- fetch.items :: item.a.None? || item.a.value.href.Some?
  }

  /** The records of a clean page: one per node, in document order. */
  function Harvest(items: seq<Item>, url: Url): (r: seq<Record>)
    requires CleanPage(Fetched(items))
  {
    seq(|items|, k requires 0 <= k < |items| => Extract(items[k], url).value)
  }

  /** The records of a run of clean pages, page after page. */
  function HarvestPages(pages: seq<Fetch>, url: Url): seq<Record>
    requires forall p <- pages :: CleanPage(p)
  {
    if pages == [] then []
    else
      assert pages[0] in pages && CleanPage(pages[0]);
      Harvest(pages[0].items, url) + HarvestPages(pages[1..], url)
  }

  /** Reference crawl when every fetch is clean: each website takes the next `max_pages`
      fetches of the script. */
  function ExpectedRecords(websites: seq<Url>, maxPages: nat, fetches: seq<Fetch>): seq<Record>
    requires |fetches| >= |websites| * maxPages
    requires forall p <- fetches :: CleanPage(p)
    decreases |websites|
  {
    if websites == [] then []
    else
      assert |fetches[maxPages..]| >= (|websites| - 1) * maxPages;
      HarvestPages(fetches[..maxPages], websites[0])
        + ExpectedRecords(websites[1..], maxPages, fetches[maxPages..])
  }

  lemma {:induction false} CleanScan(items: seq<Item>, url: Url)
    requires CleanPage(Fetched(items))
    ensures ScanPage(items, url) == PageScan(Harvest(items, url), false)
  {
    ScanPageRecords(items, url);
  }

  /** From page `page`, a website whose fetches are all clean takes exactly the
      `max_pages - page + 1` pages left and gathers their records in order. */
  lemma {:induction false} CleanSite(url: Url, page: int, maxPages: int, fetches: seq<Fetch>)
    requires page <= maxPages + 1
    requires |fetches| >= maxPages - page + 1
    requires forall p <- fetches :: CleanPage(p)
    ensures var n := maxPages - page + 1;
            CrawlSite(url, page, maxPages, fetches) == Crawl(HarvestPages(fetches[..n], url), n, true)
    decreases |fetches|
  {
    var n := maxPages - page + 1;
    if n == 0 {
      assert fetches[..0] == [];
    } else {
      assert fetches[0] in fetches;
      CleanScan(fetches[0].items, url);
      CleanSite(url, page + 1, maxPages, fetches[1..]);
      assert fetches[..n][1..] == fetches[1..][..n - 1];
    }
  }

  /** When every fetch succeeds cleanly and the script holds enough of them, every website
      is fetched exactly `max_pages` times and the records are the pages' nodes, website by
      website, page by page, in document order. */
  lemma {:induction false} CleanCrawl(websites: seq<Url>, maxPages: nat, fetches: seq<Fetch>)
    requires |fetches| >= |websites| * maxPages
    requires forall p <- fetches :: CleanPage(p)
    ensures CrawlAll(websites, maxPages, fetches)
              == Crawl(ExpectedRecords(websites, maxPages, fetches), |websites| * maxPages, true)
    decreases |websites|
  {
    if websites != [] {
      assert |fetches[maxPages..]| >= (|websites| - 1) * maxPages;
      CleanSite(websites[0], 1, maxPages, fetches);
      CleanCrawl(websites[1..], maxPages, fetches[maxPages..]);
    }
  }

  function Repeat(xs: seq<Record>, n: nat): seq<Record> {
    if n == 0 then [] else xs + Repeat(xs, n - 1)
  }

  /** The page counter never reaches the request: a website that serves the same clean
      page every time yields that page's records `max_pages` times over. */
  lemma {:induction false} SamePageRepeated(url: Url, maxPages: nat, items: seq<Item>)
    requires CleanPage(Fetched(items))
    ensures CrawlSite(url, 1, maxPages, seq(maxPages, _ => Fetched(items)))
              == Crawl(Repeat(Harvest(items, url), maxPages), maxPages, true)
  {
    var pages := seq(maxPages, _ => Fetched(items));
    CleanSite(url, 1, maxPages, pages);
    assert pages[..maxPages] == pages;
    SamePagesHarvest(url, items, maxPages);
  }

  lemma {:induction false} SamePagesHarvest(url: Url, items: seq<Item>, n: nat)
    requires CleanPage(Fetched(items))
    ensures HarvestPages(seq(n, _ => Fetched(items)), url) == Repeat(Harvest(items, url), n)
  {
    if n > 0 {
      SamePagesHarvest(url, items, n - 1);
      assert seq(n, _ => Fetched(items))[1..] == seq(n - 1, _ => Fetched(items));
    }
  }

  /** `k` failed fetches in a row.  */
  function Failures(k: nat): seq<Fetch> {
    seq(k, _ => Failed)
  }

  /** A failed fetch does not advance `page`: after any number of failures the website is
      crawled from the same page, and the failures only use up fetches. */
  lemma {:induction false} FailuresRetrySamePage(url: Url, page: int, maxPages: int, k: nat, rest: seq<Fetch>)
    requires page <= maxPages
    ensures CrawlSite(url, page, maxPages, Failures(k) + rest)
              == Then([], k, CrawlSite(url, page, maxPages, rest))
  {
    if k > 0 {
      FailuresRetrySamePage(url, page, maxPages, k - 1, rest);
      var fetches := Failures(k) + rest;
      assert fetches[0] == Failed;
      assert fetches[1..] == Failures(k - 1) + rest;
      var r := CrawlSite(url, page, maxPages, rest);
      ThenThen([], 1, [], k - 1, r);
    } else {
      var r := CrawlSite(url, page, maxPages, rest);
      assert Failures(0) + rest == rest && [] + r.records == r.records;
    }
  }

  /** A website that only ever fails is retried until the script is exhausted: the crawl
      never finishes and gathers nothing. */
  lemma AlwaysFailingNeverFinishes(websites: seq<Url>, maxPages: int, k: nat)
    requires websites != [] && maxPages >= 1
    ensures CrawlAll(websites, maxPages, Failures(k)) == Crawl([], k, false)
  {
    FailuresRetrySamePage(websites[0], 1, maxPages, k, []);
    assert Failures(k) + [] == Failures(k);
  }

  /** A page cut short by a node whose anchor lacks `href` keeps the records of the nodes
      before it, and the same page is fetched again. */
  lemma PartialPageKept(url: Url, page: int, maxPages: int, items: seq<Item>, rest: seq<Fetch>)
    requires page <= maxPages
    requires ScanPage(items, url).raised
    ensures var scan := ScanPage(items, url);
            && CrawlSite(url, page, maxPages, [Fetched(items)] + rest)
                 == Then(scan.records, 1, CrawlSite(url, page, maxPages, rest))
            && (forall k :: 0 <= k < |scan.records| ==> Some(scan.records[k]) == Extract(items[k], url))
  {
    ScanPageRecords(items, url);
    assert ([Fetched(items)] + rest)[1..] == rest;
  }

  /** A page without matching nodes adds no record, placeholder or otherwise; a website
      serving only such pages (or failing) contributes nothing. */
  lemma {:induction false} EmptyPagesContributeNothing(url: Url, page: int, maxPages: int, fetches: seq<Fetch>)
    requires forall p <- fetches :: p == Fetched([]) || p == Failed
    ensures CrawlSite(url, page, maxPages, fetches).records == []
    decreases |fetches|
  {
    if page <= maxPages && fetches != [] {
      assert fetches[0] in fetches;
      assert forall p <- fetches[1..] :: p in fetches;
      if fetches[0].Failed? {
        EmptyPagesContributeNothing(url, page, maxPages, fetches[1..]);
      } else {
        EmptyPagesContributeNothing(url, page + 1, maxPages, fetches[1..]);
      }
    }
  }
}
