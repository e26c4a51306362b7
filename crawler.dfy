/**
 * `web_crawler` of Searching_Agent_api.py. The network and the HTML parser are replaced
 * by a script of fetch outcomes: the k-th `requests.get` of the crawl either raises or
 * yields the `div.data-item` nodes of the page, in document order. The crawl is a state
 * machine per website with a page counter that only a fully processed page advances.
 */
module Crawler {
  import opened Wrappers

  type Url = string

  /** The `<a>` tag of an item; `href` is absent when the tag has no such attribute. */
  datatype Anchor = Anchor(href: Option<string>)

  /** One `div.data-item` node: the text of its first `h2` and its first `a`, when present. */
  datatype Item = Item(h2: Option<string>, a: Option<Anchor>)

  /** One `requests.get(url)` plus parsing: it raised, or it produced the matching nodes. */
  datatype Fetch = Failed | Fetched(items: seq<Item>)

  /** One element of `all_data`: the dict with keys `title`, `link` and `source`. */
  datatype Record = Record(title: string, link: string, source: Url)

  /** The default of `max_pages`. */
  const DefaultMaxPages: int := 2
  const NoTitle: string := "No title"
  const NoLink: string := "No link"

  /** The body of the inner `for` loop for one node: `None` when `item.find('a')['href']`
      raises because the anchor has no `href`. */
  function Extract(item: Item, url: Url): (r: Option<Record>)
    ensures r.None? <==> item.a.Some? && item.a.value.href.None?
    ensures r.Some? ==> r.value.source == url
    ensures r.Some? && item.h2.None? ==> r.value.title == NoTitle
    ensures r.Some? && item.a.None? ==> r.value.link == NoLink
    ensures item.h2.Some? && r.Some? ==> r.value.title == item.h2.value
    ensures item.a.Some? && r.Some? ==> r.value.link == item.a.value.href.value
  {
    var title := if item.h2.Some? then item.h2.value else NoTitle;
    match item.a
    case None => Some(Record(title, NoLink, url))
    case Some(anchor) =>
      if anchor.href.Some? then Some(Record(title, anchor.href.value, url)) else None
  }

  /** What one page adds to `all_data`, and whether its loop was cut short by an exception. */
  datatype PageScan = PageScan(records: seq<Record>, raised: bool)

  /** The inner `for` loop over the nodes of one page. */
  function ScanPage(items: seq<Item>, url: Url): (r: PageScan)
    ensures |r.records| <= |items|
  {
    if items == [] then PageScan([], false)
    else
      match Extract(items[0], url)
      case None => PageScan([], true)
      case Some(rec) =>
        var rest := ScanPage(items[1..], url);
        PageScan([rec] + rest.records, rest.raised)
  }

  /** A page yields one record per node, in document order, up to the first node that
      raises; it raises exactly when such a node exists. */
  lemma {:induction false} ScanPageRecords(items: seq<Item>, url: Url)
    ensures var r := ScanPage(items, url);
            && (!r.raised ==> |r.records| == |items|)
            && (r.raised ==> |r.records| < |items| && Extract(items[|r.records|], url).None?)
            && (forall k :: 0 <= k < |r.records| ==> Extract(items[k], url) == Some(r.records[k]))
  {
    if items != [] && Extract(items[0], url).Some? {
      ScanPageRecords(items[1..], url);
    }
  }

  /** The outcome of a crawl: the records gathered, how many fetches of the script it
      consumed, and whether it finished. A crawl that has not finished when the script
      runs out is one the source would still be running: the next `requests.get` is due. */
  datatype Crawl = Crawl(records: seq<Record>, used: nat, completed: bool)

  /** `records` gathered after `done` fetches, followed by the crawl `rest`. */
  function Then(records: seq<Record>, done: nat, rest: Crawl): Crawl {
    Crawl(records + rest.records, done + rest.used, rest.completed)
  }

  /** The `while page <= max_pages` loop for one website, from page `page`. A failed fetch
      and a page cut short both leave `page` as it was (the increment sits inside the `try`). */
  function CrawlSite(url: Url, page: int, maxPages: int, fetches: seq<Fetch>): (r: Crawl)
    ensures r.used <= |fetches|
    ensures !r.completed ==> r.used == |fetches|
    decreases |fetches|
  {
    if page > maxPages then Crawl([], 0, true)
    else if fetches == [] then Crawl([], 0, false)
    else
      match fetches[0]
      case Failed => Then([], 1, CrawlSite(url, page, maxPages, fetches[1..]))
      case Fetched(items) =>
        var scan := ScanPage(items, url);
        var next := if scan.raised then page else page + 1;
        Then(scan.records, 1, CrawlSite(url, next, maxPages, fetches[1..]))
  }

  /** The outer `for url in websites` loop. */
  function CrawlAll(websites: seq<Url>, maxPages: int, fetches: seq<Fetch>): (r: Crawl)
    ensures r.used <= |fetches|
    ensures !r.completed ==> r.used == |fetches|
    decreases |websites|
  {
    if websites == [] then Crawl([], 0, true)
    else
      var site := CrawlSite(websites[0], 1, maxPages, fetches);
      if !site.completed then site
      else
        var rest := CrawlAll(websites[1..], maxPages, fetches[site.used..]);
        Then(site.records, site.used, rest)
  }

  lemma ThenThen(records: seq<Record>, done: nat, more: seq<Record>, moreDone: nat, rest: Crawl)
    ensures Then(records, done, Then(more, moreDone, rest)) == Then(records + more, done + moreDone, rest)
  {
    assert records + (more + rest.records) == (records + more) + rest.records;
  }

  /** One turn of the page loop of a website, when a fetch is left in the script. */
  lemma CrawlSiteStep(url: Url, page: int, maxPages: int, fetches: seq<Fetch>)
    requires page <= maxPages && fetches != []
    ensures fetches[0].Failed? ==>
      CrawlSite(url, page, maxPages, fetches) == Then([], 1, CrawlSite(url, page, maxPages, fetches[1..]))
    ensures fetches[0].Fetched? ==>
      var scan := ScanPage(fetches[0].items, url);
      CrawlSite(url, page, maxPages, fetches)
        == Then(scan.records, 1, CrawlSite(url, if scan.raised then page else page + 1, maxPages, fetches[1..]))
  {
  }

  /** One turn of the website loop. */
  lemma CrawlAllStep(websites: seq<Url>, maxPages: int, fetches: seq<Fetch>)
    requires websites != []
    ensures var site := CrawlSite(websites[0], 1, maxPages, fetches);
            CrawlAll(websites, maxPages, fetches)
              == if !site.completed then site
                 else Then(site.records, site.used, CrawlAll(websites[1..], maxPages, fetches[site.used..]))
  {
  }

  /** The website loop after `used` fetches, at website `i`. */
  lemma CrawlAllAdvance(websites: seq<Url>, i: nat, maxPages: int, fetches: seq<Fetch>, used: nat)
    requires i < |websites| && used <= |fetches|
    ensures var site := CrawlSite(websites[i], 1, maxPages, fetches[used..]);
            && used + site.used <= |fetches|
            && CrawlAll(websites[i..], maxPages, fetches[used..])
                 == if !site.completed then site
                    else Then(site.records, site.used, CrawlAll(websites[i + 1..], maxPages, fetches[used + site.used..]))
  {
    var rest := fetches[used..];
    var site := CrawlSite(websites[i], 1, maxPages, rest);
    assert websites[i..][0] == websites[i] && websites[i..][1..] == websites[i + 1..];
    CrawlAllStep(websites[i..], maxPages, rest);
    assert rest[site.used..] == fetches[used + site.used..];
  }

  /** The website loop keeps its invariant across one website. */
  lemma CrawlAllResume(websites: seq<Url>, i: nat, maxPages: int, fetches: seq<Fetch>,
                       allData: seq<Record>, used: nat, allData': seq<Record>, used': nat, completed: bool)
    requires i < |websites| && used <= |fetches|
    requires CrawlAll(websites, maxPages, fetches)
               == Then(allData, used, CrawlAll(websites[i..], maxPages, fetches[used..]))
    requires Crawl(allData', used', completed) == Then(allData, used, CrawlSite(websites[i], 1, maxPages, fetches[used..]))
    ensures used' <= |fetches|
    ensures completed ==>
      CrawlAll(websites, maxPages, fetches)
        == Then(allData', used', CrawlAll(websites[i + 1..], maxPages, fetches[used'..]))
    ensures !completed ==> CrawlAll(websites, maxPages, fetches) == Crawl(allData', used', false)
  {
    var site := CrawlSite(websites[i], 1, maxPages, fetches[used..]);
    CrawlAllAdvance(websites, i, maxPages, fetches, used);
    ThenThen(allData, used, site.records, site.used, CrawlAll(websites[i + 1..], maxPages, fetches[used + site.used..]));
  }

  /** One turn of the node loop of a page. */
  lemma ScanPageStep(items: seq<Item>, j: nat, url: Url)
    requires j < |items|
    ensures Extract(items[j], url).None? ==> ScanPage(items[j..], url) == PageScan([], true)
    ensures Extract(items[j], url).Some? ==>
      ScanPage(items[j..], url)
        == PageScan([Extract(items[j], url).value] + ScanPage(items[j + 1..], url).records,
                    ScanPage(items[j + 1..], url).raised)
  {
    assert items[j..][0] == items[j] && items[j..][1..] == items[j + 1..];
  }

  /** `web_crawler(category, websites, max_pages=2)`: `all_data` is appended in place while
      `page` counts the pages of the current website. The fetch script stands for the
      network; `completed` is false when the crawl needs more fetches than it holds. */
  method WebCrawler(websites: seq<Url>, fetches: seq<Fetch>, maxPages: int := DefaultMaxPages)
    returns (allData: seq<Record>, used: nat, completed: bool)
    ensures Crawl(allData, used, completed) == CrawlAll(websites, maxPages, fetches)
  {
    allData, used, completed := [], 0, true;
    var i := 0;
    while i < |websites| && completed
      invariant 0 <= i <= |websites| && used <= |fetches|
      invariant completed ==>
        CrawlAll(websites, maxPages, fetches)
          == Then(allData, used, CrawlAll(websites[i..], maxPages, fetches[used..]))
      invariant !completed ==> CrawlAll(websites, maxPages, fetches) == Crawl(allData, used, false)
    {
      ghost var allData0, used0 := allData, used;
      allData, used, completed := CrawlWebsite(allData, websites[i], maxPages, fetches, used);
      CrawlAllResume(websites, i, maxPages, fetches, allData0, used0, allData, used, completed);
      i := i + 1;
    }
  }

  /** The `while page <= max_pages` loop of `web_crawler` for one website, starting with
      `page = 1` after `used` fetches of the script. */
  method CrawlWebsite(allData: seq<Record>, url: Url, maxPages: int, fetches: seq<Fetch>, used: nat)
    returns (allData': seq<Record>, used': nat, completed: bool)
    requires used <= |fetches|
    ensures used <= used' <= |fetches|
    ensures Crawl(allData', used', completed) == Then(allData, used, CrawlSite(url, 1, maxPages, fetches[used..]))
  {
    allData', used', completed := allData, used, true;
    var page := 1;
    while page <= maxPages && completed
      invariant used <= used' <= |fetches|
      invariant completed ==>
        Then(allData, used, CrawlSite(url, 1, maxPages, fetches[used..]))
          == Then(allData', used', CrawlSite(url, page, maxPages, fetches[used'..]))
      invariant !completed ==>
        Then(allData, used, CrawlSite(url, 1, maxPages, fetches[used..])) == Crawl(allData', used', false)
      decreases |fetches| - used', if completed then 1 else 0
    {
      if used' == |fetches| {
        completed := false;
      } else {
        var response := fetches[used'];
        ghost var rest := fetches[used'..];
        assert rest[0] == response && rest[1..] == fetches[used' + 1..];
        CrawlSiteStep(url, page, maxPages, rest);
        match response
        case Failed =>
          // the `except` branch: the error is logged and `page` stays as it is
          ThenThen(allData', used', [], 1, CrawlSite(url, page, maxPages, rest[1..]));
          assert allData' + [] == allData';
          used' := used' + 1;
        case Fetched(items) =>
          var raised;
          ghost var scan := ScanPage(items, url);
          ghost var next := if scan.raised then page else page + 1;
          ThenThen(allData', used', scan.records, 1, CrawlSite(url, next, maxPages, rest[1..]));
          allData', raised := ScrapePage(allData', items, url);
          used' := used' + 1;
          if !raised {
            page := page + 1;
          }
      }
    }
  }

  /** The `for item in soup.find_all(...)` loop: appends one record per node until a node
      raises, and reports whether one did. */
  method ScrapePage(allData: seq<Record>, items: seq<Item>, url: Url)
    returns (allData': seq<Record>, raised: bool)
    ensures allData' == allData + ScanPage(items, url).records
    ensures raised == ScanPage(items, url).raised
  {
    allData', raised := allData, false;
    var j := 0;
    while j < |items| && !raised
      invariant 0 <= j <= |items|
      invariant !raised ==>
        allData + ScanPage(items, url).records == allData' + ScanPage(items[j..], url).records
        && ScanPage(items, url).raised == ScanPage(items[j..], url).raised
      invariant raised ==>
        allData + ScanPage(items, url).records == allData' && ScanPage(items, url).raised
      decreases |items| - j, if raised then 0 else 1
    {
      ScanPageStep(items, j, url);
      match Extract(items[j], url)
      case None =>
        raised := true;
      case Some(rec) =>
        assert allData' + ([rec] + ScanPage(items[j + 1..], url).records)
            == (allData' + [rec]) + ScanPage(items[j + 1..], url).records;
        allData' := allData' + [rec];
        j := j + 1;
    }
  }
}
