/**
 * The crawl engine of `crawl_website` (crawler.py): the href filter of
 * `get_links_from_page`, the depth-first `dfs_crawl` over the shared
 * `processed` / `all_links` sets, and the pass that writes the sorted result.
 *
 * The browser is an oracle: `site` maps each page URL whose fetch and parse
 * succeed to the raw hrefs found on it, in document order; a URL absent from
 * `site` is a page whose fetch or parse raised. `join` stands for
 * `urlparse(urljoin(base_url, href))`.
 */
module Crawler {

  import opened Maybe
  import opened Strings
  import opened Urls
  import opened Graphs

  /** The values `crawl_website`'s nested helpers read from its scope. */
  datatype Config = Config(
    baseNetloc: string,                  // urlparse(base_url).netloc
    startPath: string,                   // the start path after its fix-up
    skipPatterns: Option<seq<string>>,
    join: string -> Url)                 // urlparse(urljoin(base_url, href))

  /** `start_url = urljoin(base_url, start_path)`; the crawl starts here, not normalised. */
  function StartKey(cfg: Config): string {
    Unparse(cfg.join(cfg.startPath))
  }

  /** The normalised URL an href resolves to. */
  function LinkKey(cfg: Config, href: string): string {
    Unparse(Normalize(cfg.join(href)))
  }

  /**
   * An href that `get_links_from_page` keeps when its target is not processed
   * yet: not empty, not an in-page anchor, on the base URL's host, matching no
   * skip pattern, and a valid subpage once normalised.
   */
  predicate Admissible(cfg: Config, href: string) {
    && href != ""
    && href[0] != '#'
    && cfg.join(href).netloc == cfg.baseNetloc
    && !Skipped(cfg.skipPatterns, LinkKey(cfg, href))
    && IsValidSubpage(cfg.startPath, Normalize(cfg.join(href)))
  }

  /** The targets the admissible hrefs of a page lead to. */
  ghost function Links(cfg: Config, hrefs: seq<string>): set<string> {
    set h | h in hrefs && Admissible(cfg, h) :: LinkKey(cfg, h)
  }

  /** Every accepted link is on the base host, in normalised form, and passes both filters. */
  lemma AdmissibleLinkIsCanonical(cfg: Config, href: string)
    requires Admissible(cfg, href)
    ensures var n := Normalize(cfg.join(href));
      && LinkKey(cfg, href) == Unparse(n)
      && Normalize(n) == n
      && n.netloc == cfg.baseNetloc
      && n.fragment == "" && EndsWith(n.path, "/")
      && StartsWith(n.path, cfg.startPath)
      && !Skipped(cfg.skipPatterns, LinkKey(cfg, href))
  {
    NormalizeIdempotent(cfg.join(href));
  }

  lemma LinksAppend(cfg: Config, hrefs: seq<string>, href: string)
    ensures Links(cfg, hrefs + [href])
      == Links(cfg, hrefs) + (if Admissible(cfg, href) then {LinkKey(cfg, href)} else {})
  {
    assert forall h :: h in hrefs + [href] <==> h in hrefs || h == href;
  }

  /** The targets of a page with two hrefs. */
  lemma LinksOfTwo(cfg: Config, h1: string, h2: string)
    ensures Links(cfg, [h1, h2])
      == (if Admissible(cfg, h1) then {LinkKey(cfg, h1)} else {})
       + (if Admissible(cfg, h2) then {LinkKey(cfg, h2)} else {})
  {
    assert forall h :: h in [h1, h2] <==> h == h1 || h == h2;
  }

  /** Empty hrefs and hrefs starting with `#` contribute nothing. */
  lemma AnchorsContributeNothing(cfg: Config, hrefs: seq<string>, anchor: string)
    requires anchor == "" || anchor[0] == '#'
    ensures Links(cfg, hrefs + [anchor]) == Links(cfg, hrefs)
  {
    assert forall h :: h in hrefs + [anchor] && Admissible(cfg, h) ==> h in hrefs;
  }

  /**
   * The loop of `get_links_from_page` over the page's hrefs: resolve, keep
   * same-host targets, normalise, drop processed or skipped ones, keep valid
   * subpages.
   */
  method FilterLinks(cfg: Config, hrefs: seq<string>, processed: set<string>) returns (links: set<string>)
    ensures links == Links(cfg, hrefs) - processed
    ensures forall l :: l in links ==> l !in processed && !Skipped(cfg.skipPatterns, l)
  {
    links := {};
    for i := 0 to |hrefs|
      invariant links == Links(cfg, hrefs[..i]) - processed
    {
      var href := hrefs[i];
      assert hrefs[..i + 1] == hrefs[..i] + [href];
      LinksAppend(cfg, hrefs[..i], href);
      if href == "" || href[0] == '#' {
        continue;
      }
      var full := cfg.join(href);
      if full.netloc != cfg.baseNetloc {
        continue;
      }
      var normalized := Normalize(full);
      var key := Unparse(normalized);
      var skip := ShouldSkipUrl(cfg.skipPatterns, key);
      if key in processed || skip {
        continue;
      }
      if IsValidSubpage(cfg.startPath, normalized) {
        links := links + {key};
      }
    }
    assert hrefs[..|hrefs|] == hrefs;
  }

  /** The site's link graph: each page that loads, to the targets of its admissible hrefs. */
  ghost function LinkGraph(cfg: Config, site: map<string, seq<string>>): map<string, set<string>> {
    map p | p in site :: Links(cfg, site[p])
  }

  /** Every URL the crawl can ever process: the start URL and every admissible target on a page. */
  ghost function Universe(cfg: Config, site: map<string, seq<string>>): set<string> {
    {StartKey(cfg)} + set p, h | p in site && h in site[p] && Admissible(cfg, h) :: LinkKey(cfg, h)
  }

  lemma LinksInUniverse(cfg: Config, site: map<string, seq<string>>)
    ensures forall p :: Out(LinkGraph(cfg, site), p) <= Universe(cfg, site)
  {
  }

  /**
   * The crawl state `crawl_website` shares with its nested functions:
   * `processed` and `all_links`, plus a ghost log of the pages fetched and
   * the site's link graph.
   */
  class CrawlState {
    const cfg: Config
    const site: map<string, seq<string>>
    ghost const graph: map<string, set<string>>
    ghost const universe: set<string>
    var processed: set<string>
    var allLinks: set<string>
    ghost var fetchLog: seq<string>

    /** The ghost graph is the site's link graph. */
    ghost predicate Faithful()
      reads this
    {
      graph == LinkGraph(cfg, site)
    }

    /**
     * The two sets are always equal and bounded by the universe, every
     * processed page was fetched exactly once, and fetch order is a discovery
     * order from the start URL.
     */
    ghost predicate Valid()
      reads this
    {
      && processed == allLinks
      && VisitLog(graph, StartKey(cfg), universe, processed, fetchLog)
    }

    constructor (cfg: Config, site: map<string, seq<string>>)
      ensures Valid() && Faithful() && universe == Universe(cfg, site)
      ensures this.cfg == cfg && this.site == site
      ensures processed == {} && allLinks == {} && fetchLog == []
    {
      this.cfg := cfg;
      this.site := site;
      graph := LinkGraph(cfg, site);
      universe := Universe(cfg, site);
      processed := {};
      allLinks := {};
      fetchLog := [];
      new;
      LinksInUniverse(cfg, site);
    }

    /** `get_links_from_page`: the admissible links of the page not processed yet; none if it fails to load. */
    method GetLinksFromPage(url: string) returns (links: set<string>)
      requires Faithful()
      ensures links == Out(graph, url) - processed
      ensures url !in site ==> links == {}
    {
      if url in site {
        links := FilterLinks(cfg, site[url], processed);
      } else {
        links := {};
      }
    }

    /**
     * `dfs_crawl`: mark the URL processed, fetch its links once, and recurse
     * into each link still unprocessed. Returns at once for a processed URL.
     */
    method DfsCrawl(url: string)
      requires Valid() && Faithful()
      requires url in processed
        || (fetchLog == [] && url == StartKey(cfg))
        || LinkedFromLog(graph, fetchLog, url)
      modifies this
      decreases universe - processed, 0
      ensures Valid()
      ensures old(processed) <= processed && url in processed
      ensures url in old(processed) ==> processed == old(processed) && fetchLog == old(fetchLog)
      ensures old(fetchLog) <= fetchLog
      ensures forall q :: q in processed && q !in old(processed) ==> Out(graph, q) <= processed
    {
      if url in processed {
        return;
      }
      VisitStep(graph, StartKey(cfg), universe, processed, fetchLog, url);
      processed := processed + {url};
      allLinks := allLinks + {url};
      fetchLog := fetchLog + [url];
      ghost var markedLog := fetchLog;
      var links := GetLinksFromPage(url);
      CrawlLinks(url, links);
      PrefixTransitive(old(fetchLog), markedLog, fetchLog);
    }

    /** The loop of `dfs_crawl` over the links of `url`: crawl each one not processed by then. */
    method CrawlLinks(url: string, links: set<string>)
      requires Valid() && Faithful()
      requires url in processed
      requires links == Out(graph, url) - processed
      modifies this
      decreases universe - processed, 1
      ensures Valid()
      ensures old(processed) <= processed && old(fetchLog) <= fetchLog
      ensures Out(graph, url) <= processed
      ensures forall q :: q in processed && q !in old(processed) ==> Out(graph, q) <= processed
    {
      ghost var at :| 0 <= at < |fetchLog| && fetchLog[at] == url;
      var rest := links;
      while rest != {}
        invariant Valid()
        invariant old(processed) <= processed && old(fetchLog) <= fetchLog
        invariant links <= rest + processed
        invariant forall q :: q in processed && q !in old(processed) ==> Out(graph, q) <= processed
        decreases rest
      {
        var link :| link in rest;
        rest := rest - {link};
        if link !in processed {
          assert fetchLog[at] == url;
          assert LinkedFromLog(graph, fetchLog, link);
          ghost var before := fetchLog;
          DfsCrawl(link);
          PrefixTransitive(old(fetchLog), before, fetchLog);
        }
      }
    }
  }

  // ---------------------------------------------------------------------
  // Output pass
  // ---------------------------------------------------------------------

  /** URLs containing this token are not written out. */
  const QueryMarker: string := "/?q="

  /** The smallest string of a non-empty set. */
  method Smallest(s: set<string>) returns (m: string)
    requires s != {}
    ensures m in s && forall x :: x in s && x != m ==> Less(m, x)
  {
    m :| m in s;
    var rest := s - {m};
    while rest != {}
      invariant rest <= s && m in s && m !in rest
      invariant forall x :: x in s && x !in rest && x != m ==> Less(m, x)
      decreases rest
    {
      var x :| x in rest;
      rest := rest - {x};
      if Less(x, m) {
        forall y | y in s && y !in rest && y != x
          ensures Less(x, y)
        {
          if y != m {
            LessTransitive(x, m, y);
          }
        }
        m := x;
      } else {
        LessTotal(x, m);
      }
    }
  }

  /** Python's `sorted` on a set of strings: its elements in strictly increasing order. */
  method SortStrings(s: set<string>) returns (sorted: seq<string>)
    ensures StrictlySorted(sorted)
    ensures forall u :: u in sorted <==> u in s
  {
    sorted := [];
    var rest := s;
    while rest != {}
      invariant forall u :: u in s <==> u in sorted || u in rest
      invariant forall u :: u in sorted ==> u !in rest
      invariant StrictlySorted(sorted)
      invariant forall i, x :: 0 <= i < |sorted| && x in rest ==> Less(sorted[i], x)
      decreases rest
    {
      var m := Smallest(rest);
      sorted := sorted + [m];
      rest := rest - {m};
    }
  }

  /** The loop that writes `sorted(all_links)`, one URL per line, skipping URLs that contain `/?q=`. */
  method WriteOutput(allLinks: set<string>) returns (lines: seq<string>)
    ensures StrictlySorted(lines)
    ensures forall u :: u in lines <==> u in allLinks && !Contains(u, QueryMarker)
  {
    var sorted := SortStrings(allLinks);
    lines := [];
    for i := 0 to |sorted|
      invariant StrictlySorted(lines)
      invariant forall u :: u in lines <==> u in sorted[..i] && !Contains(u, QueryMarker)
      invariant forall x, k :: x in lines && i <= k < |sorted| ==> Less(x, sorted[k])
    {
      assert sorted[..i + 1] == sorted[..i] + [sorted[i]];
      if !Contains(sorted[i], QueryMarker) {
        assert forall j :: 0 <= j < |lines| ==> Less(lines[j], sorted[i]) by {
          forall j | 0 <= j < |lines|
            ensures Less(lines[j], sorted[i])
          {
            assert lines[j] in lines;
          }
        }
        lines := lines + [sorted[i]];
      }
    }
    assert sorted[..|sorted|] == sorted;
  }

  /** The configuration `crawl_website` builds from its arguments. */
  function CrawlConfig(baseNetloc: string, startPath: string, skipPatterns: Option<seq<string>>, join: string -> Url): Config {
    Config(baseNetloc, FixStartPath(startPath), skipPatterns, join)
  }

  /**
   * `crawl_website`: fix the start path, crawl from the start URL, and return
   * the lines written to the output file: exactly the URLs reachable from the
   * start URL that do not contain `/?q=`, in strictly increasing order.
   */
  method CrawlWebsite(baseNetloc: string, startPath: string, skipPatterns: Option<seq<string>>,
                      join: string -> Url, site: map<string, seq<string>>)
    returns (lines: seq<string>)
    ensures var cfg := CrawlConfig(baseNetloc, startPath, skipPatterns, join);
      && StrictlySorted(lines)
      && forall u :: u in lines <==> Reachable(LinkGraph(cfg, site), StartKey(cfg), u) && !Contains(u, QueryMarker)
  {
    var fixedPath := NormalizeStartPath(startPath);
    var cfg := Config(baseNetloc, fixedPath, skipPatterns, join);
    var state := new CrawlState(cfg, site);
    state.DfsCrawl(StartKey(cfg));
    ghost var g := state.graph;
    ghost var start := StartKey(cfg);
    forall u | u in state.processed
      ensures Reachable(g, start, u)
    {
      var i :| 0 <= i < |state.fetchLog| && state.fetchLog[i] == u;
      var path := DiscoveredIsReachable(g, start, state.fetchLog, i);
    }
    ClosedReachableSetIsReachability(g, start, state.processed);
    lines := WriteOutput(state.allLinks);
  }

}
