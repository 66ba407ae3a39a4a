/**
 * A worked crawl: two documentation pages that link to each other, plus an
 * anchor and an image link the filter drops. The crawl stops after fetching
 * each page once and writes both pages, in order.
 */
module CrawlExamples {

  import opened Maybe
  import opened Strings
  import opened Urls
  import opened Graphs
  import opened Crawler

  const Host: string := "x.io"
  const PageA: string := "https://x.io/g/"
  const PageB: string := "https://x.io/g/i/"

  /** `urlparse(urljoin("https://x.io", href))` for the root-relative hrefs used here. */
  function Resolve(href: string): Url {
    Url("https", Host, href, "", "", "")
  }

  const HrefsA: seq<string> := ["/g/i/", "#top"]
  const HrefsB: seq<string> := ["/g/", "/g/a.png"]

  /** A links to B and to an anchor on itself; B links back to A and to an image. */
  function CycleSite(): map<string, seq<string>> {
    map[PageA := HrefsA, PageB := HrefsB]
  }

  /** The configuration once the start path `g` has been fixed up to `/g/`. */
  function CycleConfig(): Config {
    Config(Host, "/g/", None, Resolve)
  }

  lemma KeyOfA()
    ensures Unparse(Resolve("/g/")) == PageA
  {
  }

  lemma KeyOfB()
    ensures Unparse(Resolve("/g/i/")) == PageB
  {
  }

  /** The start path is given without slashes, as `g`; the crawl starts at A. */
  lemma CycleConfigShape()
    ensures CrawlConfig(Host, "g", None, Resolve) == CycleConfig()
    ensures StartKey(CycleConfig()) == PageA
  {
    assert "g"[0] == 'g';
    assert "/g"[1] == 'g';
    assert FixStartPath("g") == "/g/";
    KeyOfA();
  }

  lemma LinkToA()
    ensures Admissible(CycleConfig(), "/g/") && LinkKey(CycleConfig(), "/g/") == PageA
  {
    KeyOfA();
    assert Normalize(Resolve("/g/")) == Resolve("/g/");
    NoDotNoAsset("/g/");
  }

  lemma LinkToB()
    ensures Admissible(CycleConfig(), "/g/i/") && LinkKey(CycleConfig(), "/g/i/") == PageB
  {
    KeyOfB();
    assert Normalize(Resolve("/g/i/")) == Resolve("/g/i/");
    assert "/g/i/"[..3] == "/g/";
    NoDotNoAsset("/g/i/");
  }

  /** The image link `/g/a.png` is dropped because its normalised path holds `.png`. */
  lemma ImageDropped()
    ensures !Admissible(CycleConfig(), "/g/a.png")
  {
    var n := Normalize(Resolve("/g/a.png"));
    assert n.path == "/g/a.png/";
    assert n.path[4..8] == ".png";
    AssetOccurrenceRejects(CycleConfig().startPath, n, ".png", 4);
  }

  lemma LinksOfA()
    ensures Links(CycleConfig(), HrefsA) == {PageB}
  {
    LinkToB();
    LinksOfTwo(CycleConfig(), "/g/i/", "#top");
  }

  lemma LinksOfB()
    ensures Links(CycleConfig(), HrefsB) == {PageA}
  {
    LinkToA();
    ImageDropped();
    LinksOfTwo(CycleConfig(), "/g/", "/g/a.png");
  }

  /** The link graph of the site is the two-page cycle: the anchor and the image contribute nothing. */
  lemma CycleGraph()
    ensures var g := LinkGraph(CycleConfig(), CycleSite());
      Out(g, PageA) == {PageB} && Out(g, PageB) == {PageA}
  {
    LinksOfA();
    LinksOfB();
    assert PageA != PageB;
  }

  /** In a graph where `a` and `b` link only to each other, exactly `a` and `b` are reachable from `a`. */
  lemma TwoCycleReachable<T(!new)>(g: map<T, set<T>>, a: T, b: T)
    requires Out(g, a) == {b} && Out(g, b) == {a}
    ensures forall u :: Reachable(g, a, u) <==> u == a || u == b
  {
    assert IsPath(g, a, [a]);
    assert IsPath(g, a, [a, b]);
    ClosedReachableSetIsReachability(g, a, {a, b});
  }

  /** Neither page holds `/?q=`, and A sorts before B. */
  lemma CycleOutputShape()
    ensures !Contains(PageA, QueryMarker) && !Contains(PageB, QueryMarker)
    ensures StrictlySorted([PageA, PageB])
  {
    assert QueryMarker[1] == '?';
    AbsentChar(PageA, QueryMarker, 1);
    AbsentChar(PageB, QueryMarker, 1);
    assert PageB[..|PageA|] == PageA;
    ProperPrefixLess(PageA, PageB);
  }

  /** The only strictly sorted listing of A and B without `/?q=` URLs is A then B. */
  lemma CycleListing(g: map<string, set<string>>, lines: seq<string>)
    requires Out(g, PageA) == {PageB} && Out(g, PageB) == {PageA}
    requires StrictlySorted(lines)
    requires forall u :: u in lines <==> Reachable(g, PageA, u) && !Contains(u, QueryMarker)
    ensures lines == [PageA, PageB]
  {
    TwoCycleReachable(g, PageA, PageB);
    CycleOutputShape();
    SortedListingUnique(lines, [PageA, PageB]);
  }

  /** The crawl of the cycle ends, and writes A then B. */
  method CrawlCycle() returns (lines: seq<string>)
    ensures lines == [PageA, PageB]
  {
    lines := CrawlWebsite(Host, "g", None, Resolve, CycleSite());
    CycleConfigShape();
    CycleGraph();
    CycleListing(LinkGraph(CycleConfig(), CycleSite()), lines);
  }

}
