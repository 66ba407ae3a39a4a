# Documentation crawler and page-to-PDF batch, modelled in Dafny

The system crawls one documentation site depth-first. It starts from
`base_url` + `start_path`. It keeps only links on the same host, under the
start path and not pointing at images, scripts or stylesheets. It writes the
URLs it found to a file, sorted. A second program then prints each URL to a
numbered PDF page and merges the pages that rendered into one document.

This project models that logic and proves what it promises:

- `strings.dfy` (module `Strings`): Python's `startswith`, `endswith`, substring `in`, ASCII `lower()`, the code-point order that `sorted` uses on `str`, and `str(i)` for page numbers.
- `urls.dfy` (module `Urls`): a URL as the six-part `urlparse` record; the start-path fix-up; `normalize_url`; `should_skip_url`; `is_valid_subpage`.
- `graphs.dfy` (module `Graphs`): reachability in a finite link graph, and the visit log that ties a depth-first crawl to it.
- `crawler.dfy` (module `Crawler`):
  - the href filter of `get_links_from_page`;
  - `dfs_crawl` as a class holding the shared `processed` and `all_links` sets;
  - the sorted, `/?q=`-filtered output pass;
  - `crawl_website` end to end.
- `crawl_examples.dfy` (module `CrawlExamples`): a two-page site whose pages link to each other. The crawl ends and writes exactly those two pages, in order.
- `pdf_generator.dfy` (module `PdfGenerator`): `save_webpage_as_pdf` over a browser oracle, and `generate_pdf_from_urls` with its page numbering, merge guard, cleanup and result.
- `maybe.dfy` (module `Maybe`): the `Option` type used for `skip_patterns=None`.

External services are inputs to the model:

- The browser during a crawl is a map `site` from a page URL to the raw hrefs on that page, in document order. A URL the map does not hold is a page whose load or parse raised, so `get_links_from_page` returns no links for it.
- `urljoin(base_url, href)` followed by `urlparse` is a function `join` from href to URL record.
- The browser during PDF generation is a `Browser` record of three predicates. They say whether navigation, the settle wait and `page.pdf` complete for a URL and output file.

The central results:

- `Crawler.CrawlWebsite`: the lines written are strictly increasing. They are exactly the URLs reachable from the start URL in the site's link graph that do not contain `/?q=`.
- `Crawler.CrawlState.DfsCrawl`:
  - terminates on any site, cycles included;
  - fetches every page at most once;
  - keeps `processed == all_links`;
  - leaves a set closed under links.
- `PdfGenerator.GeneratePdfFromUrls`: every URL is attempted once, with its 1-based index. The file-system and merger calls form an ordered trace. `temp_pdfs` is created first. The merge runs only if some page was saved, and it appends exactly the saved files in input order before writing the output. Every removal comes after the merge, and `temp_pdfs` is removed last. The result is true iff some page was saved.

## Model

| member | source | states |
|---|---|---|
| Urls.FixStartPath | crawler.py:21-24 | definition of the fixed start path: the given path with `/` added in front and at the end only where it lacks one; the empty path becomes `/` |
| Urls.NormalizeStartPath | crawler.py:20-24 | the two conditional string updates produce the wrapped path of `FixStartPath`; it begins and ends with `/`, and a path that already has both is returned unchanged |
| Urls.FixStartPathShape | crawler.py:21-24 | the fix-up adds at most a leading and a trailing `/` to the given path, and the result begins and ends with `/` |
| Urls.FixStartPathIdempotent | crawler.py:21-24 | fixing an already fixed start path changes nothing |
| Urls.Normalize | crawler.py:30-40 | the fragment is cleared; the path ends with `/`; it extends the old path by at most one character; scheme, host, params and query are unchanged |
| Urls.NormalizeIdempotent | crawler.py:30-40 | normalising twice is normalising once |
| Urls.NormalizeFixpoint | crawler.py:30-40 | a URL is left unchanged iff it has no fragment and its path already ends with `/` |
| Urls.ShouldSkipUrl | crawler.py:42-49 | the URL is skipped iff some configured pattern is a substring of it; `None` and an empty list skip nothing |
| Urls.IsValidSubpage | crawler.py:51-64 | definition: the path starts with the start path (case-sensitive) and its lower-cased form contains none of `.jpg`, `.png`, `.gif`, `.css`, `.js` anywhere |
| Urls.NoDotNoAsset | crawler.py:60-62 | a path without `.` never counts as a resource file |
| Urls.NoAssetAppendSlash | crawler.py:37-38 | the `/` that normalisation appends cannot create a resource extension |
| Urls.NormalizeKeepsValidSubpage | crawler.py:51-64 | a valid subpage is still one after normalisation |
| Urls.AssetExtensionsNoUpperCase | crawler.py:61 | the five resource extensions are written in lower case |
| Urls.AssetOccurrenceRejects | crawler.py:61-62 | a resource extension, in either letter case, anywhere in the path rejects the URL |
| Urls.AssetInsidePathRejected | crawler.py:61-62 | `/docs/image.png/extra/` is rejected, although `.png` does not end it |
| Urls.StartPathScopeExample | crawler.py:56-58 | under start path `/docs/`, `/docs/page/` is accepted and `/other/page/` is rejected |
| Strings.AbsentChar | crawler.py:153 | a string lacking any one character of a pattern does not contain the pattern |
| Strings.Less | crawler.py:151 | definition of the order `sorted` uses on `str`: lexicographic by code point, a proper prefix first |
| Strings.LessIrreflexive | crawler.py:151 | no string sorts before itself |
| Strings.LessTransitive | crawler.py:151 | the order `sorted` uses is transitive |
| Strings.LessTotal | crawler.py:151 | of two distinct strings, one sorts before the other |
| Strings.LessAsymmetric | crawler.py:151 | two strings never sort before each other |
| Strings.ProperPrefixLess | crawler.py:151 | a proper prefix sorts first |
| Strings.SortedListingUnique | crawler.py:151 | two strictly increasing listings of the same set are equal, so the output depends only on the set |
| Strings.DecimalString | pdf_generator.py:66 | `str(i)` is a non-empty string of digits |
| Strings.DecimalRoundTrip | pdf_generator.py:66 | reading back the digits of `str(i)` gives `i` |
| Strings.DecimalInjective | pdf_generator.py:66 | distinct indices have distinct decimal forms |
| Crawler.Admissible | crawler.py:83-103 | definition of an href the loop keeps: not empty, not starting with `#`, on the base URL's host after joining, its normalised URL matching no skip pattern and being a valid subpage |
| Crawler.AdmissibleLinkIsCanonical | crawler.py:84-103 | every kept link: is on the base host; is in normalised form (a fixed point of normalisation, no fragment, path ending in `/`); lies under the start path; matches no skip pattern |
| Crawler.LinksAppend | crawler.py:80-103 | one more href adds its normalised target exactly when the href passes every filter |
| Crawler.LinksOfTwo | crawler.py:80-103 | the targets of a page with two hrefs are the targets of each href that passes the filters |
| Crawler.AnchorsContributeNothing | crawler.py:83-85 | empty hrefs and hrefs starting with `#` add no link |
| Crawler.FilterLinks | crawler.py:79-106 | the result is exactly the targets of the page's admissible hrefs that are not processed yet, and none matches a skip pattern |
| Crawler.LinksInUniverse | crawler.py:111-126 | every link of every page lies in the finite set of URLs the crawl can process, which bounds the recursion |
| Crawler.CrawlState.constructor | crawler.py:16-18 | both sets start empty, nothing has been fetched, and the crawl invariant holds |
| Crawler.CrawlState.GetLinksFromPage | crawler.py:66-109 | the result is the page's links not yet processed; a page that failed to load (absent from `site`) has no links |
| Crawler.CrawlState.DfsCrawl | crawler.py:111-126 | keeps `processed == all_links`, each page fetched once, in an order where every page is linked from an earlier one; the sets only grow; the URL ends processed; a processed URL is a no-op; every newly processed page has all its links processed |
| Crawler.CrawlState.CrawlLinks | crawler.py:123-126 | after the loop over a page's links, every link of that page is processed, and the crawl invariant and the closure of newly processed pages are kept |
| Crawler.Smallest | crawler.py:151 | the result is a member of the set and sorts before every other member |
| Crawler.SortStrings | crawler.py:151 | `sorted(s)` is strictly increasing and holds exactly the elements of `s` |
| Crawler.WriteOutput | crawler.py:150-156 | the lines are strictly increasing (hence duplicate-free), and are exactly the URLs of `all_links` without `/?q=` |
| Crawler.CrawlWebsite | crawler.py:6-156 | the lines written are strictly increasing, and are exactly the URLs reachable from the start URL in the site's link graph that do not contain `/?q=` |
| Graphs.ClosedSetHoldsPath | crawler.py:124-126 | a set that holds the start and every link of its members holds every page on a path from the start |
| Graphs.DiscoveredIsReachable | crawler.py:121-126 | every page in the crawl's fetch order has a link path from the start URL |
| Graphs.ClosedReachableSetIsReachability | crawler.py:111-126 | the processed set, closed under links and made of reachable pages, is exactly the set of reachable pages |
| Graphs.VisitStep | crawler.py:113-118 | visiting the start first, or later a link of a fetched page, keeps the fetch log duplicate-free and in discovery order |
| CrawlExamples.CycleConfigShape | crawler.py:21-27 | start path `g` becomes `/g/`, and the crawl starts at `https://x.io/g/` |
| CrawlExamples.LinkToA | crawler.py:84-103 | the href `/g/` is kept, as `https://x.io/g/` |
| CrawlExamples.LinkToB | crawler.py:84-103 | the href `/g/i/` is kept, as `https://x.io/g/i/` |
| CrawlExamples.ImageDropped | crawler.py:61-62 | the href `/g/a.png` is dropped |
| CrawlExamples.LinksOfA | crawler.py:79-106 | page A's links are B alone; its `#top` anchor adds nothing |
| CrawlExamples.LinksOfB | crawler.py:79-106 | page B's links are A alone; its image adds nothing |
| CrawlExamples.CycleGraph | crawler.py:79-106 | the site's link graph is the cycle A to B to A |
| CrawlExamples.TwoCycleReachable | crawler.py:111-126 | in any two-page cycle, exactly those two pages are reachable from either page |
| CrawlExamples.CycleOutputShape | crawler.py:151-154 | neither page contains `/?q=`, and A sorts before B |
| CrawlExamples.CycleListing | crawler.py:150-156 | the only listing the output pass can write for the cycle is A, then B |
| CrawlExamples.CrawlCycle | crawler.py:111-156 | the crawl of the two-page cycle terminates and writes exactly A, then B |
| PdfGenerator.SaveWebpageAsPdf | pdf_generator.py:5-34 | it never raises; it returns true iff navigation, the settle wait and `page.pdf` all completed |
| PdfGenerator.PagePath | pdf_generator.py:66 | definition of the file for the page with index i: `temp_pdfs/page_{i}.pdf` |
| PdfGenerator.PagePathInjective | pdf_generator.py:66 | distinct indices give distinct files `temp_pdfs/page_{i}.pdf` |
| PdfGenerator.SavedIndices | pdf_generator.py:65-70 | the saved pages' 1-based indices are strictly increasing, between 1 and the number of URLs, and no more than the URLs |
| PdfGenerator.SavedFiles | pdf_generator.py:65-70 | definition of `successful_pdfs`: the page files of the URLs whose render returned true, in input order |
| PdfGenerator.SavedIndicesExact | pdf_generator.py:65-70 | index k is listed iff URL number k was saved to `page_k.pdf` |
| PdfGenerator.SavedFilesExact | pdf_generator.py:65-70 | `successful_pdfs` holds `page_k.pdf` iff URL number k was saved; it holds no more files than URLs and no file twice |
| PdfGenerator.NoneSavedIffAllFailed | pdf_generator.py:65-70 | `successful_pdfs` is empty iff every render failed |
| PdfGenerator.SecondOfThreeFails | pdf_generator.py:65-70 | when the second of three URLs fails, the files are `page_1.pdf` and `page_3.pdf`: the failure still used up index 2 |
| PdfGenerator.SavedFilesStep | pdf_generator.py:69-70 | one more URL appends its file exactly when its render returned true |
| PdfGenerator.RenderAll | pdf_generator.py:54-72 | every URL is attempted exactly once, in order, with index k+1 and file `page_{k+1}.pdf`; a failure does not stop later URLs; the collected files are exactly the saved ones, in input order |
| PdfGenerator.BatchCalls | pdf_generator.py:48-96 | definition of the call trace for the saved files: `makedirs`; an append per file and the write, only if there is any file; a removal per file; `rmdir` |
| PdfGenerator.MergeBeforeRemoval | pdf_generator.py:75-91 | in the trace, every append and the write come before every removal |
| PdfGenerator.BatchCallsMembers | pdf_generator.py:75-91 | a file is appended iff it is removed iff it was saved; the output is written iff some file was saved |
| PdfGenerator.BatchCallsOrder | pdf_generator.py:48-96 | in the call trace: `makedirs` comes first and `rmdir` last; every append and the write come before every removal; the write happens iff some file was saved; exactly the saved files are appended and exactly they are removed |
| PdfGenerator.GeneratePdfFromUrls | pdf_generator.py:36-98 | one attempt per URL, with index k+1 and file `page_{k+1}.pdf`; the ordered trace of file-system and merger calls is `makedirs`, then an append per saved file in input order and the write if any was saved, then a removal per saved file, then `rmdir`; the result is true iff some URL rendered |

## Left out

- Browser control (Playwright launch, viewport, user agent, `goto`, `wait_for_load_state`, `content`, the PDF layout options) is represented only by the `site` map and the `Browser` predicates.
- HTML parsing with BeautifulSoup is not modelled; each page is its list of raw hrefs.
- `urljoin` and `urlparse` are the input function `join`. Like the source, the model resolves each href on its own, independently of the page it was found on. Because `urljoin`'s own rules are not modelled, the model cannot show their consequence: a relative href on a nested page is resolved against `base_url`, not against that page.
- Urls.Unparse: a simplified `urlunparse` that writes only the separators of non-empty parts. `is_valid_subpage` re-parses the normalised string. The model instead reads the path from the record, so it assumes that `urlparse(urlunparse(p))` returns `p`.
- Strings.Lower: lower-cases ASCII letters only. Python's `str.lower` also folds non-ASCII letters, which does not matter for the ASCII extensions tested here.
- Crawler.FilterLinks: `join` is total. An href whose resolution raises makes the source's `get_links_from_page` return no links for the whole page. The model represents only whole-page failure, through a URL missing from `site`.
- Crawler.CrawlState.DfsCrawl: Python iterates a set in an order the model does not fix. The loop picks any remaining link, and every contract holds for every order.
- Crawler.CrawlState.DfsCrawl: Python's recursion limit is not modelled. On a very deep site the source raises `RecursionError`, and the model recurses without bound.
- Crawler.CrawlWebsite: `print` logging and the `time.sleep` and timeout waits are not modelled. The output file is the returned list of lines.
- Crawler.CrawlWebsite: the final statistics (`len(processed)` and `len(all_links)`) are only printed, so they are not modelled.
- PdfGenerator.GeneratePdfFromUrls: assumes that `os.makedirs`, `PdfMerger.append` and `PdfMerger.write` succeed. In the source, an exception there ends the call before cleanup. These calls and the deletions are returned as an ordered trace of the calls made. Their outcomes are not modelled, and the source ignores deletion errors.
- PdfGenerator.GeneratePdfFromUrls: web_to_pdf.py:34 passes a third argument, `cookie_accept_button_text`, but `generate_pdf_from_urls` (pdf_generator.py:36) takes only `urls` and `output_filename`. The code has no retry loop and no cookie-consent step. The model follows pdf_generator.py: each URL is attempted exactly once, and the function takes only the URL list and the output file name.
- The `main` functions and web_to_pdf.py (command-line glue that reads `docs.txt` and calls the two functions) are not part of this model.
