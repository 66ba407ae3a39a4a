/**
 * The URL helpers nested in `crawl_website` (crawler.py): the start-path
 * fix-up, `normalize_url`, `should_skip_url` and `is_valid_subpage`.
 *
 * A URL is the six-part record `urlparse` produces; parsing and joining are
 * library behaviour and are not modelled at the character level. `Unparse`
 * gives the string key a parsed URL stands for.
 */
module Urls {

  import opened Maybe
  import opened Strings

  /** `urllib.parse.ParseResult`: (scheme, netloc, path, params, query, fragment). */
  datatype Url = Url(scheme: string, netloc: string, path: string, params: string, query: string, fragment: string)

  /** `urlunparse`: the string a parsed URL is written back as (separators only for non-empty parts). */
  function Unparse(u: Url): string {
    (if u.scheme != "" then u.scheme + ":" else "")
    + (if u.netloc != "" then "//" + u.netloc else "")
    + u.path
    + (if u.params != "" then ";" + u.params else "")
    + (if u.query != "" then "?" + u.query else "")
    + (if u.fragment != "" then "#" + u.fragment else "")
  }

  // ---------------------------------------------------------------------
  // Start path
  // ---------------------------------------------------------------------

  /**
   * The start path the crawl is scoped to: the given path wrapped in slashes,
   * each added only where the path lacks one; the empty path becomes `/`.
   */
  function FixStartPath(p: string): string {
    if p == "" then "/"
    else (if p[0] == '/' then "" else "/") + p + (if p[|p| - 1] == '/' then "" else "/")
  }

  /** The fix-up itself: prepend `/` when missing, then append `/` when missing. */
  method NormalizeStartPath(startPath: string) returns (r: string)
    ensures r == FixStartPath(startPath)
    ensures StartsWith(r, "/") && EndsWith(r, "/")
    ensures StartsWith(startPath, "/") && EndsWith(startPath, "/") ==> r == startPath
  {
    r := startPath;
    if !StartsWith(r, "/") {
      r := "/" + r;
    }
    if !EndsWith(r, "/") {
      r := r + "/";
    }
  }

  /**
   * The fixed start path begins and ends with `/`, keeps the given path
   * between an optional leading and an optional trailing slash, and leaves
   * a path that already has both unchanged.
   */
  lemma FixStartPathShape(p: string)
    ensures var r := FixStartPath(p);
      && StartsWith(r, "/") && EndsWith(r, "/")
      && (StartsWith(p, "/") && EndsWith(p, "/") ==> r == p)
      && (r == p || r == "/" + p || r == p + "/" || r == "/" + p + "/")
  {
  }

  /** Fixing the start path twice changes nothing more. */
  lemma FixStartPathIdempotent(p: string)
    ensures FixStartPath(FixStartPath(p)) == FixStartPath(p)
  {
    FixStartPathShape(p);
    FixStartPathShape(FixStartPath(p));
  }

  // ---------------------------------------------------------------------
  // normalize_url
  // ---------------------------------------------------------------------

  /** `normalize_url`: drop the fragment and make the path end with `/`. */
  function Normalize(u: Url): (r: Url)
    ensures r.fragment == ""
    ensures EndsWith(r.path, "/")
    ensures r.scheme == u.scheme && r.netloc == u.netloc && r.params == u.params && r.query == u.query
    ensures StartsWith(r.path, u.path) && |r.path| <= |u.path| + 1
    ensures EndsWith(u.path, "/") ==> r.path == u.path
  {
    var path := if EndsWith(u.path, "/") then u.path else u.path + "/";
    assert (u.path + "/")[..|u.path|] == u.path;
    u.(fragment := "", path := path)
  }

  lemma NormalizeIdempotent(u: Url)
    ensures Normalize(Normalize(u)) == Normalize(u)
  {
  }

  /** Exactly the URLs without a fragment whose path ends with `/` are left as they are. */
  lemma NormalizeFixpoint(u: Url)
    ensures Normalize(u) == u <==> u.fragment == "" && EndsWith(u.path, "/")
  {
  }

  // ---------------------------------------------------------------------
  // should_skip_url
  // ---------------------------------------------------------------------

  /** Some configured skip pattern occurs in the URL (`None` and `[]` skip nothing). */
  predicate Skipped(skipPatterns: Option<seq<string>>, url: string) {
    skipPatterns.Some? && exists p :: p in skipPatterns.value && Contains(url, p)
  }

  /** `should_skip_url`: scan the patterns in order and stop at the first one found in the URL. */
  method ShouldSkipUrl(skipPatterns: Option<seq<string>>, url: string) returns (skip: bool)
    ensures skip <==> Skipped(skipPatterns, url)
    ensures skipPatterns == None || skipPatterns == Some([]) ==> !skip
  {
    if skipPatterns.Some? && skipPatterns.value != [] {
      var patterns := skipPatterns.value;
      for i := 0 to |patterns|
        invariant forall j :: 0 <= j < i ==> !Contains(url, patterns[j])
      {
        if Contains(url, patterns[i]) {
          return true;
        }
      }
    }
    return false;
  }

  // ---------------------------------------------------------------------
  // is_valid_subpage
  // ---------------------------------------------------------------------

  /** The extensions that mark a static resource rather than a page. */
  const AssetExtensions: seq<string> := [".jpg", ".png", ".gif", ".css", ".js"]

  /** Some asset extension occurs anywhere in the lower-cased path (not only at its end). */
  predicate HasAssetExtension(path: string) {
    exists ext :: ext in AssetExtensions && Contains(Lower(path), ext)
  }

  /** `is_valid_subpage`: under the start path (case-sensitive) and not a resource file. */
  predicate IsValidSubpage(startPath: string, u: Url) {
    StartsWith(u.path, startPath) && !HasAssetExtension(u.path)
  }

  /** A path without a `.` names no resource file, since every asset extension starts with one. */
  lemma NoDotNoAsset(path: string)
    requires '.' !in path
    ensures !HasAssetExtension(path)
  {
    var low := Lower(path);
    assert '.' !in low by {
      forall i | 0 <= i < |low|
        ensures low[i] != '.'
      {
        assert path[i] in path;
      }
    }
    forall ext | ext in AssetExtensions
      ensures !Contains(low, ext)
    {
      AbsentChar(low, ext, 0);
    }
  }

  lemma LowerAppend(s: string, c: char)
    ensures Lower(s + [c]) == Lower(s) + [LowerChar(c)]
  {
  }

  /** Appending `/` to a path creates no asset extension, because no extension contains `/`. */
  lemma NoAssetAppendSlash(path: string)
    requires !HasAssetExtension(path)
    ensures !HasAssetExtension(path + "/")
  {
    LowerAppend(path, '/');
    forall ext | ext in AssetExtensions
      ensures !Contains(Lower(path + "/"), ext)
    {
      ContainsAppend(Lower(path), '/', ext);
    }
  }

  /**
   * A URL that is a valid subpage stays one once normalised: the slash that
   * normalisation may append keeps the start-path prefix and creates no asset
   * extension.
   */
  lemma NormalizeKeepsValidSubpage(startPath: string, u: Url)
    requires IsValidSubpage(startPath, u)
    ensures IsValidSubpage(startPath, Normalize(u))
  {
    var n := Normalize(u);
    if n.path != u.path {
      assert (u.path + "/")[..|startPath|] == u.path[..|startPath|];
      NoAssetAppendSlash(u.path);
    }
  }

  lemma AssetExtensionsNoUpperCase()
    ensures forall ext :: ext in AssetExtensions ==> NoUpperCase(ext)
  {
    assert NoUpperCase(".jpg") && NoUpperCase(".png") && NoUpperCase(".gif");
    assert NoUpperCase(".css") && NoUpperCase(".js");
  }

  /** An asset extension found in the path, in any letter case, rejects the URL. */
  lemma AssetOccurrenceRejects(startPath: string, u: Url, ext: string, i: int)
    requires ext in AssetExtensions
    requires OccursAt(u.path, ext, i) || OccursAt(u.path, Upper(ext), i)
    ensures !IsValidSubpage(startPath, u)
  {
    AssetExtensionsNoUpperCase();
    LowerOfUpper(ext);
    var j := i + |ext|;
    LowerSlice(u.path, i, j);
    assert Lower(u.path)[i..j] == ext;
    assert OccursAt(Lower(u.path), ext, i);
  }

  /** `/docs/image.png/extra` is rejected: the extension need not end the path. */
  lemma AssetInsidePathRejected()
    ensures !IsValidSubpage("/docs/", Url("https", "example.com", "/docs/image.png/extra/", "", "", ""))
  {
    var u := Url("https", "example.com", "/docs/image.png/extra/", "", "", "");
    assert u.path[11..15] == ".png";
    AssetOccurrenceRejects("/docs/", u, ".png", 11);
  }

  /** With start path `/docs/`, a page under it is accepted and one elsewhere is rejected. */
  lemma StartPathScopeExample()
    ensures IsValidSubpage("/docs/", Url("https", "example.com", "/docs/page/", "", "", ""))
    ensures !IsValidSubpage("/docs/", Url("https", "example.com", "/other/page/", "", "", ""))
  {
    NoDotNoAsset("/docs/page/");
    var other := "/other/page/";
    assert other[1] == 'o';
  }

}
