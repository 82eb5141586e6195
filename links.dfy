/**
 * Site links: `basePath` is the site's base URL without its trailing slash,
 * and `linkTo(path)` joins it to a page path with exactly one separating
 * slash, dropping a single leading slash of the path.
 *
 * The base URL comes from the build environment; here it is a parameter.
 */
module Links {

  /** `s` ends with a slash. */
  predicate EndsWithSlash(s: string) {
    |s| > 0 && s[|s| - 1] == '/'
  }

  /** `s` starts with a slash. */
  predicate StartsWithSlash(s: string) {
    |s| > 0 && s[0] == '/'
  }

  /** `baseUrl.replace(/\/$/, '')`: one trailing slash removed, if there is one. */
  function BasePath(baseUrl: string): (r: string)
    ensures EndsWithSlash(baseUrl) ==> r + "/" == baseUrl
    ensures !EndsWithSlash(baseUrl) ==> r == baseUrl
  {
    if EndsWithSlash(baseUrl) then baseUrl[..|baseUrl| - 1] else baseUrl
  }

  /** `path.replace(/^\//, '')`: one leading slash removed, if there is one. */
  function StripLeadingSlash(path: string): (r: string)
    ensures StartsWithSlash(path) ==> "/" + r == path
    ensures !StartsWithSlash(path) ==> r == path
  {
    if StartsWithSlash(path) then path[1..] else path
  }

  /** `linkTo(path)`: the base path, one slash, then the path without its leading slash. */
  function LinkTo(baseUrl: string, path: string): (r: string)
    ensures |r| == |BasePath(baseUrl)| + 1 + |StripLeadingSlash(path)|
    ensures r[..|BasePath(baseUrl)| + 1] == BasePath(baseUrl) + "/"
    ensures r[|BasePath(baseUrl)| + 1..] == StripLeadingSlash(path)
  {
    var prefix := BasePath(baseUrl) + "/";
    var r := prefix + StripLeadingSlash(path);
    assert r[..|prefix|] == prefix;
    assert r[|prefix|..] == StripLeadingSlash(path);
    r
  }

  /** A base URL that does not end in a slash comes back with one added and removed again. */
  lemma BasePathDropsAddedSlash(baseUrl: string)
    requires !EndsWithSlash(baseUrl)
    ensures BasePath(baseUrl + "/") == baseUrl
  {
    assert (baseUrl + "/")[..|baseUrl|] == baseUrl;
  }

  /** Only one trailing slash goes: a base URL ending in "//" keeps one. */
  lemma BasePathStripsOnlyOne(baseUrl: string)
    requires |baseUrl| >= 2 && baseUrl[|baseUrl| - 1] == '/' && baseUrl[|baseUrl| - 2] == '/'
    ensures EndsWithSlash(BasePath(baseUrl))
  {
  }

  /** A path that already has its leading slash links to the same place as the bare path. */
  lemma LinkToIgnoresOneLeadingSlash(baseUrl: string, path: string)
    requires !StartsWithSlash(path)
    ensures LinkTo(baseUrl, "/" + path) == LinkTo(baseUrl, path)
  {
    assert ("/" + path)[1..] == path;
  }

  /** Only one leading slash goes: `linkTo("//x")` is the base path followed by "//x". */
  lemma LinkToStripsOnlyOne(baseUrl: string, rest: string)
    ensures LinkTo(baseUrl, "//" + rest) == BasePath(baseUrl) + "//" + rest
  {
    assert ("//" + rest)[1..] == "/" + rest;
  }

  /** Different page paths (after their optional leading slash) give different links. */
  lemma LinkToInjective(baseUrl: string, p: string, q: string)
    requires StripLeadingSlash(p) != StripLeadingSlash(q)
    ensures LinkTo(baseUrl, p) != LinkTo(baseUrl, q)
  {
    var n := |BasePath(baseUrl)| + 1;
    assert LinkTo(baseUrl, p)[n..] == StripLeadingSlash(p);
    assert LinkTo(baseUrl, q)[n..] == StripLeadingSlash(q);
  }

  /**
   * With the local-development base URL "/", the base path is empty and every
   * link is a slash followed by the path with at most one leading slash removed.
   */
  lemma RootBaseLinks(path: string)
    ensures BasePath("/") == ""
    ensures LinkTo("/", path) == "/" + StripLeadingSlash(path)
    ensures StartsWithSlash(LinkTo("/", path))
  {
  }

  /**
   * With the deployed base "/webgpu-practice", given with or without its
   * trailing slash, links live under "/webgpu-practice/".
   */
  lemma DeployedBaseLinks(path: string)
    ensures BasePath("/webgpu-practice") == BasePath("/webgpu-practice/") == "/webgpu-practice"
    ensures LinkTo("/webgpu-practice/", path) == "/webgpu-practice/" + StripLeadingSlash(path)
    ensures LinkTo("/webgpu-practice", path) == "/webgpu-practice/" + StripLeadingSlash(path)
  {
  }
}
