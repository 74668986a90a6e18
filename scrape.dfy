/**
 * The scraping side of indiegala.js: the Steam link and Steam id taken from a
 * giveaway's detail page, the record stored for it, and the walk over the
 * giveaway listing pages. The HTML selectors and the browser itself are not
 * modelled; what they return is passed in.
 */
module Scrape {
  import opened Options
  import opened Text
  import opened Model

  /** JavaScript's `s.lastIndexOf(c)`: the last position of `c` in `s`, or -1. */
  function LastIndexOf(s: string, c: char): (i: int)
    ensures -1 <= i < |s|
    ensures i >= 0 ==> s[i] == c
    ensures forall j :: i < j < |s| ==> s[j] != c
  {
    if s == [] then -1
    else if s[|s| - 1] == c then |s| - 1
    else LastIndexOf(s[..|s| - 1], c)
  }

  predicate EndsWithSlash(s: string) {
    |s| > 0 && s[|s| - 1] == '/'
  }

  /** `if (steamUrl.endsWith('/')) steamUrl = steamUrl.slice(0, -1)`. */
  function TrimTrailingSlash(url: string): (t: string)
    ensures url == t || url == t + "/"
    ensures t == url <==> !EndsWithSlash(url)
  {
    if EndsWithSlash(url) then url[..|url| - 1] else url
  }

  /** `steamUrl.substring(steamUrl.lastIndexOf('/') + 1)`. */
  function SteamIdText(steamUrl: string): (id: string)
    ensures '/' !in id
    ensures |id| <= |steamUrl| && steamUrl[|steamUrl| - |id|..] == id
    ensures |id| < |steamUrl| ==> steamUrl[|steamUrl| - |id| - 1] == '/'
    ensures '/' !in steamUrl ==> id == steamUrl
  {
    steamUrl[LastIndexOf(steamUrl, '/') + 1..]
  }

  /** The end date: -1 when the page's script holds no `new Date(Date.UTC(...))`. */
  function EndTime(found: Option<int>): int {
    match found
    case None => -1
    case Some(seconds) => seconds
  }

  /**
   * The record built for one detail page, from what the selectors return: the
   * id, the name, the price text, the end date found (if any), the level text
   * and the Steam link.
   */
  function GiveawayFromPage(id: int, name: string, price: string, endFound: Option<int>, level: string, steamLink: string): (g: Scraped)
    ensures g.id == id && g.name == name && g.price == price && g.level == level
    ensures g.steamUrl == TrimTrailingSlash(steamLink) && g.steamId == SteamIdText(g.steamUrl)
    ensures g.steamUrl == steamLink || g.steamUrl + "/" == steamLink
    ensures '/' !in g.steamId
    ensures g.endDate == EndTime(endFound)
    ensures g.endDate == -1 <==> endFound.None? || endFound.value == -1
  {
    var steamUrl := TrimTrailingSlash(steamLink);
    Scraped(id, name, price, EndTime(endFound), level, steamUrl, SteamIdText(steamUrl))
  }

  /** The Steam id ends the stored link, right after its last '/' (when it has one). */
  lemma SteamIdEndsLink(steamLink: string)
    ensures var t := TrimTrailingSlash(steamLink); var id := SteamIdText(t);
      && StartsWith(steamLink, t)
      && '/' !in id
      && t == t[..|t| - |id|] + id
      && (|id| < |t| ==> t[|t| - |id| - 1] == '/')
  {
    var t := TrimTrailingSlash(steamLink);
    var id := SteamIdText(t);
    assert steamLink[..|t|] == t;
    assert StartsWith(steamLink, t);
    assert t[|t| - |id|..] == id;
    assert t == t[..|t| - |id|] + t[|t| - |id|..];
  }

  /** The URL of listing page `n`. */
  function ListingUrl(baseUrl: string, n: int, level: string): string {
    baseUrl + "/giveaways/" + IntToString(n) + "/expiry/asc/level/" + level
  }

  /** Different page numbers give different listing URLs. */
  lemma ListingUrlInjective(baseUrl: string, n: int, m: int, level: string)
    requires ListingUrl(baseUrl, n, level) == ListingUrl(baseUrl, m, level)
    ensures n == m
  {
    var p := baseUrl + "/giveaways/";
    var q := "/expiry/asc/level/" + level;
    var dn, dm := IntToString(n), IntToString(m);
    assert ListingUrl(baseUrl, n, level) == p + dn + q;
    assert ListingUrl(baseUrl, m, level) == p + dm + q;
    assert |dn| == |dm|;
    assert dn == (p + dn + q)[|p|..|p| + |dn|];
    assert dm == (p + dm + q)[|p|..|p| + |dm|];
    IntToStringInjective(n, m);
  }

  /** The URLs of listing pages 1, 2, ..., `k`, in that order. */
  function ListingPages(baseUrl: string, level: string, k: nat): seq<string> {
    if k == 0 then [] else ListingPages(baseUrl, level, k - 1) + [ListingUrl(baseUrl, k, level)]
  }

  /** Page `j + 1` is at position `j`. */
  lemma {:induction false} ListingPagesAt(baseUrl: string, level: string, k: nat)
    ensures |ListingPages(baseUrl, level, k)| == k
    ensures forall j :: 0 <= j < k ==> ListingPages(baseUrl, level, k)[j] == ListingUrl(baseUrl, j + 1, level)
  {
    if k > 0 {
      ListingPagesAt(baseUrl, level, k - 1);
    }
  }

  /**
   * `parseGiveawaysList`: `async.timesSeries(pagesToParse + 1, ...)` counts
   * n = 0, 1, ..., pagesToParse, skips n = 0 and loads listing page n. The
   * pages in `failing` are those whose load fails: the series then stops
   * there, and the returned promise is never resolved.
   */
  method ParseGiveawaysList(baseUrl: string, pagesToParse: nat, level: string, failing: set<int>)
    returns (visited: seq<string>, resolved: bool)
    ensures |visited| <= pagesToParse
    ensures visited == ListingPages(baseUrl, level, |visited|)
    ensures forall n :: 1 <= n < |visited| ==> n !in failing
    ensures resolved <==> |visited| == pagesToParse && forall n :: 1 <= n <= pagesToParse ==> n !in failing
    ensures !resolved ==> 1 <= |visited| && |visited| in failing
  {
    visited := [];
    var n := 0;
    while n < pagesToParse + 1
      invariant 0 <= n <= pagesToParse + 1
      invariant |visited| == if n == 0 then 0 else n - 1
      invariant visited == ListingPages(baseUrl, level, |visited|)
      invariant forall m :: 1 <= m <= |visited| ==> m !in failing
    {
      if n == 0 {
        // the series counts from zero, the listing pages from one
      } else {
        visited := visited + [ListingUrl(baseUrl, n, level)];
        if n in failing {
          return visited, false;
        }
      }
      n := n + 1;
    }
    resolved := true;
  }
}
