/** Correlating a download with the page that triggered it
    (src/background/download-matcher.ts): parent-domain match, then
    exact-host match, then a recency fallback on the newest click. */
module DownloadMatcher {
  import opened Wrappers
  import opened Domain
  import opened ClickHistory

  /** Age, in milliseconds, below which the newest click is still trusted. */
  const RecentWindow: int := 10000

  /** The entry's page has the given parent domain. */
  predicate ParentMatches(parse: UrlParser, e: Entry, parentDomain: string) {
    ExtractParentDomain(parse, e.pageUrl) == Some(parentDomain)
  }

  /** The entry's page has exactly the given (lower-cased) hostname. */
  predicate HostMatches(parse: UrlParser, e: Entry, domain: string) {
    ExtractDomain(parse, e.pageUrl) == Some(domain)
  }

  /** Index of the first entry, newest first, whose parent domain matches. */
  function FirstParentMatch(parse: UrlParser, h: seq<Entry>, parentDomain: string): (r: Option<nat>)
    ensures r.Some? ==> r.value < |h| && ParentMatches(parse, h[r.value], parentDomain)
    ensures r.Some? ==> forall j :: 0 <= j < r.value ==> !ParentMatches(parse, h[j], parentDomain)
    ensures r.None? ==> forall j :: 0 <= j < |h| ==> !ParentMatches(parse, h[j], parentDomain)
  {
    if h == [] then None
    else if ParentMatches(parse, h[0], parentDomain) then Some(0)
    else match FirstParentMatch(parse, h[1..], parentDomain)
      case None => None
      case Some(k) => Some(k + 1)
  }

  /** Index of the first entry, newest first, whose hostname matches. */
  function FirstHostMatch(parse: UrlParser, h: seq<Entry>, domain: string): (r: Option<nat>)
    ensures r.Some? ==> r.value < |h| && HostMatches(parse, h[r.value], domain)
    ensures r.Some? ==> forall j :: 0 <= j < r.value ==> !HostMatches(parse, h[j], domain)
    ensures r.None? ==> forall j :: 0 <= j < |h| ==> !HostMatches(parse, h[j], domain)
  {
    if h == [] then None
    else if HostMatches(parse, h[0], domain) then Some(0)
    else match FirstHostMatch(parse, h[1..], domain)
      case None => None
      case Some(k) => Some(k + 1)
  }

  /** `match?.pageUrl || null`: the found entry's page URL, unless there is no
      entry or its page URL is the empty string. */
  function PageUrlOf(h: seq<Entry>, found: Option<nat>): (r: Option<string>)
    requires found.Some? ==> found.value < |h|
    ensures r.Some? ==> found.Some? && r.value == h[found.value].pageUrl && r.value != ""
    ensures found.Some? && h[found.value].pageUrl != "" ==> r.Some?
  {
    match found
    case None => None
    case Some(i) => if h[i].pageUrl == "" then None else Some(h[i].pageUrl)
  }

  /** `findByParentDomain` (tier 1). */
  function FindByParentDomain(parse: UrlParser, h: seq<Entry>, parentDomain: string): (r: Option<string>)
    ensures r.Some? ==> exists i ::
      && 0 <= i < |h| && ParentMatches(parse, h[i], parentDomain) && h[i].pageUrl == r.value
      && (forall j :: 0 <= j < i ==> !ParentMatches(parse, h[j], parentDomain))
    ensures r.Some? ==> r.value != ""
    ensures r.None? ==> forall i :: 0 <= i < |h| && ParentMatches(parse, h[i], parentDomain) && h[i].pageUrl != "" ==>
      exists j :: 0 <= j < i && ParentMatches(parse, h[j], parentDomain) && h[j].pageUrl == ""
  {
    var m := FirstParentMatch(parse, h, parentDomain);
    assert m.Some? ==> ParentMatches(parse, h[m.value], parentDomain);
    PageUrlOf(h, m)
  }

  /** `findByExactDomain` (tier 2). */
  function FindByExactDomain(parse: UrlParser, h: seq<Entry>, domain: string): (r: Option<string>)
    ensures r.Some? ==> exists i ::
      && 0 <= i < |h| && HostMatches(parse, h[i], domain) && h[i].pageUrl == r.value
      && (forall j :: 0 <= j < i ==> !HostMatches(parse, h[j], domain))
    ensures r.Some? ==> r.value != ""
    ensures r.None? ==> forall i :: 0 <= i < |h| && HostMatches(parse, h[i], domain) && h[i].pageUrl != "" ==>
      exists j :: 0 <= j < i && HostMatches(parse, h[j], domain) && h[j].pageUrl == ""
  {
    var m := FirstHostMatch(parse, h, domain);
    assert m.Some? ==> HostMatches(parse, h[m.value], domain);
    PageUrlOf(h, m)
  }

  /** `match?.pageUrl || null`: a first match with an empty page URL hides
      every later match, so the tier finds nothing. */
  lemma EmptyFirstMatchHidesLater(parse: UrlParser, first: Entry, rest: seq<Entry>, parentDomain: string)
    requires ParentMatches(parse, first, parentDomain) && first.pageUrl == ""
    ensures FindByParentDomain(parse, [first] + rest, parentDomain) == None
  {
  }

  /** `getRecentFallback` (tier 3) at clock reading `now`: the newest page URL
      when that click is strictly younger than `RecentWindow`. */
  function GetRecentFallback(h: seq<Entry>, now: int): (r: Option<string>)
    ensures r.Some? <==> |h| > 0 && now - h[0].timestamp < RecentWindow
    ensures r.Some? ==> r.value == h[0].pageUrl
  {
    if |h| == 0 then None
    else if now - h[0].timestamp < RecentWindow then Some(h[0].pageUrl)
    else None
  }

  /** `findPageUrl(downloadUrl)` against the log `h` at clock reading `now`. */
  function FindPageUrl(parse: UrlParser, h: seq<Entry>, downloadUrl: string, now: int): (r: Option<string>)
    ensures r.Some? ==> exists i :: 0 <= i < |h| && h[i].pageUrl == r.value
    ensures |h| == 0 ==> r.None?
  {
    var downloadDomain := ExtractDomain(parse, downloadUrl);
    match ExtractParentDomain(parse, downloadUrl)
    case None => GetRecentFallback(h, now)
    case Some(parentDomain) =>
      var parentMatch := FindByParentDomain(parse, h, parentDomain);
      if parentMatch.Some? then parentMatch
      else
        var exactMatch :=
          if downloadDomain.Some? && downloadDomain.value != ""
          then FindByExactDomain(parse, h, downloadDomain.value) else None;
        if exactMatch.Some? then exactMatch
        else GetRecentFallback(h, now)
  }

  /** Without a parent domain for the download, only the recency fallback is used. */
  lemma NoParentDomainUsesFallback(parse: UrlParser, h: seq<Entry>, downloadUrl: string, now: int)
    requires ExtractParentDomain(parse, downloadUrl).None?
    ensures FindPageUrl(parse, h, downloadUrl, now) == GetRecentFallback(h, now)
  {
  }

  /** Tier 1 wins: the first entry, newest first, sharing the download's
      parent domain supplies the page URL. */
  lemma ParentDomainTierWins(parse: UrlParser, h: seq<Entry>, downloadUrl: string, now: int, i: nat)
    requires ExtractParentDomain(parse, downloadUrl).Some?
    requires i < |h| && h[i].pageUrl != ""
    requires ParentMatches(parse, h[i], ExtractParentDomain(parse, downloadUrl).value)
    requires forall j :: 0 <= j < i ==> !ParentMatches(parse, h[j], ExtractParentDomain(parse, downloadUrl).value)
    ensures FindPageUrl(parse, h, downloadUrl, now) == Some(h[i].pageUrl)
  {
  }

  /** Equal hostnames give equal parent domains, so when no entry shares the
      download's parent domain, none shares its hostname either: tier 2 can
      only succeed where tier 1 already did. This needs the parser to give the
      empty string no hostname, as a WHATWG parser does (it is not an
      absolute URL). */
  lemma ExactTierRedundant(parse: UrlParser, h: seq<Entry>, downloadUrl: string, now: int)
    requires ExtractParentDomain(parse, "").None?
    requires ExtractParentDomain(parse, downloadUrl).Some?
    ensures var pd := ExtractParentDomain(parse, downloadUrl).value;
      FindByParentDomain(parse, h, pd).None? ==>
        FindByExactDomain(parse, h, ExtractDomain(parse, downloadUrl).value).None?
    ensures var pd := ExtractParentDomain(parse, downloadUrl).value;
      FindPageUrl(parse, h, downloadUrl, now) ==
        if FindByParentDomain(parse, h, pd).Some? then FindByParentDomain(parse, h, pd)
        else GetRecentFallback(h, now)
  {
    var pd := ExtractParentDomain(parse, downloadUrl).value;
    var d := ExtractDomain(parse, downloadUrl).value;
    var p := FirstParentMatch(parse, h, pd);
    var x := FirstHostMatch(parse, h, d);
    if x.Some? {
      var j := x.value;
      assert ParentMatches(parse, h[j], pd);
      assert p.Some? && p.value <= j;
      assert ParentMatches(parse, h[p.value], pd);
      assert h[p.value].pageUrl != "";
    }
  }

  /** The recency fallback: a click 9 999 ms old is used, one 10 000 ms old is not. */
  lemma FallbackBoundary(pageUrl: string, now: int)
    ensures GetRecentFallback([Entry(pageUrl, now - 9999)], now) == Some(pageUrl)
    ensures GetRecentFallback([Entry(pageUrl, now - 10000)], now) == None
  {
  }

  /** With an empty log no page URL is found. */
  lemma EmptyHistoryFindsNothing(parse: UrlParser, downloadUrl: string, now: int)
    ensures FindPageUrl(parse, [], downloadUrl, now) == None
  {
  }

  /** Any page URL found is the page URL of some entry in the log. */
  lemma FoundUrlComesFromHistory(parse: UrlParser, h: seq<Entry>, downloadUrl: string, now: int)
    ensures var r := FindPageUrl(parse, h, downloadUrl, now);
      r.Some? ==> exists i :: 0 <= i < |h| && h[i].pageUrl == r.value
  {
    var r := FindPageUrl(parse, h, downloadUrl, now);
    if r.Some? {
      var pd := ExtractParentDomain(parse, downloadUrl);
      var d := ExtractDomain(parse, downloadUrl);
      if pd.None? {
        assert h[0].pageUrl == r.value;
      } else if FindByParentDomain(parse, h, pd.value).Some? {
        var i := FirstParentMatch(parse, h, pd.value).value;
        assert h[i].pageUrl == r.value;
      } else if d.Some? && d.value != "" && FindByExactDomain(parse, h, d.value).Some? {
        var i := FirstHostMatch(parse, h, d.value).value;
        assert h[i].pageUrl == r.value;
      } else {
        assert h[0].pageUrl == r.value;
      }
    }
  }
}
