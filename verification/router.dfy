/** The background download router (src/background/index.ts): the rule
    matcher, the first-match filename decision, and the event handlers that
    keep the click log and the download-to-page map. Browser events become
    functions from a state to a state; the storage read becomes the
    `StoredState` argument; the `suggest` callback becomes the result. */
module Router {
  import opened Wrappers
  import opened Text
  import opened Config
  import opened Domain
  import opened ClickHistory
  import opened DownloadMatcher

  /** The parts of a browser download item the router reads. */
  datatype DownloadItem = DownloadItem(id: int, url: string, filename: string)

  datatype ConflictAction = Uniquify | Overwrite

  /** The argument of `suggest`: none (keep the browser's default) or a
      relative path with a conflict policy. */
  datatype Suggestion = UseDefault | Suggest(filename: string, conflictAction: ConflictAction)

  /** What the store returns for the keys `settings` and `enabled`; either may be absent. */
  datatype StoredState = StoredState(settings: Option<Settings>, enabled: Option<bool>)

  // ---------------------------------------------------------------------------
  // Ordering

  /** The stable sort whose comparator only puts `site` before `general`. */
  function SortByCategory(rules: seq<Rule>): (r: seq<Rule>)
    ensures forall i, j :: 0 <= i < j < |r| ==> !(r[i].category == General && r[j].category == Site)
    ensures OfCategory(r, Site) == OfCategory(rules, Site)
    ensures OfCategory(r, General) == OfCategory(rules, General)
    ensures multiset(r) == multiset(rules)
  {
    SortByCategoryStable(rules);
    OfCategoryPartition(rules);
    OfCategory(rules, Site) + OfCategory(rules, General)
  }

  lemma SortByCategoryStable(rules: seq<Rule>)
    ensures var sorted := OfCategory(rules, Site) + OfCategory(rules, General);
      && OfCategory(sorted, Site) == OfCategory(rules, Site)
      && OfCategory(sorted, General) == OfCategory(rules, General)
  {
    var sites := OfCategory(rules, Site);
    var generals := OfCategory(rules, General);
    OfCategoryAppend(sites, generals, Site);
    OfCategoryAppend(sites, generals, General);
    OfCategoryAll(sites, Site);
    OfCategoryAll(generals, General);
    OfCategoryNone(sites, General);
    OfCategoryNone(generals, Site);
  }

  // ---------------------------------------------------------------------------
  // One rule

  /** The rule's site pattern, when it is a `site` rule with a non-empty one. */
  predicate HasSiteFilter(rule: Rule) {
    rule.category == Site && rule.sitePattern.Some? && rule.sitePattern.value != ""
  }

  /** The site test of `matchRule`: a site-filtered rule needs its pattern, case
      ignored, inside the download URL or inside the page URL. */
  predicate SiteFilterPasses(rule: Rule, item: DownloadItem, pageUrl: Option<string>) {
    if HasSiteFilter(rule) then
      var sp := Lower(rule.sitePattern.value);
      Contains(Lower(item.url), sp) || (pageUrl.Some? && Contains(Lower(pageUrl.value), sp))
    else true
  }

  /** `filename.split(".").pop().toLowerCase()`: the text after the last dot,
      or the whole name when there is none, lower-cased. */
  function ExtensionOf(filename: string): string {
    Lower(Last(Split(filename, '.')))
  }

  /** `pattern.replace(/^\./, "")`. */
  function StripLeadingDot(p: string): (r: string)
    ensures |p| > 0 && p[0] == '.' ==> p == "." + r
    ensures !(|p| > 0 && p[0] == '.') ==> r == p
  {
    if |p| > 0 && p[0] == '.' then p[1..] else p
  }

  /** `folder.replace(/\/$/, "")`: at most one trailing slash removed. */
  function StripTrailingSlash(folder: string): (r: string)
    ensures r == folder || r + "/" == folder
    ensures |folder| > 0 && folder[|folder| - 1] == '/' ==> r + "/" == folder
    ensures !(|folder| > 0 && folder[|folder| - 1] == '/') ==> r == folder
  {
    if |folder| > 0 && folder[|folder| - 1] == '/' then folder[..|folder| - 1] else folder
  }

  /** The condition test of `matchRule`. */
  predicate ConditionMatches(rule: Rule, item: DownloadItem) {
    var pattern := Lower(rule.pattern);
    match rule.condition
    case ExtensionCondition => ExtensionOf(item.filename) == StripLeadingDot(pattern)
    case FilenameCondition => Contains(Lower(item.filename), pattern)
    case UrlCondition => Contains(Lower(item.url), pattern)
  }

  /** `matchRule`: the folder without its trailing slash when the site test
      and the condition both pass, else `None`. */
  function MatchRule(rule: Rule, item: DownloadItem, pageUrl: Option<string>): (r: Option<string>)
    ensures r.Some? <==> SiteFilterPasses(rule, item, pageUrl) && ConditionMatches(rule, item)
    ensures r.Some? ==> r.value == StripTrailingSlash(rule.folder)
  {
    if SiteFilterPasses(rule, item, pageUrl) && ConditionMatches(rule, item)
    then Some(StripTrailingSlash(rule.folder)) else None
  }

  /** A rule that `if (matchedFolder)` accepts: it matches with a non-empty folder. */
  predicate Fires(rule: Rule, item: DownloadItem, pageUrl: Option<string>) {
    var m := MatchRule(rule, item, pageUrl);
    m.Some? && m.value != ""
  }

  // ---------------------------------------------------------------------------
  // The decision

  /** Index of the first rule that fires. */
  function FirstFiring(rules: seq<Rule>, item: DownloadItem, pageUrl: Option<string>): (r: Option<nat>)
    ensures r.Some? ==> r.value < |rules| && Fires(rules[r.value], item, pageUrl)
    ensures r.Some? ==> forall j :: 0 <= j < r.value ==> !Fires(rules[j], item, pageUrl)
    ensures r.None? ==> forall j :: 0 <= j < |rules| ==> !Fires(rules[j], item, pageUrl)
  {
    if rules == [] then None
    else if Fires(rules[0], item, pageUrl) then Some(0)
    else
      var rest := rules[1..];
      var later := FirstFiring(rest, item, pageUrl);
      assert forall j :: 0 < j < |rules| ==> rules[j] == rest[j - 1];
      if later.None? then None else Some(later.value + 1)
  }

  /** `data.settings || { rules: [] }` followed by `settings.rules`. */
  function StoredRules(stored: StoredState): seq<Rule> {
    match stored.settings
    case None => []
    case Some(s) => s.rules
  }

  /** `data.enabled !== false`. */
  predicate IsEnabled(stored: StoredState) {
    stored.enabled != Some(false)
  }

  /** `downloadPageUrlMap.get(id) || null`. */
  function PageUrlFor(pageMap: map<int, string>, id: int): (r: Option<string>)
    ensures r.Some? <==> id in pageMap && pageMap[id] != ""
    ensures r.Some? ==> r.value == pageMap[id]
  {
    if id in pageMap && pageMap[id] != "" then Some(pageMap[id]) else None
  }

  /** `handleDeterminingFilename`: the argument passed to `suggest`. */
  function DetermineFilename(stored: StoredState, pageMap: map<int, string>, item: DownloadItem): (r: Suggestion)
    ensures !IsEnabled(stored) ==> r == UseDefault
    ensures r.Suggest? ==> r.conflictAction == Uniquify
    ensures r.Suggest? ==> InFolder(r.filename, item.filename)
  {
    if !IsEnabled(stored) then UseDefault
    else
      var sorted := SortByCategory(StoredRules(stored));
      var pageUrl := PageUrlFor(pageMap, item.id);
      match FirstFiring(sorted, item, pageUrl)
      case None => UseDefault
      case Some(i) =>
        var folder := MatchRule(sorted[i], item, pageUrl).value;
        PathEndsWithName(folder, item.filename);
        Suggest(folder + "/" + item.filename, Uniquify)
  }

  /** `path` is `name` inside a folder: a non-empty prefix, a slash, then the name. */
  predicate InFolder(path: string, name: string) {
    |path| > |name| + 1 && path[|path| - |name| - 1..] == "/" + name
  }

  /** `${folder}/${filename}` with a non-empty folder is the name inside that folder. */
  lemma PathEndsWithName(folder: string, name: string)
    requires folder != ""
    ensures InFolder(folder + "/" + name, name)
  {
    var p := folder + "/" + name;
    assert p == folder + ("/" + name);
  }

  /** The rule at `i` of the category-sorted list is the one that wins. */
  ghost predicate WinsAt(sorted: seq<Rule>, i: int, item: DownloadItem, pageUrl: Option<string>) {
    && 0 <= i < |sorted|
    && Fires(sorted[i], item, pageUrl)
    && forall j :: 0 <= j < i ==> !Fires(sorted[j], item, pageUrl)
  }

  /** The decision, stated as first-match-wins: disabled or no firing rule
      gives the default; otherwise the first firing rule of the
      category-sorted list gives `folder/filename` with `uniquify`. */
  lemma DetermineFilenameFirstMatch(stored: StoredState, pageMap: map<int, string>, item: DownloadItem)
    ensures var r := DetermineFilename(stored, pageMap, item);
      var sorted := SortByCategory(StoredRules(stored));
      var pageUrl := PageUrlFor(pageMap, item.id);
      && (!IsEnabled(stored) ==> r == UseDefault)
      && (IsEnabled(stored) && r == UseDefault ==>
            forall rule :: rule in StoredRules(stored) ==> !Fires(rule, item, pageUrl))
      && (r.Suggest? ==>
            && IsEnabled(stored) && r.conflictAction == Uniquify
            && exists i :: WinsAt(sorted, i, item, pageUrl)
                 && r.filename == StripTrailingSlash(sorted[i].folder) + "/" + item.filename)
  {
    var r := DetermineFilename(stored, pageMap, item);
    var sorted := SortByCategory(StoredRules(stored));
    var pageUrl := PageUrlFor(pageMap, item.id);
    if IsEnabled(stored) {
      var f := FirstFiring(sorted, item, pageUrl);
      if f.Some? {
        assert WinsAt(sorted, f.value, item, pageUrl);
      } else {
        forall rule | rule in StoredRules(stored)
          ensures !Fires(rule, item, pageUrl)
        {
          assert rule in multiset(sorted);
        }
      }
    }
  }

  /** The router never asks the browser to overwrite. */
  lemma NeverOverwrites(stored: StoredState, pageMap: map<int, string>, item: DownloadItem)
    ensures DetermineFilename(stored, pageMap, item).Suggest? ==>
      DetermineFilename(stored, pageMap, item).conflictAction == Uniquify
  {
  }

  /** A missing `enabled` flag means enabled. */
  lemma EnabledByDefault(settings: Option<Settings>, pageMap: map<int, string>, item: DownloadItem)
    ensures DetermineFilename(StoredState(settings, None), pageMap, item)
         == DetermineFilename(StoredState(settings, Some(true)), pageMap, item)
  {
  }

  /** When some `site` rule fires, a `site` rule wins: no `general` rule is
      examined before every `site` rule has been. */
  lemma SiteRulesTakePrecedence(rules: seq<Rule>, item: DownloadItem, pageUrl: Option<string>, s: Rule)
    requires s in rules && s.category == Site && Fires(s, item, pageUrl)
    ensures var f := FirstFiring(SortByCategory(rules), item, pageUrl);
      f.Some? && SortByCategory(rules)[f.value].category == Site
  {
    var sorted := SortByCategory(rules);
    assert s in sorted by {
      assert s in multiset(sorted);
    }
    var k :| 0 <= k < |sorted| && sorted[k] == s;
    GroupedFirstFiring(sorted, item, pageUrl, k);
  }

  /** In a list with the `site` rules first, a firing `site` rule at `k`
      means the first firing rule is a `site` rule at or before `k`. */
  lemma GroupedFirstFiring(sorted: seq<Rule>, item: DownloadItem, pageUrl: Option<string>, k: nat)
    requires forall i, j :: 0 <= i < j < |sorted| ==> !(sorted[i].category == General && sorted[j].category == Site)
    requires k < |sorted| && sorted[k].category == Site && Fires(sorted[k], item, pageUrl)
    ensures var f := FirstFiring(sorted, item, pageUrl);
      f.Some? && f.value <= k && sorted[f.value].category == Site
  {
    var f := FirstFiring(sorted, item, pageUrl);
    assert f.Some? && f.value <= k;
    if f.value < k {
      assert sorted[f.value].category != General;
    }
  }

  /** A rule whose folder strips to `""` (empty, or just `/`) never fires, so
      scanning continues past it. */
  lemma EmptyFolderNeverFires(rule: Rule, item: DownloadItem, pageUrl: Option<string>)
    requires rule.folder == "" || rule.folder == "/"
    ensures !Fires(rule, item, pageUrl)
  {
  }

  // ---------------------------------------------------------------------------
  // Properties of the one-rule test

  /** Only a `site` rule with a non-empty site pattern is site-filtered; with
      no page URL only the download URL is searched. */
  lemma SiteFilterCases(rule: Rule, item: DownloadItem, pageUrl: Option<string>)
    ensures !HasSiteFilter(rule) ==> SiteFilterPasses(rule, item, pageUrl)
    ensures rule.category == General ==> SiteFilterPasses(rule, item, pageUrl)
    ensures HasSiteFilter(rule) && pageUrl.None? ==>
      (SiteFilterPasses(rule, item, pageUrl) <==> Contains(Lower(item.url), Lower(rule.sitePattern.value)))
    ensures HasSiteFilter(rule) && pageUrl.Some? ==>
      (SiteFilterPasses(rule, item, pageUrl) <==>
        Contains(Lower(item.url), Lower(rule.sitePattern.value))
        || Contains(Lower(pageUrl.value), Lower(rule.sitePattern.value)))
  {
  }

  /** The extension is the lower-cased text after the last dot, whatever
      comes before it; a name without a dot is its own extension. */
  lemma ExtensionOfSpec(stem: string, ext: string)
    requires '.' !in ext
    ensures ExtensionOf(stem + "." + ext) == Lower(ext)
    ensures ExtensionOf(ext) == Lower(ext)
  {
    SplitLastAfterSep(stem, ext, '.');
    SplitNoSep(ext, '.');
  }

  /** An extension rule matches exactly when the lower-cased text after the
      file's last dot equals the lower-cased pattern less one leading dot. */
  lemma ExtensionConditionSpec(rule: Rule, item: DownloadItem, stem: string, ext: string)
    requires rule.condition == ExtensionCondition
    requires item.filename == stem + "." + ext && '.' !in ext
    ensures ConditionMatches(rule, item) <==> Lower(ext) == StripLeadingDot(Lower(rule.pattern))
  {
    ExtensionOfSpec(stem, ext);
  }

  /** `filename` and `url` conditions are substring tests, so an empty pattern
      matches every download. */
  lemma EmptyPatternMatchesEverything(rule: Rule, item: DownloadItem)
    requires rule.condition != ExtensionCondition && rule.pattern == ""
    ensures ConditionMatches(rule, item)
  {
    ContainsEmpty(Lower(item.filename));
    ContainsEmpty(Lower(item.url));
  }

  /** Conditions ignore the letter case of the pattern. */
  lemma ConditionIgnoresPatternCase(rule: Rule, item: DownloadItem)
    ensures ConditionMatches(rule.(pattern := Lower(rule.pattern)), item) == ConditionMatches(rule, item)
  {
    LowerIdempotent(rule.pattern);
  }

  // ---------------------------------------------------------------------------
  // Event handlers and the download-to-page map

  /** `delta.state.current` of a download change event. */
  datatype DownloadState = InProgress | Interrupted | Complete

  /** The background page's in-memory state: the click log and the
      download-to-page map. */
  datatype RouterState = RouterState(history: History, pageMap: map<int, string>)

  const InitialState := RouterState(EmptyHistory, map[])

  /** A `PAGE_CLICK` message: record the click. */
  function OnPageClick(st: RouterState, pageUrl: string, timestamp: int): (r: RouterState)
    ensures r.pageMap == st.pageMap
    ensures r.history == RecordClick(st.history, pageUrl, timestamp)
  {
    st.(history := RecordClick(st.history, pageUrl, timestamp))
  }

  /** `onCreated` at clock reading `now`: clean the log, resolve the page URL
      of the download, and remember it when one was found. */
  function OnCreated(st: RouterState, parse: UrlParser, id: int, url: string, now: int): (r: RouterState)
    ensures r.history == Cleanup(st.history, now)
    ensures forall k :: k != id ==> (k in r.pageMap <==> k in st.pageMap)
    ensures forall k :: k != id && k in r.pageMap ==> r.pageMap[k] == st.pageMap[k]
    ensures id in r.pageMap && id !in st.pageMap ==> r.pageMap[id] != ""
  {
    var h := Cleanup(st.history, now);
    var pageUrl := FindPageUrl(parse, h.entries, url, now);
    RouterState(h, if pageUrl.Some? && pageUrl.value != "" then st.pageMap[id := pageUrl.value] else st.pageMap)
  }

  /** `onChanged`: forget the download once it is complete or interrupted. */
  function OnChanged(st: RouterState, id: int, state: Option<DownloadState>): (r: RouterState)
    ensures r.history == st.history
    ensures state == Some(Complete) || state == Some(Interrupted) ==> id !in r.pageMap
    ensures forall k :: k != id ==> (k in r.pageMap <==> k in st.pageMap)
    ensures forall k :: k in r.pageMap ==> k in st.pageMap && r.pageMap[k] == st.pageMap[k]
  {
    if state == Some(Complete) || state == Some(Interrupted)
    then st.(pageMap := st.pageMap - {id})
    else st
  }

  /** The map gains an entry only for a found, non-empty page URL, leaves
      every other download's entry alone, and the log is cleaned first. */
  lemma OnCreatedMap(st: RouterState, parse: UrlParser, id: int, url: string, now: int)
    ensures var r := OnCreated(st, parse, id, url, now);
      var found := FindPageUrl(parse, Cleanup(st.history, now).entries, url, now);
      && r.history == Cleanup(st.history, now)
      && (found.Some? && found.value != "" ==> id in r.pageMap && r.pageMap[id] == found.value)
      && (!(found.Some? && found.value != "") ==> r.pageMap == st.pageMap)
      && (forall k :: k != id ==> (k in r.pageMap <==> k in st.pageMap))
      && (forall k :: k != id && k in r.pageMap ==> r.pageMap[k] == st.pageMap[k])
  {
  }

  /** A terminal state removes the download's entry and nothing else; other
      changes leave the map as it is. */
  lemma OnChangedMap(st: RouterState, id: int, state: Option<DownloadState>)
    ensures var r := OnChanged(st, id, state);
      && (state == Some(Complete) || state == Some(Interrupted) ==>
            id !in r.pageMap && forall k :: k != id ==> (k in r.pageMap <==> k in st.pageMap))
      && (!(state == Some(Complete) || state == Some(Interrupted)) ==> r.pageMap == st.pageMap)
      && (forall k :: k in r.pageMap ==> k in st.pageMap && r.pageMap[k] == st.pageMap[k])
  {
  }

  /** Every value in the map is a non-empty page URL, so the lookup made when
      the filename is determined returns exactly what `onCreated` stored. */
  ghost predicate MapValuesNonEmpty(st: RouterState) {
    forall k :: k in st.pageMap ==> st.pageMap[k] != ""
  }

  lemma MapValuesNonEmptyPreserved(st: RouterState, parse: UrlParser, id: int, url: string, now: int,
                                   pageUrl: string, timestamp: int, state: Option<DownloadState>)
    requires MapValuesNonEmpty(st)
    ensures MapValuesNonEmpty(OnCreated(st, parse, id, url, now))
    ensures MapValuesNonEmpty(OnChanged(st, id, state))
    ensures MapValuesNonEmpty(OnPageClick(st, pageUrl, timestamp))
    ensures forall k :: k in st.pageMap ==> PageUrlFor(st.pageMap, k) == Some(st.pageMap[k])
  {
  }
}
