# Download path router — a Dafny model

A model of the decision logic of a browser extension that files each download into a folder chosen by user rules. The model covers:

- **Domains** (`Domain`): a hostname is lower-cased, and a naive "parent domain" is derived from it.
- **Click log** (`ClickHistory`): a bounded log of page clicks, newest first, pruned by age.
- **Page resolution** (`DownloadMatcher`): a download is tied to the page it came from by a three-tier search of the click log.
- **Router** (`Router`): site rules are ordered ahead of general rules, and the first matching rule picks the folder. The router also keeps the map from download id to page URL.
- **Rule editing**: the operations both popups perform on the stored rule list.
  - The current popup (`PopupEditor`) renumbers each category 1..N after every save.
  - The older popup (`LegacyPopup`) appends, edits in place and ranks only the dragged category.
  - The two share the form handling (`RuleForm`) and the ordering theory (`RuleOrder`).
- **Timestamps** (`DateFormat`): timestamp strings are built from the date and time fields.

Every operation is a pure function over immutable values. Browser state becomes explicit values:

- The clock is a parameter `now`.
- URL parsing is a parameter `parse: string -> Option<string>` that returns the hostname, or `None` where the URL constructor throws.
- Stored settings are an `Option<Settings>` argument.
- The `suggest` callback's argument is the result.
- Where a handler mutates rule objects in place through a filtered and sorted copy (the drag handler), the model works on the positions of the rules in the stored list. Those positions are then ranked.

A rule's `priority` is `Option<nat>`, and `None` sorts after every number. The order is the same one the comparator's `Number.MAX_VALUE` sentinel produces.

Files: `wrappers.dfy`, `text.dfy` (ASCII lower-casing, substring search, JavaScript `trim`, `split`/`join`, decimal notation), `config.dfy`, `domain.dfy`, `click_history.dfy`, `download_matcher.dfy`, `router.dfy`, `rule_order.dfy`, `rule_form.dfy`, `legacy_popup.dfy`, `popup_editor.dfy` and `date_format.dfy`.

### The code as written

The model follows the code in these places:

- `extractParentDomain` returns `null` not only when `extractDomain` does, but also when the hostname is empty (the `!domain` test). An example is a `file:` URL.
- `findByParentDomain` and `findByExactDomain` return `match?.pageUrl || null`. A first match whose page URL is empty therefore yields `null` rather than a later match.
- In the drag handlers, an `oldIndex` at or past the category's length makes the priority loop fail on `undefined`, so nothing is stored. A `newIndex` past the end appends, as `splice` does.

## Model

| member | source | states |
|---|---|---|
| Domain.ExtractDomain | src/background/domain.ts:10-16 | no hostname exactly when parsing fails; otherwise the hostname lower-cased character by character: `A`..`Z` become `a`..`z`, every other character is kept |
| Domain.ExtractParentDomain | src/background/domain.ts:23-25 | a parent domain is only produced for a URL that parses to a non-empty hostname, and is never empty |
| Domain.ParentDomainNoneIff | src/background/domain.ts:23-36 | the parent domain is missing exactly when the hostname is missing or empty; otherwise it is the parent-domain rule applied to the hostname |
| Domain.LabelsFacts | src/background/domain.ts:27 | splitting on dots gives one more label than dots, no label holds a dot, and joining restores the hostname |
| Domain.ShortHostUnchanged | src/background/domain.ts:27-32 | a hostname with at most one dot is its own parent domain |
| Domain.LongHostLastTwo | src/background/domain.ts:27-35 | a hostname with two or more dots yields its last two labels joined by a dot |
| Domain.ParentIsSuffix | src/background/domain.ts:27-35 | the parent domain is a suffix of the hostname |
| Domain.ParentIdempotent | src/background/domain.ts:27-35 | the parent domain holds at most one dot, so applying the rule again returns it unchanged |
| Domain.ExampleSubdomain | src/background/domain.ts:18-22 | `a.b.c` with dot-free labels (such as `docs.google.com`) gives `b.c` |
| Domain.ExampleLocalhost | src/background/domain.ts:29-32 | `localhost` is its own parent domain |
| Domain.ExampleIpAddress | src/background/domain.ts:29-35 | a dotted quad is not special-cased: `w.x.y.z` gives `y.z` |
| ClickHistory.RecordClick | src/background/click-history.ts:17-22 | the new entry is first; the length grows by one, or stays at a full log's length; the remaining entries are the previous ones in order, less the oldest when the log was full |
| ClickHistory.RecordClickBounded | src/background/click-history.ts:11-22 | a log of at most 50 entries stays at most 50; a full log loses exactly its last entry |
| ClickHistory.Cleanup | src/background/click-history.ts:27-32 | every kept entry is strictly younger than 30000 ms; each fresh entry is kept as often as it occurred and every stale one is dropped; the length never grows |
| ClickHistory.KeepFreshAppend | src/background/click-history.ts:29 | filtering distributes over concatenation, so kept entries keep their relative order |
| ClickHistory.CleanupIdempotent | src/background/click-history.ts:27-32 | cleaning twice at the same clock reading is cleaning once |
| ClickHistory.CleanupBoundary | src/background/click-history.ts:12-29 | an entry 29999 ms old is kept; one 30000 ms old is dropped |
| ClickHistory.GetCount | src/background/click-history.ts:37-46 | the count is the length of the log that `getHistories` returns |
| DownloadMatcher.FirstParentMatch | src/background/download-matcher.ts:42-46 | the first entry, newest first, whose page has the given parent domain; none exactly when no entry does |
| DownloadMatcher.FirstHostMatch | src/background/download-matcher.ts:53-57 | the first entry, newest first, whose page has exactly the given hostname; none exactly when no entry does |
| DownloadMatcher.PageUrlOf | src/background/download-matcher.ts:47-58 | the found entry's page URL, or nothing when no entry was found or its page URL is empty |
| DownloadMatcher.FindByParentDomain | src/background/download-matcher.ts:42-48 | a found page URL is non-empty and is the page URL of the first entry, newest first, with that parent domain; nothing is found only when every matching entry with a page URL comes after a matching entry whose page URL is empty |
| DownloadMatcher.EmptyFirstMatchHidesLater | src/background/download-matcher.ts:43-47 | when the first entry with that parent domain has an empty page URL, the tier finds nothing, whatever later entries match |
| DownloadMatcher.FindByExactDomain | src/background/download-matcher.ts:53-59 | the same for the first entry whose page has exactly that hostname |
| DownloadMatcher.FindPageUrl | src/background/download-matcher.ts:13-37 | any page URL returned is an entry's page URL, and an empty log yields none |
| DownloadMatcher.GetRecentFallback | src/background/download-matcher.ts:64-76 | the newest page URL exactly when the log is non-empty and its newest click is strictly less than 10000 ms old |
| DownloadMatcher.NoParentDomainUsesFallback | src/background/download-matcher.ts:17-19 | without a parent domain for the download, the result is the recency fallback |
| DownloadMatcher.ParentDomainTierWins | src/background/download-matcher.ts:21-25 | when an entry shares the download's parent domain, the first such entry's page URL is the answer |
| DownloadMatcher.ExactTierRedundant | src/background/download-matcher.ts:21-36 | equal hostnames give equal parent domains, so tier 2 succeeds only where tier 1 did; the whole search is tier 1, else the fallback |
| DownloadMatcher.FallbackBoundary | src/background/download-matcher.ts:71 | a click 9999 ms old is used by the fallback; one 10000 ms old is not |
| DownloadMatcher.EmptyHistoryFindsNothing | src/background/download-matcher.ts:66 | with an empty log nothing is found |
| DownloadMatcher.FoundUrlComesFromHistory | src/background/download-matcher.ts:13-37 | any page URL found is the page URL of an entry in the log |
| Router.SortByCategory | src/background/index.ts:58-62 | no general rule comes before a site rule; each category keeps its relative order; the result is a permutation of the rules |
| Router.StripLeadingDot | src/background/index.ts:101 | exactly one leading dot is removed when present; otherwise the pattern is unchanged |
| Router.StripTrailingSlash | src/background/index.ts:108 | one trailing slash is removed when present; a folder without one is returned unchanged |
| Router.MatchRule | src/background/index.ts:85-109 | a folder exactly when the site test and the condition both pass; that folder is the rule's folder with its trailing slash removed when it has one |
| Router.SiteFilterCases | src/background/index.ts:87-93 | only a site rule with a non-empty site pattern is filtered; it passes when its pattern is in the lower-cased download URL or in the lower-cased page URL, and with no page URL only the download URL counts (a case-by-case reading of the site test's definition) |
| Router.ExtensionOfSpec | src/background/index.ts:100 | the extension is the lower-cased text after the last dot; a name without a dot is its own extension |
| Router.ExtensionConditionSpec | src/background/index.ts:99-101 | an extension rule matches exactly when the lower-cased extension equals the lower-cased pattern less one leading dot |
| Router.EmptyPatternMatchesEverything | src/background/index.ts:102-106 | filename and URL conditions are substring tests, so an empty pattern matches every download |
| Router.ConditionIgnoresPatternCase | src/background/index.ts:96 | lower-casing a rule's pattern does not change what it matches |
| Router.FirstFiring | src/background/index.ts:67-75 | the first rule, in order, that matches with a non-empty folder; none exactly when no rule does |
| Router.PageUrlFor | src/background/index.ts:64 | the page URL stored for the download, or none when there is no entry or it is empty |
| Router.DetermineFilename | src/background/index.ts:46-80 | routing disabled gives the default; a suggestion always asks for `uniquify` and names the download's file inside a non-empty folder |
| Router.DetermineFilenameFirstMatch | src/background/index.ts:46-80 | disabled gives the default; enabled with no firing rule gives the default; otherwise the first firing rule of the category-sorted list gives `folder/filename` with `uniquify` |
| Router.NeverOverwrites | src/background/index.ts:71 | every suggestion asks for `uniquify` |
| Router.EnabledByDefault | src/background/index.ts:48 | an absent `enabled` flag behaves as `true` |
| Router.SiteRulesTakePrecedence | src/background/index.ts:58-75 | when any site rule fires, the winning rule is a site rule |
| Router.GroupedFirstFiring | src/background/index.ts:67-75 | in a list with site rules first, a firing site rule at k means the first firing rule is a site rule at or before k |
| Router.EmptyFolderNeverFires | src/background/index.ts:68-69 | a rule whose folder is empty or a lone slash (stripped to empty by the trailing-slash removal) never wins, so scanning continues |
| Router.OnPageClick | src/background/index.ts:12-16 | a click message records the click and leaves the download map alone |
| Router.OnCreated | src/background/index.ts:19-27 | the log is the cleaned log; other downloads' entries are unchanged; a new entry for the download holds a non-empty page URL |
| Router.OnCreatedMap | src/background/index.ts:19-27 | the log is cleaned first; the map gains the download's entry exactly when a non-empty page URL was found; other downloads' entries are unchanged |
| Router.OnChanged | src/background/index.ts:30-34 | the log is unchanged; a complete or interrupted download has no entry afterwards; no entry is added or altered, and other downloads keep theirs |
| Router.OnChangedMap | src/background/index.ts:30-34 | a complete or interrupted download loses its entry and nothing else changes; other state changes leave the map alone |
| Router.MapValuesNonEmptyPreserved | src/background/index.ts:23-24 | all three handlers keep every stored page URL non-empty, so the lookup returns exactly what was stored |
| Config.OfCategoryPartition | src/background/index.ts:58-62 | the site rules and the general rules together are a permutation of the list |
| Config.WithoutIdMembers | src/popup.ts:505 | a rule survives the id filter exactly when it was in the list and carries another id |
| Config.FindIndex | src/popup/popup.ts:241 | the first position holding the id; none exactly when no rule has it |
| RuleForm.Validate | src/popup/popup.ts:210-218 | the form passes exactly when the trimmed pattern is non-empty and a site rule's trimmed site pattern is non-empty; the pattern is checked first |
| RuleForm.RuleId | src/popup/popup.ts:220-221 | a rule id is never empty; an added rule's id is all digits |
| RuleForm.NewRuleIdIsClock | src/popup/popup.ts:220 | an added rule's id reads back as the clock in milliseconds |
| RuleForm.BuildRule | src/popup/popup.ts:223-234 | the id, category and condition come from the form; pattern and folder are the trimmed inputs; a site rule carries the trimmed site pattern and a general rule none; the flags are `true` or unset; the rename name is the trimmed input exactly when rename is checked and that input is non-empty |
| RuleForm.ValidRuleShape | src/popup.ts:158-182 | a rule that passed the checks has a non-empty pattern and is site-filtered exactly when it is a site rule |
| RuleForm.BuiltRuleTrimmed | src/popup.ts:151-182 | the stored texts are trimmed: trimming them again changes nothing |
| RuleOrder.PriorityLeqTotalOrder | src/popup/popup.ts:603 | the priority order, with an absent priority last, is total, reflexive, transitive and antisymmetric |
| RuleOrder.SortBy | src/popup/popup.ts:601-603 | sorting by priority gives a sorted permutation of the category |
| RuleOrder.SortByStable | src/popup/popup.ts:601-603 | rules of equal priority keep their relative order |
| RuleOrder.SortBySortedIdentity | src/popup/popup.ts:601-603 | sorting an already sorted list changes nothing |
| RuleOrder.Renumber | src/popup/popup.ts:605 | the rules are the same and in the same order, and the priorities become 1..N |
| RuleOrder.Move | src/popup/popup.ts:570-572 | the moved rule lands at `newIndex`, or last when `newIndex` is past the end, and taking it out again leaves the other rules in their original order |
| RuleOrder.MoveSameIndex | src/popup/popup.ts:557 | moving a rule to its own index changes nothing |
| RuleOrder.RankedPositionsShown | src/popup/popup.ts:561-567 | the stored positions of the category, sorted by priority, pick out exactly the priority-sorted category list |
| RuleOrder.RankDragged | src/popup.ts:446-466 | a result exactly when the indices differ and `oldIndex` is inside the category; rules keep their places and values and only priorities change; the other category is untouched; the moved order's rules get 1..N |
| RuleOrder.RankDraggedShown | src/popup.ts:450-466 | after a drag, the category sorted by priority is the list shown before with the rule moved, numbered 1..N |
| LegacyPopup.AddOrUpdate | src/popup.ts:147-209 | refused exactly when the form fails the checks; an add appends the built rule with priority 0 and leaves the other rules unchanged; an edit keeps the length and the new-rule mark |
| LegacyPopup.EditRewritesInPlace | src/popup.ts:187-197 | an edit rewrites only the first rule with the id, keeping its priority; an unknown id leaves the list unchanged; the ids are unchanged |
| LegacyPopup.AppendedRuleRanksFirst | src/popup.ts:178-200 | an appended rule with priority 0 sorts first in its category when no other rule there has priority 0 |
| LegacyPopup.AddedRuleRanksFirst | src/popup.ts:147-209 | a rule added through the form sorts first in its category when no rule there has priority 0 |
| LegacyPopup.Delete | src/popup.ts:502-511 | a rule survives exactly when it was there and carries another id; nothing is renumbered |
| LegacyPopup.DeleteKeepsOrder | src/popup.ts:505 | each category keeps its remaining rules in order; deleting an absent id changes nothing |
| LegacyPopup.Reorder | src/popup.ts:445-473 | nothing is stored for equal indices or an `oldIndex` past the category; otherwise the dragged category is ranked and the new-rule mark kept |
| PopupEditor.Normalize | src/popup/popup.ts:596-610 | the list keeps its length and holds exactly the site rules first, then the general ones |
| PopupEditor.NormalBlock | src/popup/popup.ts:601-606 | a category block has the category's length, holds only that category, and is numbered 1..N |
| PopupEditor.NormalizeBlocks | src/popup/popup.ts:596-610 | each category of the normalized list is that category, stably sorted by priority and renumbered |
| PopupEditor.NormalizeNormalized | src/popup/popup.ts:596-610 | after normalizing, all site rules precede all general rules and each category is numbered 1..N |
| PopupEditor.NormalizedFixed | src/popup/popup.ts:596-610 | a normalized list is left exactly as it is |
| PopupEditor.NormalizeIdempotent | src/popup/popup.ts:596-610 | normalizing twice is normalizing once |
| PopupEditor.NormalizePermutation | src/popup/popup.ts:596-610 | apart from priorities, normalizing is a permutation of the rules |
| PopupEditor.Bump | src/popup/popup.ts:622-627 | a ranked rule's priority grows by one; an unranked rule stays unranked; nothing else changes |
| PopupEditor.InsertAtCategoryHead | src/popup/popup.ts:613-630 | the list gains one rule, and the new rule, with priority 1, comes first |
| PopupEditor.InsertAtCategoryHeadBlocks | src/popup/popup.ts:613-630 | the rule's category becomes the rule with priority 1 followed by the category's old rules bumped; the other category is untouched |
| PopupEditor.InsertAtCategoryHeadPermutation | src/popup/popup.ts:613-630 | apart from priorities, the insertion adds exactly the new rule |
| PopupEditor.InsertedRuleHeadsCategory | src/popup/popup.ts:613-630 | once normalized, the inserted rule heads its category with priority 1 |
| PopupEditor.InsertIntoNormalized | src/popup/popup.ts:613-630 | inserting into a normalized list and normalizing gives the rule first, then the category's rules bumped by one in their order; the other category is unchanged |
| PopupEditor.ClearMark | src/popup/popup.ts:260 | the new-rule mark is cleared exactly when it names the id |
| PopupEditor.AddOrUpdate | src/popup/popup.ts:199-280 | refused exactly when the form fails the checks; nothing is stored exactly for an edit of an unknown id; an add grows the list by one and marks the new rule; an edit clears the mark when it names the rule |
| PopupEditor.AddOrUpdateNormalized | src/popup/popup.ts:268 | every save stores a normalized list |
| PopupEditor.AddPutsRuleFirst | src/popup/popup.ts:261-268 | an added rule heads its category with priority 1; apart from priorities the list gains exactly that rule |
| PopupEditor.AddShiftsCategory | src/popup/popup.ts:261-268 | adding to a normalized list shifts the category's rules down one place, in their order, and leaves the other category unchanged |
| PopupEditor.EditInPlace | src/popup/popup.ts:239-253 | an edit within the category is saved and, apart from priorities, the stored rules are the old ones with the edited rule in place of the original (as a multiset, whatever the stored order) |
| PopupEditor.EditKeepsPlace | src/popup/popup.ts:250-253 | on a normalized stored list, the saved list is the stored one with only the rule at the found index replaced, by the edited rule under the original's priority |
| PopupEditor.EditedNormalizedInPlace | src/popup/popup.ts:250-268 | on a normalized list, the edited category is the old one with the rule at its place k replaced by the edited rule ranked k+1, and the other category is unchanged |
| PopupEditor.PlaceInCategoryRank | src/popup/popup.ts:596-610 | in a normalized list a rule's priority is its place in its category plus one |
| PopupEditor.NormalizedUpdate | src/popup/popup.ts:250-253 | overwriting a rule of a normalized list with one of the same category and priority keeps the list normalized, changes its category only at that place, and leaves the other category alone |
| PopupEditor.EditMovesRule | src/popup/popup.ts:239-260 | an edit that changes the category is saved with the edited rule at the head of its new category with priority 1; apart from priorities the list is the old one without the id, plus the edited rule |
| PopupEditor.Delete | src/popup/popup.ts:657-675 | no rule with the id remains, and the mark is cleared when it named the id |
| PopupEditor.DeleteRemovesOnlyId | src/popup/popup.ts:660-664 | the result is normalized and, apart from priorities, holds exactly the rules with another id |
| PopupEditor.DeleteClosesGaps | src/popup/popup.ts:660-664 | deleting from a normalized list leaves each category's remaining rules in order, renumbered 1..N |
| PopupEditor.Reorder | src/popup/popup.ts:556-591 | nothing is stored for equal indices or an `oldIndex` past the category; otherwise the length and the mark are kept |
| PopupEditor.ReorderMovesRule | src/popup/popup.ts:556-591 | after a drag, the category is the list shown before with the rule moved, renumbered 1..N; the other category is only renumbered; the list is normalized |
| PopupEditor.OtherCategoryUntouched | src/popup/popup.ts:575-577 | rewriting the priorities of one category leaves the other category's list as it was |
| DateFormat.Pad2 | src/utils/date.ts:32 | the padded text is all digits, and it has length 2 exactly for numbers below 100 |
| DateFormat.Pad2Value | src/utils/date.ts:32 | the padded text reads back as the number; numbers from 10 on are printed as they are |
| DateFormat.Pad2Digits | src/utils/date.ts:32 | below 100 the padded text is the tens digit and then the units digit |
| DateFormat.DateTimeFormats | src/utils/date.ts:27-42 | `datetime` is `date`, a hyphen and `time`; for a real date of a four-digit year they have 8, 6 and 15 characters |
| DateFormat.DateTime | src/utils/date.ts:7-15 | for a real date of a four-digit year the text has 16 characters, with separators at positions 4, 7, 10 and 13 |
| DateFormat.StampRoundTrip | src/utils/date.ts:33-35 | reading a `YYYYMMDD-HHMMSS` stamp back gives the clock it came from |
| DateFormat.DateTimeAgreesWithFormats | src/utils/date.ts:7-35 | `dateTime` shows the same date digits, hour and minute as the file-name stamps |
| DateFormat.YearChars | src/utils/date.ts:33 | a four-digit year prints as its thousands, hundreds, tens and units digits |
| DateFormat.DateChars | src/utils/date.ts:32-33 | `date` is the four year digits, then the two digits of the 1-based month and of the day |
| DateFormat.TimeChars | src/utils/date.ts:32-34 | `time` is the two digits each of the hours, minutes and seconds |
| DateFormat.DateTimeChars | src/utils/date.ts:7-15 | `dateTime` is the year digits, `-`, month digits, `-`, day digits, a space, hour digits, `:` and minute digits |
| DateFormat.ExampleDate | src/utils/date.ts:22-23 | any moment of 17 January 2026 gives the date `20260117` |
| DateFormat.ExampleTime | src/utils/date.ts:24 | any date at 14:30:25 gives the time `143025` |
| DateFormat.ExampleStamp | src/utils/date.ts:25 | 17 January 2026 at 14:30:25 gives the stamp `20260117-143025` |
| DateFormat.ExampleDateTime | src/utils/date.ts:3-5 | any moment of 15 March 2024 in the minute 14:30 gives `2024-03-15 14:30` |

## Left out

- Browser APIs are not modelled: storage reads and writes, `chrome.runtime.lastError` paths, download events, runtime messages, tabs and permissions. A handler takes the stored settings and returns what it would store, and a storage failure is not represented.
- URL parsing is a parameter, not the WHATWG algorithm. `ExactTierRedundant` assumes the parser rejects the empty string, as a WHATWG parser does.
- `toLowerCase` is ASCII-only; the Unicode case mappings are not modelled.
- Where the source reads the clock twice (`cleanup` and `getRecentFallback` in one `onCreated`), the model uses one reading `now` for both.
- `Number.MAX_VALUE` is not modelled as a float; an absent priority is `None`, which sorts after every number. Priorities are natural numbers.
- The UI code is not modelled: rendering, the form's DOM reads, messages, the theme and share features, and the drag-and-drop library. A drag arrives as the two indices; an undefined index is not modelled.
- `settings.rules || []` for stored settings that lack a rule array is not modelled: stored settings always hold a list.
- The router's rename and overwrite fields exist in `Rule` but the router never reads them, so they carry no behaviour here.
- `Date` is replaced by the integer fields its local-time getters return; negative years follow `String(year)`, but time zones and calendar validity are not modelled.
