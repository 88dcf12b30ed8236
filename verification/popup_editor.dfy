/** The rule-list editing of the current popup (src/popup/popup.ts): every
    save first renumbers each category 1..N and stores the site rules ahead
    of the general rules. */
module PopupEditor {
  import opened Wrappers
  import opened Config
  import opened RuleOrder
  import opened RuleForm

  /** The rules of `s` with their priorities erased, counted with
      multiplicity: two lists with the same bag hold the same rules apart
      from priorities and order. */
  function UnrankedBag(s: seq<Rule>): multiset<Rule> {
    multiset(Image(Unranked, s))
  }

  // ---------------------------------------------------------------------------
  // Normalization

  /** `normalizePriorities`: for `site` then `general`, the category's rules
      sorted by priority (stable, unranked last) and renumbered 1..N. */
  function Normalize(rules: seq<Rule>): (r: seq<Rule>)
    ensures |r| == |rules|
    ensures forall i :: 0 <= i < |r| ==> (r[i].category == Site <==> i < |OfCategory(rules, Site)|)
  {
    OfCategoryLengths(rules, Site);
    NormalBlock(rules, Site) + NormalBlock(rules, General)
  }

  /** One category of `rules`, sorted and renumbered. */
  function NormalBlock(rules: seq<Rule>, c: Category): (r: seq<Rule>)
    ensures |r| == |OfCategory(rules, c)|
    ensures Numbered(r)
    ensures forall i :: 0 <= i < |r| ==> r[i].category == c
  {
    var block := OfCategory(rules, c);
    var sorted := SortBy(block, RulePriority);
    forall i | 0 <= i < |sorted|
      ensures sorted[i].category == c
    {
      assert sorted[i] in multiset(block);
    }
    Renumber(sorted)
  }

  /** Site rules first, then general rules, each category numbered 1..N. */
  ghost predicate Normalized(rules: seq<Rule>) {
    && rules == OfCategory(rules, Site) + OfCategory(rules, General)
    && Numbered(OfCategory(rules, Site))
    && Numbered(OfCategory(rules, General))
  }

  /** Each category of a normalized list is numbered 1..N. */
  lemma NormalizedNumbered(rules: seq<Rule>, c: Category)
    requires Normalized(rules)
    ensures Numbered(OfCategory(rules, c))
  {
    if c == General {} else {}
  }

  /** Each category of the normalized list is that category, sorted and renumbered. */
  lemma NormalizeBlocks(rules: seq<Rule>, c: Category)
    ensures OfCategory(Normalize(rules), c) == NormalBlock(rules, c)
  {
    var s, g := NormalBlock(rules, Site), NormalBlock(rules, General);
    OfCategoryAppend(s, g, c);
    if c == Site {
      OfCategoryAll(s, Site);
      OfCategoryNone(g, Site);
    } else {
      OfCategoryNone(s, General);
      OfCategoryAll(g, General);
    }
  }

  lemma NormalizeNormalized(rules: seq<Rule>)
    ensures Normalized(Normalize(rules))
  {
    NormalizeBlocks(rules, Site);
    NormalizeBlocks(rules, General);
  }

  /** A normalized list is left as it is. */
  lemma NormalizedFixed(rules: seq<Rule>)
    requires Normalized(rules)
    ensures Normalize(rules) == rules
  {
    forall c | true
      ensures NormalBlock(rules, c) == OfCategory(rules, c)
    {
      var block := OfCategory(rules, c);
      assert Numbered(block) by {
        if c == General {} else {}
      }
      NumberedIsSorted(block);
      SortBySortedIdentity(block, RulePriority);
      RenumberNumbered(block);
    }
  }

  /** Normalizing twice is normalizing once. */
  lemma NormalizeIdempotent(rules: seq<Rule>)
    ensures Normalize(Normalize(rules)) == Normalize(rules)
  {
    NormalizeNormalized(rules);
    NormalizedFixed(Normalize(rules));
  }

  /** A block holds the category's rules, renumbered. */
  lemma BlockPermutation(rules: seq<Rule>, c: Category)
    ensures UnrankedBag(NormalBlock(rules, c)) == UnrankedBag(OfCategory(rules, c))
  {
    var block := OfCategory(rules, c);
    var sorted := SortBy(block, RulePriority);
    ImagePermutation(Unranked, block, sorted);
    assert Image(Unranked, Renumber(sorted)) == Image(Unranked, sorted);
  }

  /** Apart from priorities, normalizing only rearranges the rules: no rule
      is lost, duplicated or altered. */
  lemma NormalizePermutation(rules: seq<Rule>)
    ensures |Normalize(rules)| == |rules|
    ensures UnrankedBag(Normalize(rules)) == UnrankedBag(rules)
  {
    var site, general := OfCategory(rules, Site), OfCategory(rules, General);
    OfCategoryPartition(rules);
    assert multiset(site + general) == multiset(rules);
    ImagePermutation(Unranked, site + general, rules);
    ImageAppend(Unranked, site, general);
    BlockPermutation(rules, Site);
    BlockPermutation(rules, General);
    ImageAppend(Unranked, NormalBlock(rules, Site), NormalBlock(rules, General));
    assert |multiset(rules)| == |multiset(site + general)|;
  }

  // ---------------------------------------------------------------------------
  // Inserting at the head of a category

  /** A ranked rule moves down one place; an unranked one stays unranked. */
  function Bump(r: Rule): (b: Rule)
    ensures Unranked(b) == Unranked(r)
    ensures r.priority.None? <==> b.priority.None?
    ensures r.priority.Some? ==> b.priority.value == r.priority.value + 1
  {
    match r.priority
    case None => r
    case Some(p) => r.(priority := Some(p + 1))
  }

  /** `insertRuleAtCategoryHead`: the rule with priority 1, then its
      category's rules each bumped by one, then the other category's rules. */
  function InsertAtCategoryHead(rules: seq<Rule>, rule: Rule): (r: seq<Rule>)
    ensures |r| == |rules| + 1
    ensures r[0] == rule.(priority := Some(1))
  {
    var c := rule.category;
    OfCategoryLengths(rules, c);
    [rule.(priority := Some(1))] + Image(Bump, OfCategory(rules, c)) + OfCategory(rules, Other(c))
  }

  /** After the insertion the rule's category is the rule followed by the
      category's old rules, each bumped; the other category is untouched. */
  lemma InsertAtCategoryHeadBlocks(rules: seq<Rule>, rule: Rule)
    ensures OfCategory(InsertAtCategoryHead(rules, rule), rule.category)
      == [rule.(priority := Some(1))] + Image(Bump, OfCategory(rules, rule.category))
    ensures OfCategory(InsertAtCategoryHead(rules, rule), Other(rule.category))
      == OfCategory(rules, Other(rule.category))
  {
    var c := rule.category;
    var head := [rule.(priority := Some(1))];
    var own := Image(Bump, OfCategory(rules, c));
    var other := OfCategory(rules, Other(c));
    assert InsertAtCategoryHead(rules, rule) == head + own + other;
    OfCategoryAppend(head + own, other, c);
    OfCategoryAppend(head, own, c);
    OfCategoryAppend(head + own, other, Other(c));
    OfCategoryAppend(head, own, Other(c));
    OfCategoryAll(head, c);
    OfCategoryAll(own, c);
    OfCategoryNone(other, c);
    OfCategoryNone(head, Other(c));
    OfCategoryNone(own, Other(c));
    OfCategoryAll(other, Other(c));
  }

  /** A rule of priority 1 placed before rules ranked 1 or later (or
      unranked) stays first when sorted. */
  lemma HeadSortsFirst(x: Rule, s: seq<Rule>)
    requires x.priority == Some(1)
    requires forall i :: 0 <= i < |s| ==> PriorityLeq(Some(1), s[i].priority)
    ensures var sorted := SortBy([x] + s, RulePriority); |sorted| >= 1 && sorted[0] == x
  {
    var block := [x] + s;
    forall i | 0 <= i < |block|
      ensures PriorityLeq(RulePriority(block[0]), RulePriority(block[i]))
    {
      if i > 0 {
        assert block[i] == s[i - 1];
      }
    }
    SortByFirstMin(block, RulePriority);
  }

  /** Bumped priorities are at least 1. */
  lemma BumpedAtLeastOne(s: seq<Rule>)
    ensures forall i :: 0 <= i < |s| ==> PriorityLeq(Some(1), Image(Bump, s)[i].priority)
  {
  }

  /** Once normalized, an inserted rule heads its category with priority 1
      and the other category is only renumbered. */
  lemma InsertedRuleHeadsCategory(rules: seq<Rule>, rule: Rule)
    ensures var r := Normalize(InsertAtCategoryHead(rules, rule));
      && |OfCategory(r, rule.category)| >= 1
      && OfCategory(r, rule.category)[0] == rule.(priority := Some(1))
      && OfCategory(r, Other(rule.category)) == NormalBlock(rules, Other(rule.category))
  {
    var c := rule.category;
    var inserted := InsertAtCategoryHead(rules, rule);
    InsertAtCategoryHeadBlocks(rules, rule);
    NormalizeBlocks(inserted, c);
    NormalizeBlocks(inserted, Other(c));
    var bumped := Image(Bump, OfCategory(rules, c));
    BumpedAtLeastOne(OfCategory(rules, c));
    HeadSortsFirst(rule.(priority := Some(1)), bumped);
  }

  /** A category already numbered 1..N is its own normalized block. */
  lemma NumberedBlockFixed(rules: seq<Rule>, c: Category)
    requires Numbered(OfCategory(rules, c))
    ensures NormalBlock(rules, c) == OfCategory(rules, c)
  {
    var block := OfCategory(rules, c);
    NumberedIsSorted(block);
    SortBySortedIdentity(block, RulePriority);
    RenumberNumbered(block);
  }

  /** A rule ranked 1 ahead of a numbered list, bumped, is numbered. */
  lemma BumpedNumbered(x: Rule, s: seq<Rule>)
    requires x.priority == Some(1) && Numbered(s)
    ensures Numbered([x] + Image(Bump, s))
  {
    var block := [x] + Image(Bump, s);
    forall k | 0 <= k < |block|
      ensures block[k].priority == Some(k + 1)
    {
      if k > 0 {
        assert block[k] == Bump(s[k - 1]);
      }
    }
  }

  /** Adding to a normalized list puts the rule first in its category and
      moves each of the category's rules down one place, in their order;
      the other category is untouched. */
  lemma InsertIntoNormalized(rules: seq<Rule>, rule: Rule)
    requires Normalized(rules)
    ensures var r := Normalize(InsertAtCategoryHead(rules, rule));
      && OfCategory(r, rule.category) == [rule.(priority := Some(1))] + Image(Bump, OfCategory(rules, rule.category))
      && OfCategory(r, Other(rule.category)) == OfCategory(rules, Other(rule.category))
  {
    var c := rule.category;
    var inserted := InsertAtCategoryHead(rules, rule);
    var own := OfCategory(rules, c);
    InsertAtCategoryHeadBlocks(rules, rule);
    NormalizeBlocks(inserted, c);
    NormalizeBlocks(inserted, Other(c));
    assert Numbered(own) && Numbered(OfCategory(rules, Other(c))) by {
      if c == Site {} else {}
    }
    BumpedNumbered(rule.(priority := Some(1)), own);
    NumberedBlockFixed(inserted, c);
    NumberedBlockFixed(inserted, Other(c));
  }

  /** Apart from priorities, a category and the other category together
      hold the rules. */
  lemma ErasedPartition(rules: seq<Rule>, c: Category)
    ensures UnrankedBag(OfCategory(rules, c)) + UnrankedBag(OfCategory(rules, Other(c)))
      == UnrankedBag(rules)
  {
    var own, other := OfCategory(rules, c), OfCategory(rules, Other(c));
    ImageAppend(Unranked, own, other);
    assert multiset(own + other) == multiset(rules) by {
      OfCategoryPartition(rules);
      if c == General {} else {}
    }
    ImagePermutation(Unranked, own + other, rules);
  }

  /** Inserting adds exactly the rule, apart from priorities. */
  lemma InsertAtCategoryHeadPermutation(rules: seq<Rule>, rule: Rule)
    ensures UnrankedBag(InsertAtCategoryHead(rules, rule))
      == UnrankedBag(rules) + multiset{Unranked(rule)}
  {
    var c := rule.category;
    var own, other := OfCategory(rules, c), OfCategory(rules, Other(c));
    var head := [rule.(priority := Some(1))];
    var bumped := Image(Bump, own);
    assert InsertAtCategoryHead(rules, rule) == head + bumped + other;
    assert Image(Unranked, bumped) == Image(Unranked, own);
    assert Image(Unranked, head) == [Unranked(rule)];
    assert Image(Unranked, head + bumped + other) == [Unranked(rule)] + Image(Unranked, own) + Image(Unranked, other) by {
      ImageAppend(Unranked, head + bumped, other);
      ImageAppend(Unranked, head, bumped);
    }
    ErasedPartition(rules, c);
  }

  // ---------------------------------------------------------------------------
  // The save handlers

  /** `null` for the new-rule mark when it names `id`. */
  function ClearMark(mark: Option<string>, id: string): (r: Option<string>)
    ensures r != Some(id)
    ensures mark != Some(id) ==> r == mark
  {
    if mark == Some(id) then None else mark
  }

  /** The rule list after an edit that found the rule at `i`: in place with
      the old priority when the category is unchanged, else removed (every
      rule with its id) and inserted at the head of its new category. */
  function EditedRules(rules: seq<Rule>, i: nat, rule: Rule): seq<Rule>
    requires i < |rules|
  {
    var original := rules[i];
    if original.category == rule.category then rules[i := rule.(priority := original.priority)]
    else InsertAtCategoryHead(WithoutId(rules, rule.id), rule)
  }

  /** `handleAddOrUpdateRule`. A refused form and an edit whose rule is gone
      store nothing; every save stores a normalized list. An add marks the
      new rule; an edit clears the mark when it names the edited rule. */
  function AddOrUpdate(stored: Option<Settings>, f: Form, now: nat): (r: Outcome)
    ensures r.Refused? <==> Validate(f).Some?
    ensures r.NotFound? <==> Validate(f).None? && IsEdit(f) && FindIndex(Loaded(stored).rules, f.idField).None?
    ensures r.Saved? && !IsEdit(f) ==>
      && |r.settings.rules| == |Loaded(stored).rules| + 1
      && r.settings.newRuleId == Some(RuleId(f, now))
    ensures r.Saved? && IsEdit(f) ==> r.settings.newRuleId == ClearMark(Loaded(stored).newRuleId, f.idField)
  {
    match Validate(f)
    case Some(e) => Refused(e)
    case None =>
      var settings := Loaded(stored);
      var rule := BuildRule(f, now, None);
      if IsEdit(f) then
        match FindIndex(settings.rules, rule.id)
        case None => NotFound
        case Some(i) =>
          Saved(Settings(Normalize(EditedRules(settings.rules, i, rule)), ClearMark(settings.newRuleId, rule.id)))
      else
        NormalizePermutation(InsertAtCategoryHead(settings.rules, rule));
        Saved(Settings(Normalize(InsertAtCategoryHead(settings.rules, rule)), Some(rule.id)))
  }

  /** Every save leaves the list normalized. */
  lemma AddOrUpdateNormalized(stored: Option<Settings>, f: Form, now: nat)
    requires Validate(f).None?
    requires !IsEdit(f) || FindIndex(Loaded(stored).rules, f.idField).Some?
    ensures AddOrUpdate(stored, f, now).Saved?
    ensures Normalized(AddOrUpdate(stored, f, now).settings.rules)
  {
    var settings := Loaded(stored);
    var rule := BuildRule(f, now, None);
    if IsEdit(f) {
      var i := FindIndex(settings.rules, rule.id).value;
      NormalizeNormalized(EditedRules(settings.rules, i, rule));
    } else {
      NormalizeNormalized(InsertAtCategoryHead(settings.rules, rule));
    }
  }

  /** An added rule heads its category with priority 1; apart from
      priorities the list gains exactly that rule, and the other category
      is only renumbered. */
  lemma AddPutsRuleFirst(stored: Option<Settings>, f: Form, now: nat)
    requires Validate(f).None? && !IsEdit(f)
    ensures AddOrUpdate(stored, f, now).Saved?
    ensures var rules := Loaded(stored).rules;
      var rule := BuildRule(f, now, None);
      var r := AddOrUpdate(stored, f, now).settings.rules;
      && |OfCategory(r, f.category)| >= 1
      && OfCategory(r, f.category)[0] == rule.(priority := Some(1))
      && OfCategory(r, Other(f.category)) == NormalBlock(rules, Other(f.category))
      && UnrankedBag(r) == UnrankedBag(rules) + multiset{Unranked(rule)}
  {
    var rules := Loaded(stored).rules;
    var rule := BuildRule(f, now, None);
    assert AddOrUpdate(stored, f, now).settings.rules == Normalize(InsertAtCategoryHead(rules, rule));
    InsertedRuleBag(rules, rule);
    InsertedRuleHeadsCategory(rules, rule);
  }

  /** Apart from priorities, inserting and normalizing adds exactly the rule. */
  lemma InsertedRuleBag(rules: seq<Rule>, rule: Rule)
    ensures UnrankedBag(Normalize(InsertAtCategoryHead(rules, rule)))
         == UnrankedBag(rules) + multiset{Unranked(rule)}
  {
    NormalizePermutation(InsertAtCategoryHead(rules, rule));
    InsertAtCategoryHeadPermutation(rules, rule);
  }

  /** Adding to a normalized list shifts the category's rules down one
      place, in their order, under the new rule. */
  lemma AddShiftsCategory(stored: Option<Settings>, f: Form, now: nat)
    requires Validate(f).None? && !IsEdit(f)
    requires Normalized(Loaded(stored).rules)
    ensures AddOrUpdate(stored, f, now).Saved?
    ensures var rules := Loaded(stored).rules;
      var r := AddOrUpdate(stored, f, now).settings.rules;
      && OfCategory(r, f.category) == [BuildRule(f, now, Some(1))] + Image(Bump, OfCategory(rules, f.category))
      && OfCategory(r, Other(f.category)) == OfCategory(rules, Other(f.category))
  {
    var rules := Loaded(stored).rules;
    var rule := BuildRule(f, now, None);
    assert AddOrUpdate(stored, f, now).settings.rules == Normalize(InsertAtCategoryHead(rules, rule));
    assert rule.(priority := Some(1)) == BuildRule(f, now, Some(1));
    InsertIntoNormalized(rules, rule);
  }

  /** Apart from priorities, an edit within the category is a plain
      replacement of the rule at `i`. */
  lemma EditedRulesInPlace(rules: seq<Rule>, i: nat, rule: Rule)
    requires i < |rules| && rules[i].category == rule.category
    ensures UnrankedBag(Normalize(EditedRules(rules, i, rule)))
         == UnrankedBag(rules[i := rule])
  {
    var kept := rule.(priority := rules[i].priority);
    var edited := rules[i := kept];
    assert EditedRules(rules, i, rule) == edited;
    NormalizePermutation(edited);
    assert Unranked(kept) == Unranked(rule);
    ImageUpdate(Unranked, rules, i, kept);
    ImageUpdate(Unranked, rules, i, rule);
  }

  /** Where the rule at `i` of a normalized list sits inside its category:
      site rules come first, so a general rule's place is shifted by their count. */
  function PlaceInCategory(rules: seq<Rule>, i: nat): (k: int)
    requires i < |rules|
  {
    if rules[i].category == Site then i else i - |OfCategory(rules, Site)|
  }

  /** Site rules followed by general rules split back into the two. */
  lemma BlocksOf(site: seq<Rule>, general: seq<Rule>)
    requires forall j :: 0 <= j < |site| ==> site[j].category == Site
    requires forall j :: 0 <= j < |general| ==> general[j].category == General
    ensures OfCategory(site + general, Site) == site
    ensures OfCategory(site + general, General) == general
  {
    OfCategoryAppend(site, general, Site);
    OfCategoryAppend(site, general, General);
    OfCategoryAll(site, Site);
    OfCategoryNone(site, General);
    OfCategoryAll(general, General);
    OfCategoryNone(general, Site);
  }

  /** In a normalized list the rule at `i` sits at its place in its
      category, and its priority is that place plus one. */
  lemma PlaceInCategoryRank(rules: seq<Rule>, i: nat)
    requires Normalized(rules) && i < |rules|
    ensures var k := PlaceInCategory(rules, i);
      && 0 <= k < |OfCategory(rules, rules[i].category)|
      && OfCategory(rules, rules[i].category)[k] == rules[i]
      && rules[i].priority == Some(k + 1)
  {
    var site, general := OfCategory(rules, Site), OfCategory(rules, General);
    NormalizedNumbered(rules, rules[i].category);
    if i < |site| {
      assert rules[i] == site[i];
    } else {
      assert rules[i] == general[i - |site|];
    }
  }

  /** Replacing a rule of a normalized list by one of the same category and
      priority keeps the list normalized, changes that category at the
      rule's place only, and leaves the other category as it was. */
  lemma NormalizedUpdate(rules: seq<Rule>, i: nat, x: Rule)
    requires Normalized(rules) && i < |rules|
    requires x.category == rules[i].category && x.priority == rules[i].priority
    ensures Normalized(rules[i := x])
    ensures var k := PlaceInCategory(rules, i);
      && 0 <= k < |OfCategory(rules, x.category)|
      && OfCategory(rules[i := x], x.category) == OfCategory(rules, x.category)[k := x]
    ensures OfCategory(rules[i := x], Other(x.category)) == OfCategory(rules, Other(x.category))
  {
    if i < |OfCategory(rules, Site)| {
      UpdateSiteRule(rules, i, x);
    } else {
      UpdateGeneralRule(rules, i, x);
    }
  }

  lemma UpdateSiteRule(rules: seq<Rule>, i: nat, x: Rule)
    requires Normalized(rules) && i < |OfCategory(rules, Site)|
    requires x.category == Site && x.priority == rules[i].priority
    ensures i < |rules|
    ensures Normalized(rules[i := x])
    ensures OfCategory(rules[i := x], Site) == OfCategory(rules, Site)[i := x]
    ensures OfCategory(rules[i := x], General) == OfCategory(rules, General)
  {
    var site, general := OfCategory(rules, Site), OfCategory(rules, General);
    assert rules[i] == site[i];
    var site' := site[i := x];
    assert rules[i := x] == site' + general;
    BlocksOf(site', general);
  }

  lemma UpdateGeneralRule(rules: seq<Rule>, i: nat, x: Rule)
    requires Normalized(rules) && |OfCategory(rules, Site)| <= i < |rules|
    requires x.category == General && x.priority == rules[i].priority
    ensures Normalized(rules[i := x])
    ensures var k := i - |OfCategory(rules, Site)|;
      && k < |OfCategory(rules, General)|
      && OfCategory(rules[i := x], General) == OfCategory(rules, General)[k := x]
    ensures OfCategory(rules[i := x], Site) == OfCategory(rules, Site)
  {
    var site, general := OfCategory(rules, Site), OfCategory(rules, General);
    assert rules[i] == general[i - |site|];
    var general' := general[i - |site| := x];
    assert rules[i := x] == site + general';
    BlocksOf(site, general');
  }

  /** On a normalized list, an edit within the category leaves every rule
      where it was and the edited one under its old priority, which is its
      rank in the category. */
  lemma EditedNormalizedInPlace(rules: seq<Rule>, i: nat, rule: Rule)
    requires Normalized(rules) && i < |rules| && rules[i].category == rule.category
    ensures Normalize(EditedRules(rules, i, rule)) == rules[i := rule.(priority := rules[i].priority)]
    ensures var r := Normalize(EditedRules(rules, i, rule));
      var k := PlaceInCategory(rules, i);
      && 0 <= k < |OfCategory(rules, rule.category)|
      && OfCategory(r, rule.category) == OfCategory(rules, rule.category)[k := rule.(priority := Some(k + 1))]
      && OfCategory(r, Other(rule.category)) == OfCategory(rules, Other(rule.category))
  {
    PlaceInCategoryRank(rules, i);
    var kept := rule.(priority := rules[i].priority);
    assert EditedRules(rules, i, rule) == rules[i := kept];
    NormalizedUpdate(rules, i, kept);
    NormalizedFixed(rules[i := kept]);
  }

  /** An edit within the category replaces the rule's fields in place:
      apart from priorities, the old rule gives way to the edited one. */
  lemma EditInPlace(stored: Option<Settings>, f: Form, now: nat)
    requires Validate(f).None? && IsEdit(f)
    requires FindIndex(Loaded(stored).rules, f.idField).Some?
    requires Loaded(stored).rules[FindIndex(Loaded(stored).rules, f.idField).value].category == f.category
    ensures AddOrUpdate(stored, f, now).Saved?
    ensures var rules := Loaded(stored).rules;
      var i := FindIndex(rules, f.idField).value;
      var r := AddOrUpdate(stored, f, now).settings.rules;
      UnrankedBag(r) == UnrankedBag(rules[i := BuildRule(f, now, None)])
  {
    var rules := Loaded(stored).rules;
    var i := FindIndex(rules, f.idField).value;
    var rule := BuildRule(f, now, None);
    assert AddOrUpdate(stored, f, now).settings.rules == Normalize(EditedRules(rules, i, rule));
    EditedRulesInPlace(rules, i, rule);
  }

  /** An edit that finds its rule saves the normalized edited list. */
  lemma EditSaves(stored: Option<Settings>, f: Form, now: nat)
    requires Validate(f).None? && IsEdit(f)
    requires FindIndex(Loaded(stored).rules, f.idField).Some?
    ensures AddOrUpdate(stored, f, now).Saved?
    ensures var rules := Loaded(stored).rules;
      var i := FindIndex(rules, f.idField).value;
      AddOrUpdate(stored, f, now).settings.rules == Normalize(EditedRules(rules, i, BuildRule(f, now, None)))
  {
  }

  /** On a stored list that is normalized (as every save leaves it), an edit
      within the category keeps the rule at its index with its old priority,
      which is its rank in the category (`PlaceInCategoryRank`); nothing
      else changes. */
  lemma EditKeepsPlace(stored: Option<Settings>, f: Form, now: nat)
    requires Validate(f).None? && IsEdit(f)
    requires FindIndex(Loaded(stored).rules, f.idField).Some?
    requires Loaded(stored).rules[FindIndex(Loaded(stored).rules, f.idField).value].category == f.category
    requires Normalized(Loaded(stored).rules)
    ensures AddOrUpdate(stored, f, now).Saved?
    ensures var rules := Loaded(stored).rules;
      var i := FindIndex(rules, f.idField).value;
      AddOrUpdate(stored, f, now).settings.rules == rules[i := BuildRule(f, now, rules[i].priority)]
  {
    var rules := Loaded(stored).rules;
    var i := FindIndex(rules, f.idField).value;
    var rule := BuildRule(f, now, None);
    EditSaves(stored, f, now);
    EditedNormalizedInPlace(rules, i, rule);
    BuildRulePriority(f, now, rules[i].priority);
  }

  /** An edit that changes the category moves the rule to the head of its
      new category with priority 1: apart from priorities, the list is the
      one without the old rule, plus the edited one. */
  lemma EditMovesRule(stored: Option<Settings>, f: Form, now: nat)
    requires Validate(f).None? && IsEdit(f)
    requires FindIndex(Loaded(stored).rules, f.idField).Some?
    requires Loaded(stored).rules[FindIndex(Loaded(stored).rules, f.idField).value].category != f.category
    ensures AddOrUpdate(stored, f, now).Saved?
    ensures var rules := Loaded(stored).rules;
      var rule := BuildRule(f, now, None);
      var r := AddOrUpdate(stored, f, now).settings.rules;
      && |OfCategory(r, f.category)| >= 1
      && OfCategory(r, f.category)[0] == rule.(priority := Some(1))
      && UnrankedBag(r)
         == UnrankedBag(WithoutId(rules, f.idField)) + multiset{Unranked(rule)}
  {
    var rules := Loaded(stored).rules;
    var rule := BuildRule(f, now, None);
    var rest := WithoutId(rules, f.idField);
    assert AddOrUpdate(stored, f, now).settings.rules == Normalize(InsertAtCategoryHead(rest, rule));
    InsertedRuleBag(rest, rule);
    InsertedRuleHeadsCategory(rest, rule);
  }

  /** `handleDeleteRule`: every rule with the id removed, the mark cleared
      when it names the id, the rest normalized. */
  function Delete(stored: Option<Settings>, id: string): (r: Settings)
    ensures forall i :: 0 <= i < |r.rules| ==> r.rules[i].id != id
    ensures r.newRuleId == ClearMark(Loaded(stored).newRuleId, id)
  {
    var settings := Loaded(stored);
    var kept := WithoutId(settings.rules, id);
    NormalizePermutation(kept);
    var r := Normalize(kept);
    forall i | 0 <= i < |r|
      ensures r[i].id != id
    {
      assert Unranked(r[i]) in UnrankedBag(kept);
    }
    Settings(r, ClearMark(settings.newRuleId, id))
  }

  /** Apart from priorities, deleting removes exactly the rules with the id;
      the result is normalized. */
  lemma DeleteRemovesOnlyId(stored: Option<Settings>, id: string)
    ensures var r := Delete(stored, id).rules;
      && Normalized(r)
      && UnrankedBag(r) == UnrankedBag(WithoutId(Loaded(stored).rules, id))
  {
    NormalizeNormalized(WithoutId(Loaded(stored).rules, id));
    NormalizePermutation(WithoutId(Loaded(stored).rules, id));
  }

  /** Removing rules keeps a sorted list sorted. */
  lemma {:induction false} WithoutIdSorted(s: seq<Rule>, id: string)
    requires SortedBy(s, RulePriority)
    ensures SortedBy(WithoutId(s, id), RulePriority)
  {
    if s != [] {
      var t := s[1..];
      assert SortedBy(t, RulePriority) by {
        forall i, j | 0 <= i < j < |t|
          ensures PriorityLeq(RulePriority(t[i]), RulePriority(t[j]))
        {
          assert t[i] == s[i + 1] && t[j] == s[j + 1];
        }
      }
      WithoutIdSorted(t, id);
      WithoutIdMembers(t, id);
      var rest := WithoutId(t, id);
      if s[0].id != id {
        forall j | 0 <= j < |rest|
          ensures PriorityLeq(RulePriority(s[0]), RulePriority(rest[j]))
        {
          assert rest[j] in t;
          var k :| 0 <= k < |t| && t[k] == rest[j];
          assert s[k + 1] == rest[j];
        }
        assert WithoutId(s, id) == [s[0]] + rest;
      } else {
        assert WithoutId(s, id) == rest;
      }
    }
  }

  /** Deleting from a normalized list closes the gap: each category keeps
      its remaining rules in their order, renumbered 1..N. */
  lemma DeleteClosesGaps(stored: Option<Settings>, id: string, c: Category)
    requires Normalized(Loaded(stored).rules)
    ensures OfCategory(Delete(stored, id).rules, c) == Renumber(WithoutId(OfCategory(Loaded(stored).rules, c), id))
  {
    var rules := Loaded(stored).rules;
    var kept := WithoutId(rules, id);
    var block := OfCategory(rules, c);
    NormalizeBlocks(kept, c);
    WithoutIdOfCategory(rules, id, c);
    assert Numbered(block) by {
      if c == Site {} else {}
    }
    NumberedIsSorted(block);
    WithoutIdSorted(block, id);
    SortBySortedIdentity(WithoutId(block, id), RulePriority);
  }

  /** The drag handler: nothing is stored when the indices are equal or
      `oldIndex` is past the list; otherwise the dragged category is ranked
      in the new order and the whole list normalized. */
  function Reorder(stored: Option<Settings>, c: Category, oldIndex: nat, newIndex: nat): (r: Option<Settings>)
    ensures r.Some? <==> oldIndex != newIndex && oldIndex < |OfCategory(Loaded(stored).rules, c)|
    ensures r.Some? ==> r.value.newRuleId == Loaded(stored).newRuleId
    ensures r.Some? ==> |r.value.rules| == |Loaded(stored).rules|
  {
    var settings := Loaded(stored);
    match RankDragged(settings.rules, c, oldIndex, newIndex)
    case None => None
    case Some(ranked) =>
      NormalizePermutation(ranked);
      Some(settings.(rules := Normalize(ranked)))
  }

  /** Renumbering forgets the priorities it replaces. */
  lemma RenumberErased(a: seq<Rule>, b: seq<Rule>)
    requires Image(Unranked, a) == Image(Unranked, b)
    ensures Renumber(a) == Renumber(b)
  {
    var ra, rb := Renumber(a), Renumber(b);
    forall k | 0 <= k < |ra|
      ensures ra[k] == rb[k]
    {
      assert Image(Unranked, a)[k] == Image(Unranked, b)[k];
      assert Unranked(ra[k]) == Unranked(rb[k]);
    }
  }

  /** The dragged category, normalized, is the moved list renumbered. */
  lemma DraggedBlock(rules: seq<Rule>, c: Category, oldIndex: nat, newIndex: nat)
    requires RankDragged(rules, c, oldIndex, newIndex).Some?
    ensures var before := SortBy(OfCategory(rules, c), RulePriority);
      && oldIndex < |before|
      && NormalBlock(RankDragged(rules, c, oldIndex, newIndex).value, c) == Renumber(Move(before, oldIndex, newIndex))
  {
    var ranked := RankDragged(rules, c, oldIndex, newIndex).value;
    var before := SortBy(OfCategory(rules, c), RulePriority);
    RankDraggedShown(rules, c, oldIndex, newIndex);
    RenumberErased(SortBy(OfCategory(ranked, c), RulePriority), Move(before, oldIndex, newIndex));
  }

  /** After a drag the category holds the list shown before, with the rule
      from `oldIndex` moved to `newIndex` (or to the end when `newIndex` is
      past it), renumbered 1..N; the other category is only renumbered; the
      list is normalized. */
  lemma ReorderMovesRule(stored: Option<Settings>, c: Category, oldIndex: nat, newIndex: nat)
    requires oldIndex != newIndex && oldIndex < |OfCategory(Loaded(stored).rules, c)|
    ensures Reorder(stored, c, oldIndex, newIndex).Some?
    ensures var rules := Loaded(stored).rules;
      var before := SortBy(OfCategory(rules, c), RulePriority);
      var r := Reorder(stored, c, oldIndex, newIndex).value.rules;
      && oldIndex < |before|
      && OfCategory(r, c) == Renumber(Move(before, oldIndex, newIndex))
      && OfCategory(r, Other(c)) == NormalBlock(rules, Other(c))
      && Normalized(r)
  {
    var rules := Loaded(stored).rules;
    var ranked := RankDragged(rules, c, oldIndex, newIndex).value;
    assert Reorder(stored, c, oldIndex, newIndex).value.rules == Normalize(ranked);
    DraggedBlock(rules, c, oldIndex, newIndex);
    NormalizeBlocks(ranked, c);
    NormalizeBlocks(ranked, Other(c));
    NormalizeNormalized(ranked);
    OtherCategoryUntouched(rules, ranked, c);
  }

  /** Rewriting only rules of category `c`, without changing any rule's
      category, leaves the other category's list as it was. */
  lemma {:induction false} OtherCategoryUntouched(rules: seq<Rule>, ranked: seq<Rule>, c: Category)
    requires |ranked| == |rules|
    requires forall i :: 0 <= i < |rules| ==> Unranked(ranked[i]) == Unranked(rules[i])
    requires forall i :: 0 <= i < |rules| && rules[i].category != c ==> ranked[i] == rules[i]
    ensures OfCategory(ranked, Other(c)) == OfCategory(rules, Other(c))
  {
    if rules != [] {
      assert Unranked(ranked[0]) == Unranked(rules[0]);
      assert ranked[0].category == rules[0].category;
      OtherCategoryUntouched(rules[1..], ranked[1..], c);
    }
  }
}
