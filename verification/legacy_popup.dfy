/** The rule-list editing of the older popup (src/popup.ts). It never
    renumbers: an added rule is appended with priority 0, an edit keeps the
    old priority, a delete leaves gaps, and a drag rewrites only the dragged
    category's priorities, in place. */
module LegacyPopup {
  import opened Wrappers
  import opened Config
  import opened RuleOrder
  import opened RuleForm

  /** The rule list after an edit of the rule at `i`: the new values with
      the old priority. */
  function ReplaceKeepingPriority(rules: seq<Rule>, i: nat, rule: Rule): (r: seq<Rule>)
    requires i < |rules|
    ensures |r| == |rules|
    ensures Unranked(r[i]) == Unranked(rule) && r[i].priority == rules[i].priority
    ensures forall j :: 0 <= j < |r| && j != i ==> r[j] == rules[j]
  {
    rules[i := rule.(priority := rules[i].priority)]
  }

  /** `handleAddOrUpdateRule`. A refused form stores nothing; an edit whose
      rule is gone is logged and the settings are stored as read. */
  function AddOrUpdate(stored: Option<Settings>, f: Form, now: nat): (r: Outcome)
    ensures r.Refused? <==> Validate(f).Some?
    ensures !r.NotFound?
    ensures r.Saved? ==> r.settings.newRuleId == Loaded(stored).newRuleId
    ensures r.Saved? && !IsEdit(f) ==>
      var rules := Loaded(stored).rules;
      && |r.settings.rules| == |rules| + 1
      && r.settings.rules[..|rules|] == rules
      && r.settings.rules[|rules|] == BuildRule(f, now, Some(0))
    ensures r.Saved? && IsEdit(f) ==> |r.settings.rules| == |Loaded(stored).rules|
  {
    match Validate(f)
    case Some(e) => Refused(e)
    case None =>
      var settings := Loaded(stored);
      var rule := BuildRule(f, now, Some(0));
      if IsEdit(f) then
        match FindIndex(settings.rules, rule.id)
        case None => Saved(settings)
        case Some(i) => Saved(settings.(rules := ReplaceKeepingPriority(settings.rules, i, rule)))
      else
        Saved(settings.(rules := settings.rules + [rule]))
  }

  function IdOf(r: Rule): string {
    r.id
  }

  /** An edit rewrites the first rule carrying the form's id (fields from the
      form, priority kept) and nothing else; the ids stored are unchanged, so
      an edit never duplicates or loses an id. */
  lemma EditRewritesInPlace(stored: Option<Settings>, f: Form, now: nat)
    requires Validate(f).None? && IsEdit(f)
    ensures var rules := Loaded(stored).rules;
      var r := AddOrUpdate(stored, f, now).settings.rules;
      && Image(IdOf, r) == Image(IdOf, rules)
      && match FindIndex(rules, f.idField)
         case None => r == rules
         case Some(i) =>
           && Unranked(r[i]) == Unranked(BuildRule(f, now, None))
           && r[i].priority == rules[i].priority
           && (forall j :: 0 <= j < |r| && j != i ==> r[j] == rules[j])
  {
  }

  /** A rule appended with priority 0, when no rule of its category has
      priority 0, comes first in that category's priority order. */
  lemma AppendedRuleRanksFirst(rules: seq<Rule>, rule: Rule)
    requires rule.priority == Some(0)
    requires forall x :: x in rules && x.category == rule.category ==> x.priority != Some(0)
    ensures var sorted := SortBy(OfCategory(rules + [rule], rule.category), RulePriority);
      |sorted| >= 1 && sorted[0] == rule
  {
    var c := rule.category;
    var own := OfCategory(rules, c);
    var block := OfCategory(rules + [rule], c);
    assert block == own + [rule] by {
      OfCategoryAppend(rules, [rule], c);
      OfCategoryCons(rule, [], c);
    }
    forall y | y in block && y != rule
      ensures !PriorityLeq(RulePriority(y), RulePriority(rule))
    {
      assert y in own;
      OfCategoryMembers(rules, c);
    }
    SortByStrictMin(block, RulePriority, rule);
  }

  /** A rule added through the form comes first in its category when no
      rule of that category has priority 0. */
  lemma AddedRuleRanksFirst(stored: Option<Settings>, f: Form, now: nat)
    requires Validate(f).None? && !IsEdit(f)
    requires forall x :: x in Loaded(stored).rules && x.category == f.category ==> x.priority != Some(0)
    ensures var r := AddOrUpdate(stored, f, now).settings.rules;
      var sorted := SortBy(OfCategory(r, f.category), RulePriority);
      |sorted| >= 1 && sorted[0] == BuildRule(f, now, Some(0))
  {
    var rule := BuildRule(f, now, Some(0));
    var rules := Loaded(stored).rules;
    assert AddOrUpdate(stored, f, now).settings.rules == rules + [rule];
    AppendedRuleRanksFirst(rules, rule);
  }

  /** `handleDeleteRule`: the rules with another id, in their order, with
      their priorities as they were. */
  function Delete(stored: Option<Settings>, id: string): (r: Settings)
    ensures forall x :: x in r.rules <==> x in Loaded(stored).rules && x.id != id
    ensures r.newRuleId == Loaded(stored).newRuleId
  {
    var settings := Loaded(stored);
    WithoutIdMembers(settings.rules, id);
    settings.(rules := WithoutId(settings.rules, id))
  }

  /** Deleting keeps each category's remaining rules in their order, and
      deleting an id that is not there changes nothing. */
  lemma DeleteKeepsOrder(stored: Option<Settings>, id: string, c: Category)
    ensures OfCategory(Delete(stored, id).rules, c) == WithoutId(OfCategory(Loaded(stored).rules, c), id)
    ensures (forall i :: 0 <= i < |Loaded(stored).rules| ==> Loaded(stored).rules[i].id != id) ==>
      Delete(stored, id) == Loaded(stored)
  {
    var rules := Loaded(stored).rules;
    WithoutIdOfCategory(rules, id, c);
    if forall i :: 0 <= i < |rules| ==> rules[i].id != id {
      WithoutIdAbsent(rules, id);
    }
  }

  /** `initSortable`'s `onEnd` handler: `None` when nothing is stored;
      otherwise the dragged category is ranked in place and nothing is
      renumbered elsewhere. */
  function Reorder(stored: Option<Settings>, c: Category, oldIndex: nat, newIndex: nat): (r: Option<Settings>)
    ensures r.Some? <==> oldIndex != newIndex && oldIndex < |OfCategory(Loaded(stored).rules, c)|
    ensures r.Some? ==> r.value.newRuleId == Loaded(stored).newRuleId
    ensures r.Some? ==> r.value.rules == RankDragged(Loaded(stored).rules, c, oldIndex, newIndex).value
  {
    var settings := Loaded(stored);
    match RankDragged(settings.rules, c, oldIndex, newIndex)
    case None => None
    case Some(rules) => Some(settings.(rules := rules))
  }
}
