/** The persisted data: a routing rule and the settings aggregate that holds
    the rule list (src/settings.ts). */
module Config {
  import opened Wrappers

  /** Which field of the download a rule's pattern is tested against. */
  datatype ConditionType = FilenameCondition | UrlCondition | ExtensionCondition

  /** `site` rules are scoped to a site pattern; `general` rules are not. */
  datatype Category = General | Site

  /** The other category: with two categories, `r.category !== c` means
      `r.category === Other(c)`. */
  function Other(c: Category): (d: Category)
    ensures d != c
  {
    if c == Site then General else Site
  }

  /** A routing rule. Optional fields of the TypeScript interface are `Option`s;
      `priority` is a natural with `None` meaning "unranked" (sorted last). */
  datatype Rule = Rule(
    id: string,
    category: Category,
    sitePattern: Option<string>,
    condition: ConditionType,
    pattern: string,
    folder: string,
    overrideFilename: Option<bool>,
    rename: Option<bool>,
    renameFilename: Option<string>,
    priority: Option<nat>)

  /** The settings aggregate. `newRuleId` marks the most recently added rule. */
  datatype Settings = Settings(rules: seq<Rule>, newRuleId: Option<string>)

  /** The settings used when the store holds none: no rules, no new-rule mark. */
  const DefaultSettings := Settings([], None)

  /** The settings a handler starts from: the stored ones, or no rules. */
  function Loaded(stored: Option<Settings>): Settings {
    stored.GetOr(DefaultSettings)
  }

  /** `rules.filter(r => r.category === c)`. */
  function OfCategory(rules: seq<Rule>, c: Category): (r: seq<Rule>)
    ensures |r| <= |rules|
    ensures forall i :: 0 <= i < |r| ==> r[i].category == c
  {
    if rules == [] then []
    else
      (if rules[0].category == c then [rules[0]] else []) + OfCategory(rules[1..], c)
  }

  lemma AppendAssoc<T>(a: seq<T>, b: seq<T>, c: seq<T>)
    ensures a + (b + c) == (a + b) + c
  {
  }

  lemma {:induction false} OfCategoryAppend(a: seq<Rule>, b: seq<Rule>, c: Category)
    ensures OfCategory(a + b, c) == OfCategory(a, c) + OfCategory(b, c)
  {
    if a != [] {
      var x, t := a[0], a[1..];
      var head := if x.category == c then [x] else [];
      assert (a + b)[1..] == t + b;
      OfCategoryAppend(t, b, c);
      assert OfCategory(a + b, c) == head + OfCategory(t + b, c);
      assert OfCategory(a, c) == head + OfCategory(t, c);
      AppendAssoc(head, OfCategory(t, c), OfCategory(b, c));
    } else {
      assert a + b == b;
    }
  }

  /** A sequence whose rules all belong to `c` is its own category filter. */
  lemma {:induction false} OfCategoryAll(rules: seq<Rule>, c: Category)
    requires forall i :: 0 <= i < |rules| ==> rules[i].category == c
    ensures OfCategory(rules, c) == rules
  {
    if rules != [] {
      OfCategoryAll(rules[1..], c);
    }
  }

  /** A sequence with no rule of `c` filters to nothing. */
  lemma {:induction false} OfCategoryNone(rules: seq<Rule>, c: Category)
    requires forall i :: 0 <= i < |rules| ==> rules[i].category != c
    ensures OfCategory(rules, c) == []
  {
    if rules != [] {
      OfCategoryNone(rules[1..], c);
    }
  }

  /** The two category filters split the rules between them. */
  lemma {:induction false} OfCategoryPartition(rules: seq<Rule>)
    ensures multiset(OfCategory(rules, Site)) + multiset(OfCategory(rules, General)) == multiset(rules)
  {
    if rules != [] {
      var x, t := rules[0], rules[1..];
      OfCategoryPartition(t);
      assert multiset(rules) == multiset{x} + multiset(t) by {
        assert rules == [x] + t;
      }
      var site, general := OfCategory(t, Site), OfCategory(t, General);
      if x.category == Site {
        assert OfCategory(rules, Site) == [x] + site;
        assert OfCategory(rules, General) == general;
        assert multiset([x] + site) == multiset{x} + multiset(site);
      } else {
        assert OfCategory(rules, Site) == site;
        assert OfCategory(rules, General) == [x] + general;
        assert multiset([x] + general) == multiset{x} + multiset(general);
      }
    }
  }

  /** Every rule is in exactly one of the two category filters. */
  lemma {:induction false} OfCategoryLengths(rules: seq<Rule>, c: Category)
    ensures |OfCategory(rules, c)| + |OfCategory(rules, Other(c))| == |rules|
  {
    if rules != [] {
      OfCategoryLengths(rules[1..], c);
    }
  }

  /** `rules.filter(r => r.id !== id)`. */
  function WithoutId(rules: seq<Rule>, id: string): (r: seq<Rule>)
    ensures |r| <= |rules|
    ensures forall i :: 0 <= i < |r| ==> r[i].id != id
  {
    if rules == [] then []
    else
      (if rules[0].id != id then [rules[0]] else []) + WithoutId(rules[1..], id)
  }

  lemma OfCategoryCons(x: Rule, t: seq<Rule>, c: Category)
    ensures OfCategory([x] + t, c) == (if x.category == c then [x] else []) + OfCategory(t, c)
  {
    assert ([x] + t)[1..] == t;
  }

  lemma WithoutIdCons(x: Rule, t: seq<Rule>, id: string)
    ensures WithoutId([x] + t, id) == (if x.id != id then [x] else []) + WithoutId(t, id)
  {
    assert ([x] + t)[1..] == t;
  }

  /** Removing by id keeps the survivors of each category in order. */
  lemma {:induction false} WithoutIdOfCategory(rules: seq<Rule>, id: string, c: Category)
    ensures OfCategory(WithoutId(rules, id), c) == WithoutId(OfCategory(rules, c), id)
  {
    if rules != [] {
      var x, t := rules[0], rules[1..];
      assert rules == [x] + t;
      WithoutIdOfCategory(t, id, c);
      var wt := WithoutId(t, id);
      var ct := OfCategory(t, c);
      WithoutIdCons(x, t, id);
      OfCategoryCons(x, t, c);
      if x.id != id && x.category == c {
        OfCategoryCons(x, wt, c);
        WithoutIdCons(x, ct, id);
      } else if x.id != id {
        OfCategoryCons(x, wt, c);
        assert OfCategory(rules, c) == ct;
      } else if x.category == c {
        WithoutIdCons(x, ct, id);
        assert WithoutId(rules, id) == wt;
      } else {
        assert WithoutId(rules, id) == wt;
        assert OfCategory(rules, c) == ct;
      }
    }
  }

  /** `rules.findIndex(r => r.id === id)`, `None` for -1. */
  function FindIndex(rules: seq<Rule>, id: string): (r: Option<nat>)
    ensures r.Some? ==> r.value < |rules| && rules[r.value].id == id
    ensures r.Some? ==> forall j :: 0 <= j < r.value ==> rules[j].id != id
    ensures r.None? ==> forall j :: 0 <= j < |rules| ==> rules[j].id != id
  {
    if rules == [] then None
    else if rules[0].id == id then Some(0)
    else match FindIndex(rules[1..], id)
      case None => None
      case Some(k) => Some(k + 1)
  }

  /** Exactly the rules with another id survive removal. */
  lemma {:induction false} WithoutIdMembers(rules: seq<Rule>, id: string)
    ensures forall x :: x in WithoutId(rules, id) <==> x in rules && x.id != id
  {
    if rules != [] {
      WithoutIdMembers(rules[1..], id);
      assert rules == [rules[0]] + rules[1..];
      WithoutIdCons(rules[0], rules[1..], id);
    }
  }

  /** Removing an id nothing has changes nothing. */
  lemma {:induction false} WithoutIdAbsent(rules: seq<Rule>, id: string)
    requires forall i :: 0 <= i < |rules| ==> rules[i].id != id
    ensures WithoutId(rules, id) == rules
  {
    if rules != [] {
      WithoutIdAbsent(rules[1..], id);
      assert rules == [rules[0]] + rules[1..];
      WithoutIdCons(rules[0], rules[1..], id);
    }
  }

  /** Exactly the rules of the category survive the filter. */
  lemma {:induction false} OfCategoryMembers(rules: seq<Rule>, c: Category)
    ensures forall x :: x in OfCategory(rules, c) <==> x in rules && x.category == c
  {
    if rules != [] {
      OfCategoryMembers(rules[1..], c);
      assert rules == [rules[0]] + rules[1..];
      OfCategoryCons(rules[0], rules[1..], c);
    }
  }
}
