/** The rule editor form shared by both popups (src/popup/popup.ts and the
    older src/popup.ts): the two checks run before anything is stored, the
    rule built from the trimmed field values, and the outcome of a save. */
module RuleForm {
  import opened Wrappers
  import opened Text
  import opened Config
  import Router

  /** The form's raw values. `idField` is the hidden rule-id input: empty
      when adding, the edited rule's id when editing. */
  datatype Form = Form(
    idField: string,
    category: Category,
    condition: ConditionType,
    pattern: string,
    folder: string,
    sitePattern: string,
    overrideFilename: bool,
    rename: bool,
    renameFilename: string)

  /** Why a save was refused (the two alerts). */
  datatype FormError = EmptyPattern | MissingSitePattern

  /** What a save handler does: refuse the form, give up because the edited
      rule is gone, or store the settings. */
  datatype Outcome = Refused(error: FormError) | NotFound | Saved(settings: Settings)

  /** The checks in the order the handler makes them: a pattern is required,
      and a site rule needs a site pattern. Both look at trimmed values. */
  function Validate(f: Form): (r: Option<FormError>)
    ensures r.None? <==> Trim(f.pattern) != "" && (f.category == Site ==> Trim(f.sitePattern) != "")
    ensures r == Some(MissingSitePattern) ==> Trim(f.pattern) != ""
  {
    if Trim(f.pattern) == "" then Some(EmptyPattern)
    else if f.category == Site && Trim(f.sitePattern) == "" then Some(MissingSitePattern)
    else None
  }

  /** `!!idInput.value`. */
  predicate IsEdit(f: Form) {
    f.idField != ""
  }

  /** `idInput.value || Date.now().toString()`, with `now` the clock in
      milliseconds. A rule id is never empty. */
  function RuleId(f: Form, now: nat): (id: string)
    ensures id != ""
    ensures !IsEdit(f) ==> forall i :: 0 <= i < |id| ==> IsDigit(id[i])
  {
    if IsEdit(f) then f.idField else NatToString(now)
  }

  /** An added rule's id is the decimal spelling of the clock. */
  lemma NewRuleIdIsClock(f: Form, now: nat)
    requires !IsEdit(f)
    ensures DigitsValue(RuleId(f, now)) == now
  {
    NatToStringRoundTrip(now);
  }

  /** `checked || undefined`. */
  function Flag(checked: bool): (r: Option<bool>)
    ensures r.Some? <==> checked
    ensures r.Some? ==> r.value
  {
    if checked then Some(true) else None
  }

  /** The rule the handler builds from the form, with the priority the caller
      chooses (the older popup uses 0, the current one leaves it unset). */
  function BuildRule(f: Form, now: nat, priority: Option<nat>): (r: Rule)
    ensures r.id == RuleId(f, now) && r.category == f.category && r.condition == f.condition
    ensures r.priority == priority
    ensures r.sitePattern.Some? <==> f.category == Site
    ensures r.pattern == Trim(f.pattern) && r.folder == Trim(f.folder)
    ensures f.category == Site ==> r.sitePattern == Some(Trim(f.sitePattern))
    ensures r.rename == Flag(f.rename) && r.overrideFilename == Flag(f.overrideFilename)
    ensures r.renameFilename.Some? ==> r.rename == Some(true) && r.renameFilename.value != ""
    ensures f.rename && Trim(f.renameFilename) != "" ==> r.renameFilename == Some(Trim(f.renameFilename))
  {
    var renameFilename := Trim(f.renameFilename);
    Rule(
      id := RuleId(f, now),
      category := f.category,
      sitePattern := if f.category == Site then Some(Trim(f.sitePattern)) else None,
      condition := f.condition,
      pattern := Trim(f.pattern),
      folder := Trim(f.folder),
      overrideFilename := Flag(f.overrideFilename),
      rename := Flag(f.rename),
      renameFilename := if f.rename && renameFilename != "" then Some(renameFilename) else None,
      priority := priority)
  }

  /** The priority is the only field the caller chooses. */
  lemma BuildRulePriority(f: Form, now: nat, priority: Option<nat>)
    ensures BuildRule(f, now, None).(priority := priority) == BuildRule(f, now, priority)
  {
  }

  /** A rule that passed the checks has a non-empty pattern (so it cannot be
      the match-everything empty pattern) and is site-filtered exactly when it
      is a site rule. */
  lemma ValidRuleShape(f: Form, now: nat, priority: Option<nat>)
    requires Validate(f).None?
    ensures BuildRule(f, now, priority).pattern != ""
    ensures Router.HasSiteFilter(BuildRule(f, now, priority)) <==> f.category == Site
  {
  }

  /** The stored texts carry no surrounding whitespace: trimming them again
      changes nothing. */
  lemma BuiltRuleTrimmed(f: Form, now: nat, priority: Option<nat>)
    ensures var r := BuildRule(f, now, priority);
      && Trim(r.pattern) == r.pattern
      && Trim(r.folder) == r.folder
      && (r.sitePattern.Some? ==> Trim(r.sitePattern.value) == r.sitePattern.value)
      && (r.renameFilename.Some? ==> Trim(r.renameFilename.value) == r.renameFilename.value)
  {
    TrimIdempotent(f.pattern);
    TrimIdempotent(f.folder);
    TrimIdempotent(f.sitePattern);
    TrimIdempotent(f.renameFilename);
  }
}
