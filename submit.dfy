/**
 * The checks `onSubmit` runs before it builds the request: the field validation of the
 * form, then the installation dates, the plan and the time window, the first failure
 * stopping the submission with its message.
 */
module Submit {
  import opened Wrappers
  import opened TimeWindow

  /** The submitted values the checks read. An unchosen plan is the empty string. */
  datatype Values = Values(plan: string, timeFrom: string, timeTo: string)

  /**
   * How the checks end: the field validation failed, a check stopped the submission
   * (with the field scrolled to and the message shown), or the request goes out.
   */
  datatype Outcome = FieldsInvalid | Blocked(field: string, message: string) | Proceed

  const DatesField: string := "installationDates"
  const PlanField: string := "plan"
  const TimeField: string := "timeFrom"
  const DatesMessage: string := "Debes seleccionar al menos una fecha de instalación"
  const PlanMessage: string := "Debes seleccionar un plan de internet"

  /**
   * `onSubmit` up to the request: `allValid` is the answer of the form's validation of
   * every field, `selectedDates` the chosen installation dates.
   */
  function SubmitChecks(allValid: bool, selectedDates: seq<string>, v: Values): (r: Outcome)
    ensures r == Proceed <==>
              allValid && selectedDates != [] && v.plan != "" && ValidateTimeRange(v.timeFrom, v.timeTo) == Valid
    ensures r.FieldsInvalid? <==> !allValid
    ensures r.Blocked? ==>
              r == Blocked(DatesField, DatesMessage) || r == Blocked(PlanField, PlanMessage)
              || r == Blocked(TimeField, RangeMessage)
  {
    if !allValid then FieldsInvalid
    else if |selectedDates| == 0 then Blocked(DatesField, DatesMessage)
    else if v.plan == "" then Blocked(PlanField, PlanMessage)
    else
      match ValidateTimeRange(v.timeFrom, v.timeTo)
      case Invalid(msg) => Blocked(TimeField, msg)
      case Valid => Proceed
  }

  /** The checks run in a fixed order and the first that fails decides the outcome. */
  lemma FirstFailureWins(allValid: bool, selectedDates: seq<string>, v: Values)
    ensures allValid && selectedDates == [] ==> SubmitChecks(allValid, selectedDates, v) == Blocked(DatesField, DatesMessage)
    ensures allValid && selectedDates != [] && v.plan == "" ==>
              SubmitChecks(allValid, selectedDates, v) == Blocked(PlanField, PlanMessage)
    ensures allValid && selectedDates != [] && v.plan != "" && ValidateTimeRange(v.timeFrom, v.timeTo).Invalid? ==>
              SubmitChecks(allValid, selectedDates, v) == Blocked(TimeField, RangeMessage)
  {
  }

  /**
   * The rules the form declares on these fields: the plan and both times are required,
   * and each time field is validated against the other with the time-window check.
   */
  predicate FieldRulesPass(v: Values)
  {
    v.plan != "" && v.timeFrom != "" && v.timeTo != "" && ValidateTimeRange(v.timeFrom, v.timeTo) == Valid
  }

  /**
   * When the field validation covers the declared rules, the plan and time-window checks
   * of `onSubmit` never fire: only the installation dates, kept outside the form's
   * fields, can stop a validated submission.
   */
  lemma OnlyDatesBlockValidForm(allValid: bool, selectedDates: seq<string>, v: Values)
    requires allValid ==> FieldRulesPass(v)
    ensures SubmitChecks(allValid, selectedDates, v).Blocked? ==>
              SubmitChecks(allValid, selectedDates, v) == Blocked(DatesField, DatesMessage)
    ensures allValid && selectedDates != [] ==> SubmitChecks(allValid, selectedDates, v) == Proceed
  {
  }

  /** An end time picked from the offered options never stops the submission. */
  lemma OfferedEndTimePasses(allValid: bool, selectedDates: seq<string>, plan: string, from: string, to: string)
    requires to in FilteredTimeToOptions(from)
    ensures SubmitChecks(allValid, selectedDates, Values(plan, from, to)) != Blocked(TimeField, RangeMessage)
  {
  }

  /** Nor does an end time that went through the clearing effect of a change of the start time. */
  lemma ClearedEndTimePasses(allValid: bool, selectedDates: seq<string>, plan: string, from: string, to: string)
    ensures SubmitChecks(allValid, selectedDates, Values(plan, from, ClearedTimeTo(from, to))) != Blocked(TimeField, RangeMessage)
  {
    ClearedIsValid(from, to);
  }
}
