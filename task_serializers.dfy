/** The task serializer's validators: the three choice lists, the date
  * order, and the category a DESIGN-phase task must have. */
module TaskSerializers {
  import opened Common
  import opened Validation

  /** `Task.STATUS_CHOICES`, `Task.PRIORITY_CHOICES`, `Task.PHASE_CHOICES`. */
  const STATUSES: seq<string> := ["TODO", "DOING", "DONE"]
  const PRIORITIES: seq<string> := ["LOW", "MEDIUM", "HIGH"]
  const PHASES: seq<string> := ["SALES", "DESIGN", "CONTRACT", "CONSTRUCTION"]

  function ValidateStatus(value: string): (r: Result<string, Rejection>)
    ensures r.Ok? <==> value == "TODO" || value == "DOING" || value == "DONE"
  {
    ValidateChoice("status", value, STATUSES)
  }

  function ValidatePriority(value: string): (r: Result<string, Rejection>)
    ensures r.Ok? <==> value == "LOW" || value == "MEDIUM" || value == "HIGH"
  {
    ValidateChoice("priority", value, PRIORITIES)
  }

  function ValidatePhase(value: string): (r: Result<string, Rejection>)
    ensures r.Ok? <==> value == "SALES" || value == "DESIGN" || value == "CONTRACT" || value == "CONSTRUCTION"
  {
    ValidateChoice("phase", value, PHASES)
  }

  /** The stored fields of the task being updated. */
  datatype TaskFields = TaskFields(start: Option<int>, end: Option<int>, phase: string, category: Option<string>)

  /** `TaskModelSerializer.validate`: each field from the input or the
    * stored task; first the date order, then a DESIGN phase needs a
    * category that is not blank. */
  function ValidateTask(start: Option<int>, end: Option<int>, phase: Option<string>, category: Option<string>,
                        stored: Option<TaskFields>): (r: Option<Rejection>)
    ensures var s := OrRef(start, if stored.Some? then stored.value.start else None);
            var e := OrRef(end, if stored.Some? then stored.value.end else None);
            var p := OrStr(phase, if stored.Some? then Some(stored.value.phase) else None);
            var c := OrStr(category, if stored.Some? then stored.value.category else None);
            (s.Some? && e.Some? && s.value > e.value ==> r == Some(Rejection("end_date")))
            && (!(s.Some? && e.Some? && s.value > e.value) ==>
                  (r == Some(Rejection("category")) <==> p == Some("DESIGN") && (c.None? || IsBlank(c.value)))
                  && (r.None? <==> !(p == Some("DESIGN") && (c.None? || IsBlank(c.value)))))
  {
    var s := OrRef(start, if stored.Some? then stored.value.start else None);
    var e := OrRef(end, if stored.Some? then stored.value.end else None);
    var order := ValidateDateOrder(s, e);
    if order.Some? then order
    else
      var p := OrStr(phase, if stored.Some? then Some(stored.value.phase) else None);
      var c := OrStr(category, if stored.Some? then stored.value.category else None);
      if p == Some("DESIGN") && (c.None? || IsBlank(c.value)) then Some(Rejection("category")) else None
  }

  /** A phase other than DESIGN never needs a category. */
  lemma {:induction false} OtherPhasesNeedNoCategory(phase: string, start: Option<int>, end: Option<int>)
    requires phase != "DESIGN" && phase != ""
    ensures !(start.Some? && end.Some? && start.value > end.value) ==>
              ValidateTask(start, end, Some(phase), None, None).None?
  {
  }
}
