/** The sales serializer's `sales_type` check; its assignee and history
  * lists are in `AssigneeSerializers` and `HistoryLists`. */
module SalesSerializers {
  import opened Common
  import opened Validation

  /** `ProjectSales.SALES_TYPE_CHOICES`. */
  const SALES_TYPES: seq<string> := ["METHOD_REVIEW", "DESIGN_CHANGE", "TECHNICAL_PROPOSAL", "PRIVATE_INVESTMENT",
                                     "DETAILED_DESIGN", "TURNKEY", "DESIGN_APPLICATION"]

  /** `ProjectSalesModelSerializer.validate_sales_type`: an empty value is
    * accepted; any other must be a choice. */
  function ValidateSalesType(value: Option<string>): (r: Result<Option<string>, Rejection>)
    ensures r.Ok? <==> !TruthyStr(value) || value.value in SALES_TYPES
    ensures r.Ok? ==> r.value == value
    ensures r.Err? ==> r.error.field == "sales_type"
  {
    if TruthyStr(value) && value.value !in SALES_TYPES then Err(Rejection("sales_type")) else Ok(value)
  }
}
