/** The view-set mixins: `finalize_response`, which puts every response into
  * the standard envelope, and the create / retrieve / update / destroy
  * actions over one table. What the serializer validates and how it renders
  * a row are inputs here. */
module ViewMixins {
  import opened Common
  import opened Responses

  /** What a view hands to `finalize_response`: one of the standard
    * responses, a DRF `Response` (data and status), or a response with no
    * `data` attribute at all. */
  datatype Outgoing = Standard(response: Response) | Drf(data: Json, status: int) | Bare(status: int)

  /** The HTTP status an outgoing response carries. */
  function StatusOf(o: Outgoing): int {
    match o
    case Standard(r) => Code(r)
    case Drf(_, s) => s
    case Bare(s) => s
  }

  /** The re-wrapping by status code: 201 is Created, 204 NoContent, any
    * code from 400 up BadRequest, everything else Success; default message
    * and key. */
  function Rewrap(data: Json, status: int): (r: Response)
    ensures status == 201 ==> r.kind == Created && r.data == data
    ensures status == 204 ==> r.kind == NoContent
    ensures status != 201 && status != 204 && status >= 400 ==> r.kind == BadRequest && r.data == data
    ensures status != 201 && status != 204 && status < 400 ==> r.kind == Success && r.data == data
    ensures IsSuccessKind(r.kind) <==> status < 400
    ensures r.message == DefaultMessage(r.kind) && r.key == DefaultKey(r.kind)
  {
    if status == 201 then Make(Created, data, None, None)
    else if status == 204 then Make(NoContent, data, None, None)
    else if status >= 400 then Make(BadRequest, data, None, None)
    else Make(Success, data, None, None)
  }

  /** `StandardResponseMixin.finalize_response` as written: only
    * `SuccessResponse` and `CreatedResponse` pass unchanged; every other
    * response with `data`, the standard error responses included (they
    * keep their `data` attribute), is re-wrapped by its status. */
  function FinalizeResponse(o: Outgoing): (r: Outgoing)
    ensures o.Bare? ==> r == o
    ensures o.Standard? && (o.response.kind == Success || o.response.kind == Created) ==> r == o
    ensures o.Drf? ==> r == Standard(Rewrap(o.data, o.status))
    ensures (o.Standard? && o.response.kind != Success && o.response.kind != Created) ==>
              r == Standard(Rewrap(o.response.data, Code(o.response)))
  {
    match o
    case Standard(resp) =>
      if resp.kind == Success || resp.kind == Created then o else Standard(Rewrap(resp.data, Code(resp)))
    case Drf(data, status) => Standard(Rewrap(data, status))
    case Bare(_) => o
  }

  /** Finalizing never turns a failure into a success or back. */
  lemma {:induction false} FinalizeKeepsOutcome(o: Outgoing)
    requires !o.Bare?
    ensures FinalizeResponse(o).Standard?
    ensures IsSuccessKind(FinalizeResponse(o).response.kind) <==> StatusOf(o) < 400
  {
  }

  /** Finalizing a finalized response changes nothing. */
  lemma {:induction false} FinalizeIdempotent(o: Outgoing)
    ensures FinalizeResponse(FinalizeResponse(o)) == FinalizeResponse(o)
  {
  }

  /** As written, a standard error response loses its class: the 404 that
    * `retrieve` builds for a missing row leaves as a 400 `bad_request`. */
  lemma {:induction false} ErrorResponsesCollapse(message: string)
    ensures var miss := Make(NotFound, JNull, Some(message), None);
            FinalizeResponse(Standard(miss)) == Standard(Make(BadRequest, JNull, None, None))
            && Code(FinalizeResponse(Standard(miss)).response) == 400
  {
  }

  /** The finalizer the mixin's comment describes: any standard response
    * passes unchanged, and only DRF responses are re-wrapped. */
  function FinalizeStandard(o: Outgoing): (r: Outgoing)
    ensures o.Standard? ==> r == o
    ensures !o.Standard? ==> r == FinalizeResponse(o)
  {
    match o
    case Standard(_) => o
    case Drf(data, status) => Standard(Rewrap(data, status))
    case Bare(_) => o
  }

  /** The corrected finalizer keeps every status code, so clients see the
    * code the response was built with. */
  lemma {:induction false} FinalizeStandardKeepsCode(o: Outgoing)
    requires !o.Drf?
    ensures StatusOf(FinalizeStandard(o)) == StatusOf(o)
  {
  }

  /** A row of the view's table; `delete()` is the soft delete. */
  datatype Record = Record(data: Json, deletedAt: Option<Time>)

  /** `get_object` raised `Http404`; the exception handler answers it. */
  datatype ViewError = ObjectNotFound

  /** One `StandardViewSetMixin` view over its table. */
  class ModelViewSet {
    var rows: seq<Record>

    constructor (rows0: seq<Record>)
      ensures rows == rows0
    {
      rows := rows0;
    }

    /** `get_object`: the row exists and is not soft-deleted. */
    predicate Found(id: int)
      reads this
    {
      0 <= id < |rows| && rows[id].deletedAt.None?
    }

    /** `create`: a serializer that fails validation saves nothing and its
      * errors come back as a validation error; otherwise one row is saved
      * and returned as Created. */
    method Create(validated: Result<Json, Json>) returns (r: Response)
      modifies this
      ensures validated.Err? ==> rows == old(rows) && r == Make(ValidationError, validated.error, Some("검증에 실패했습니다."), None)
      ensures validated.Ok? ==> rows == old(rows) + [Record(validated.value, None)]
                                && r == Make(Created, validated.value, Some("생성되었습니다."), None)
    {
      if validated.Err? {
        return Make(ValidationError, validated.error, Some("검증에 실패했습니다."), None);
      }
      rows := rows + [Record(validated.value, None)];
      r := Make(Created, validated.value, Some("생성되었습니다."), None);
    }

    /** `retrieve`: the row as a Success, and any exception (here the
      * missing row, whose text is `missText`) as a NotFound carrying that
      * text. */
    method Retrieve(id: int, missText: string) returns (r: Response)
      ensures Found(id) ==> r.kind == Success && r.data == rows[id].data
      ensures !Found(id) ==> r.kind == NotFound && r.data == JNull && r.message == missText
      ensures Code(r) == if Found(id) then 200 else 404
    {
      if 0 <= id < |rows| && rows[id].deletedAt.None? {
        r := Make(Success, rows[id].data, None, None);
      } else {
        r := Make(NotFound, JNull, Some(missText), None);
      }
    }

    /** `update` (`partial` false) and `partial_update` (`partial` true):
      * a missing row raises; a failed validation changes nothing; otherwise
      * the row's data is replaced and returned as Updated (code 201). */
    method Update(id: int, validated: Result<Json, Json>, partial: bool) returns (r: Result<Response, ViewError>)
      modifies this
      ensures !old(Found(id)) ==> r == Err(ObjectNotFound) && rows == old(rows)
      ensures old(Found(id)) && validated.Err? ==>
                rows == old(rows) && r.Ok? && r.value.kind == ValidationError && r.value.data == validated.error
      ensures old(Found(id)) && validated.Ok? ==>
                rows == old(rows)[id := Record(validated.value, None)]
                && r.Ok? && r.value.kind == Updated && r.value.data == validated.value && Code(r.value) == 201
    {
      if !(0 <= id < |rows| && rows[id].deletedAt.None?) {
        return Err(ObjectNotFound);
      }
      if validated.Err? {
        var text := if partial then "검증에 실패했습니다." else "Validation Failed!";
        return Ok(Make(ValidationError, validated.error, Some(text), None));
      }
      rows := rows[id := Record(validated.value, None)];
      var text := if partial then "수정되었습니다." else "Updated Successfully!";
      r := Ok(Make(Updated, validated.value, Some(text), None));
    }

    /** `destroy`: a missing row raises; otherwise it is soft-deleted at
      * `now` (it stays in the table) and the answer is NoContent. */
    method Destroy(id: int, now: Time) returns (r: Result<Response, ViewError>)
      modifies this
      ensures !old(Found(id)) ==> r == Err(ObjectNotFound) && rows == old(rows)
      ensures old(Found(id)) ==> rows == old(rows)[id := old(rows)[id].(deletedAt := Some(now))]
                                 && r == Ok(Make(NoContent, JNull, Some("삭제되었습니다."), None))
      ensures |rows| == |old(rows)| && !Found(id)
    {
      if !(0 <= id < |rows| && rows[id].deletedAt.None?) {
        return Err(ObjectNotFound);
      }
      rows := rows[id := rows[id].(deletedAt := Some(now))];
      r := Ok(Make(NoContent, JNull, Some("삭제되었습니다."), None));
    }
  }
}
