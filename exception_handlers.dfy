/** The two exception-to-response dispatchers: the project's exception
  * handler for every view, and `exception_to_response` for the project's
  * own exceptions. */
module ExceptionHandlers {
  import opened Common
  import opened Responses

  /** The subclasses of the project's base exception that the dispatch
    * tells apart; `OtherCustom` is any other one. */
  datatype CustomClass =
    | EntityNotFound | ValidationExc | PermissionDeniedExc | DeleteRestricted | DeleteProtected | OtherCustom

  /** A raised exception: one of the project's own, with its class,
    * `status_code`, `key`, `errors`, `detail` when it has one, `message`,
    * and its `str()`; or any other exception, with its `str()` and `args`. */
  datatype Exc =
    | Custom(cls: CustomClass, statusCode: int, key: string, errors: Option<Json>,
             detail: Option<string>, message: string, text: string)
    | Foreign(isApiException: bool, text: string, args: Json)

  /** The `Response` DRF's own handler produced (its data, status and the
    * `str()` of its data); DRF gives none for exceptions it does not know. */
  datatype DrfResponse = DrfResponse(data: Json, status: int, text: string)

  /** Python truthiness of a JSON value. */
  predicate TruthyJson(j: Json) {
    match j
    case JNull => false
    case JBool(b) => b
    case JInt(i) => i != 0
    case JStr(s) => s != ""
    case JList(items) => items != []
    case JObj(fields) => fields != map[]
  }

  /** The class a custom exception's status selects in the handler. */
  function CustomKind(statusCode: int): (k: Kind)
    ensures statusCode == 404 <==> k == NotFound
    ensures statusCode == 403 <==> k == PermissionDenied
    ensures statusCode == 409 <==> k == Conflict
    ensures statusCode == 400 <==> k == BadRequest
    ensures statusCode !in {400, 403, 404, 409} <==> k == ServerError
  {
    if statusCode == 404 then NotFound
    else if statusCode == 403 then PermissionDenied
    else if statusCode == 409 then Conflict
    else if statusCode == 400 then BadRequest
    else ServerError
  }

  /** The class DRF's status selects in the handler. */
  function DrfKind(status: int): (k: Kind)
    ensures status == 400 <==> k == ValidationError
    ensures status == 401 <==> k == Unauthorized
    ensures status == 403 <==> k == PermissionDenied
    ensures status == 404 <==> k == NotFound
    ensures status !in {400, 401, 403, 404} <==> k == BadRequest
  {
    if status == 400 then ValidationError
    else if status == 401 then Unauthorized
    else if status == 403 then PermissionDenied
    else if status == 404 then NotFound
    else BadRequest
  }

  /** `custom_exception_handler`: the project's exceptions by status code
    * (anything but 400, 403, 404 and 409 is a server error) with their
    * key and `errors`, or `{"detail": ...}` when `errors` is `None`;
    * otherwise DRF's response by its status; otherwise, for a non-API
    * exception, a 500 `internal_server_error`; otherwise nothing. */
  function CustomExceptionHandler(exc: Exc, drf: Option<DrfResponse>): (r: Option<Response>)
    ensures exc.Custom? ==> r.Some? && r.value.kind == CustomKind(exc.statusCode) && r.value.key == exc.key
                            && r.value.data == (if exc.errors.Some? then exc.errors.value
                                                else JObj(map["detail" := JStr(if exc.detail.Some? then exc.detail.value else exc.text)]))
                            && r.value.message == (if exc.detail.Some? then exc.detail.value else exc.key)
    ensures exc.Foreign? && drf.Some? ==> r.Some? && r.value.kind == DrfKind(drf.value.status) && r.value.data == drf.value.data
    ensures exc.Foreign? && drf.None? && !exc.isApiException ==>
              r == Some(Make(ServerError, JObj(map["error" := JStr(exc.text), "args" := exc.args]),
                             Some("서버 내부에서 오류가 발생했습니다."), Some("internal_server_error")))
    ensures r.None? <==> exc.Foreign? && drf.None? && exc.isApiException
    ensures r.Some? ==> Code(r.value) >= 400
  {
    match exc
    case Custom(_, status, key, errors, detail, _, text) =>
      var data := if errors.Some? then errors.value
                  else JObj(map["detail" := JStr(if detail.Some? then detail.value else text)]);
      Some(Make(CustomKind(status), data, Some(if detail.Some? then detail.value else key), Some(key)))
    case Foreign(isApi, text, args) =>
      if drf.Some? then
        var d := drf.value;
        var kind := DrfKind(d.status);
        var message :=
          match kind
          case ValidationError => "데이터 검증 시 오류가 발생했습니다."
          case Unauthorized => "접근 권한이 필요합니다."
          case PermissionDenied => "접근 권한이 없습니다."
          case NotFound => "해당 데이터를 찾을 수 없습니다."
          case _ => if TruthyJson(d.data) then d.text else "잘못된 요청입니다.";
        Some(Make(kind, d.data, Some(message), None))
      else if !isApi then
        Some(Make(ServerError, JObj(map["error" := JStr(text), "args" := args]),
                  Some("서버 내부에서 오류가 발생했습니다."), Some("internal_server_error")))
      else None
  }

  /** A project exception carrying 401 is answered as a server error, not
    * as Unauthorized. */
  lemma {:induction false} CustomUnauthorizedIsServerError(exc: Exc, drf: Option<DrfResponse>)
    requires exc.Custom? && exc.statusCode == 401
    ensures CustomExceptionHandler(exc, drf).value.kind == ServerError
    ensures Code(CustomExceptionHandler(exc, drf).value) == 500
  {
  }

  /** `exception_to_response`: the class decides first; only an exception
    * of no listed class goes by its status code (404, 403, 409, else
    * BadRequest). The data is `errors` as it is (`None` included). */
  function ExceptionToResponse(exc: Exc): (r: Response)
    requires exc.Custom?
    ensures exc.cls == EntityNotFound ==> r.kind == NotFound
    ensures exc.cls == ValidationExc ==> r.kind == ValidationError
    ensures exc.cls == PermissionDeniedExc ==> r.kind == PermissionDenied
    ensures exc.cls == DeleteRestricted || exc.cls == DeleteProtected ==> r.kind == Conflict
    ensures exc.cls == OtherCustom ==>
              r.kind == (if exc.statusCode == 404 then NotFound
                         else if exc.statusCode == 403 then PermissionDenied
                         else if exc.statusCode == 409 then Conflict
                         else BadRequest)
    ensures r.key == exc.key && r.data == (if exc.errors.Some? then exc.errors.value else JNull)
    ensures exc.detail.Some? ==> r.message == exc.detail.value
    ensures exc.detail.None? ==> r.message == (if exc.cls == OtherCustom then exc.message else exc.key)
    ensures !IsSuccessKind(r.kind)
  {
    var data := if exc.errors.Some? then exc.errors.value else JNull;
    var byClass := if exc.detail.Some? then exc.detail.value else exc.key;
    var byStatus := if exc.detail.Some? then exc.detail.value else exc.message;
    match exc.cls
    case EntityNotFound => Make(NotFound, data, Some(byClass), Some(exc.key))
    case ValidationExc => Make(ValidationError, data, Some(byClass), Some(exc.key))
    case PermissionDeniedExc => Make(PermissionDenied, data, Some(byClass), Some(exc.key))
    case DeleteRestricted => Make(Conflict, data, Some(byClass), Some(exc.key))
    case DeleteProtected => Make(Conflict, data, Some(byClass), Some(exc.key))
    case OtherCustom =>
      var kind := if exc.statusCode == 404 then NotFound
                  else if exc.statusCode == 403 then PermissionDenied
                  else if exc.statusCode == 409 then Conflict
                  else BadRequest;
      Make(kind, data, Some(byStatus), Some(exc.key))
  }

  /** The class wins over the status: a not-found exception that carries
    * 400 is still answered 404. */
  lemma {:induction false} ClassBeforeStatus(key: string, message: string, text: string)
    ensures ExceptionToResponse(Custom(EntityNotFound, 400, key, None, None, message, text)).kind == NotFound
  {
  }

  /** For an exception of no listed class the two dispatchers agree on 404,
    * 403, 409 and 400, and differ elsewhere: the handler answers 500, the
    * converter 400. */
  lemma {:induction false} DispatchersAgree(exc: Exc, drf: Option<DrfResponse>)
    requires exc.Custom? && exc.cls == OtherCustom
    ensures exc.statusCode in {400, 403, 404, 409} ==>
              ExceptionToResponse(exc).kind == CustomExceptionHandler(exc, drf).value.kind
    ensures exc.statusCode !in {400, 403, 404, 409} ==>
              ExceptionToResponse(exc).kind == BadRequest && CustomExceptionHandler(exc, drf).value.kind == ServerError
  {
  }
}
