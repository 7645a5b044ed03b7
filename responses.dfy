/** The JSON response classes: every response carries the envelope
  * `{success, key, code, message, data}`, its HTTP status is its `code`,
  * and each class fixes the code and a default key and message. */
module Responses {
  import opened Common

  /** The response classes of the success and error modules. */
  datatype Kind =
    | Success | Created | Updated | NoContent
    | BadRequest | Conflict | Unauthorized | PermissionDenied | NotFound | ValidationError | ServerError

  /** The four success classes. */
  predicate IsSuccessKind(k: Kind) {
    k == Success || k == Created || k == Updated || k == NoContent
  }

  /** The code each class passes to `BaseJsonResponse`. */
  function StatusCode(k: Kind): (c: int)
    ensures IsSuccessKind(k) <==> c < 400
    ensures IsSuccessKind(k) ==> 200 <= c < 300
    ensures !IsSuccessKind(k) ==> 400 <= c < 600
  {
    match k
    case Success => 200
    case Created => 201
    case Updated => 201
    case NoContent => 204
    case BadRequest => 400
    case ValidationError => 400
    case Unauthorized => 401
    case PermissionDenied => 403
    case NotFound => 404
    case Conflict => 409
    case ServerError => 500
  }

  /** Each class's default `key`. */
  function DefaultKey(k: Kind): string {
    match k
    case Success => "success"
    case Created => "created"
    case Updated => "updated"
    case NoContent => "deleted"
    case BadRequest => "bad_request"
    case ValidationError => "validation_error"
    case Unauthorized => "unauthorized"
    case PermissionDenied => "permission_denied"
    case NotFound => "not_found"
    case Conflict => "conflict"
    case ServerError => "server_error"
  }

  /** Each class's default `message`. */
  function DefaultMessage(k: Kind): string {
    match k
    case Success => "조회에 성공했습니다."
    case Created => "데이터가 생성되었습니다."
    case Updated => "데이터가 변경되었습니다."
    case NoContent => "데이터가 삭제되었습니다."
    case BadRequest => "잘못된 요청입니다."
    case ValidationError => "데이터 검증에 실패했습니다."
    case Unauthorized => "접근 권한이 없습니다."
    case PermissionDenied => "접근이 제한되었습니다."
    case NotFound => "해당 데이터를 찾을 수 없습니다."
    case Conflict => "Conflict!"
    case ServerError => "서버 내부에서 오류가 발생했습니다."
  }

  /** A response object: its class and the three values it was built with. */
  datatype Response = Response(kind: Kind, data: Json, message: string, key: string)

  /** Constructing class `kind` with an optional message and key; a
    * `NoContentResponse` never carries data. */
  function Make(kind: Kind, data: Json, message: Option<string>, key: Option<string>): Response {
    Response(kind,
             if kind == NoContent then JNull else data,
             if message.Some? then message.value else DefaultMessage(kind),
             if key.Some? then key.value else DefaultKey(kind))
  }

  /** The response's `code`, which is also its HTTP status. */
  function Code(r: Response): int {
    StatusCode(r.kind)
  }

  /** `BaseJsonResponse.prepare_data`: exactly the five keys; `success` says
    * whether the code is below 400; the other values are echoed. */
  function PrepareData(r: Response): (j: Json)
    ensures j.JObj? && j.fields.Keys == {"success", "key", "code", "message", "data"}
    ensures j.fields["success"] == JBool(Code(r) < 400)
    ensures j.fields["code"] == JInt(Code(r))
    ensures j.fields["key"] == JStr(r.key) && j.fields["message"] == JStr(r.message) && j.fields["data"] == r.data
  {
    JObj(map["success" := JBool(Code(r) < 400), "key" := JStr(r.key), "code" := JInt(Code(r)),
             "message" := JStr(r.message), "data" := r.data])
  }

  /** The body's `success` flag is true for the four success classes and
    * false for every error class. */
  lemma {:induction false} SuccessFlagByClass(kind: Kind, data: Json, message: Option<string>, key: Option<string>)
    ensures PrepareData(Make(kind, data, message, key)).fields["success"] == JBool(IsSuccessKind(kind))
  {
  }

  /** Classes that share a code and are told apart only by their key:
    * `UpdatedResponse` answers 201 like `CreatedResponse`, and
    * `ValidationErrorResponse` 400 like `BadRequestResponse`. */
  lemma {:induction false} SharedCodes()
    ensures StatusCode(Updated) == StatusCode(Created) == 201 && DefaultKey(Updated) != DefaultKey(Created)
    ensures StatusCode(ValidationError) == StatusCode(BadRequest) == 400
            && DefaultKey(ValidationError) != DefaultKey(BadRequest)
  {
  }

  /** Apart from those two pairs, the code identifies the class. */
  lemma {:induction false} CodeIdentifiesClass(a: Kind, b: Kind)
    requires StatusCode(a) == StatusCode(b) && a != b
    ensures (a == Updated && b == Created) || (a == Created && b == Updated)
            || (a == ValidationError && b == BadRequest) || (a == BadRequest && b == ValidationError)
  {
  }
}
