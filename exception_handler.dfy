/** GlobalExceptionHandler: turns every failure into an HTTP status and an
    ErrorVO body carrying the request path, a response code and a message. */
module ExceptionHandler {
  import opened Wrappers
  import opened Strings
  import opened Errors

  datatype ErrorVO = ErrorVO(path: string, code: string, message: string)
  datatype ErrorResponse = ErrorResponse(status: int, body: ErrorVO)

  const INTERNAL_MESSAGE := "서버 처리 실패"

  /** handleAuth: credential and refresh failures are 401, FORBIDDEN is 403,
      every other auth code is 400. */
  function AuthStatus(code: ResponseCode): (s: int)
    ensures s == 401 <==> code in {Unauthorized, AuthInvalidCredential, AuthInvalidRefreshToken, AuthReusedRefreshToken}
    ensures s == 403 <==> code == Forbidden
    ensures s in {400, 401, 403}
  {
    match code
    case Unauthorized | AuthInvalidCredential | AuthInvalidRefreshToken | AuthReusedRefreshToken => 401
    case Forbidden => 403
    case _ => 400
  }

  /** handleMember: MEMBER_NOT_FOUND is 404, every other member code is 400. */
  function MemberStatus(code: ResponseCode): (s: int)
    ensures s == 404 <==> code == MemberNotFound
    ensures s in {400, 404}
  {
    if code == MemberNotFound then 404 else 400
  }

  /** `field:message` of one rejected field; a missing message prints as "null". */
  function FieldText(e: FieldError): string {
    e.field + ":" + (if e.message.Some? then e.message.value else "null")
  }

  function FieldTexts(fields: seq<FieldError>): (texts: seq<string>)
    ensures |texts| == |fields|
    ensures forall i :: 0 <= i < |fields| ==> texts[i] == FieldText(fields[i])
  {
    if fields == [] then [] else [FieldText(fields[0])] + FieldTexts(fields[1..])
  }

  /** handleValidation: the rejected fields, in order, joined by ", ". */
  function ValidationMessage(fields: seq<FieldError>): string {
    Join(FieldTexts(fields), ", ")
  }

  /** The handler chosen for a failure and the response it builds. */
  function Handle(f: Failure, path: string): (r: ErrorResponse)
    ensures r.body.path == path
    ensures FromCode(r.body.code).Some?
    ensures r.status in {400, 401, 403, 404, 500}
    ensures f.AuthFailure? || f.MemberFailure? ==> r.body.code == f.code.Code() && r.body.message == f.code.Message()
    ensures r.status == 401 <==> f.AuthFailure? && AuthStatus(f.code) == 401
    ensures r.status == 403 <==> f.AuthFailure? && f.code == Forbidden
    ensures r.status == 404 <==> f.MemberFailure? && f.code == MemberNotFound
    ensures r.status == 500 <==> f.StoreFailure? || f.Unexpected?
    ensures r.status == 500 ==> r.body == ErrorVO(path, Fail.Code(), INTERNAL_MESSAGE)
    ensures f.ValidationFailure? ==> r.status == 400 && r.body.code == ValidationError.Code()
    ensures f.BadRequestFailure? ==> r.status == 400 && r.body.code == Fail.Code()
  {
    match f
    case AuthFailure(code) => ErrorResponse(AuthStatus(code), ErrorVO(path, code.Code(), code.Message()))
    case MemberFailure(code) => ErrorResponse(MemberStatus(code), ErrorVO(path, code.Code(), code.Message()))
    case ValidationFailure(fields) => ErrorResponse(400, ErrorVO(path, ValidationError.Code(), ValidationMessage(fields)))
    case BadRequestFailure(detail) =>
      ErrorResponse(400, ErrorVO(path, Fail.Code(), if detail.Some? then detail.value else "Bad request"))
    case StoreFailure => ErrorResponse(500, ErrorVO(path, Fail.Code(), INTERNAL_MESSAGE))
    case Unexpected => ErrorResponse(500, ErrorVO(path, Fail.Code(), INTERNAL_MESSAGE))
  }

  /** Every rejected field is reported: when no field text holds a comma,
      the message holds exactly one comma between each two fields. */
  lemma {:induction false} ValidationMessageListsFields(fields: seq<FieldError>)
    requires fields != []
    requires forall i :: 0 <= i < |fields| ==> Count(FieldText(fields[i]), ',') == 0
    ensures Count(ValidationMessage(fields), ',') == |fields| - 1
  {
    var texts := FieldTexts(fields);
    if |fields| > 1 {
      assert FieldTexts(fields[1..]) == texts[1..];
      ValidationMessageListsFields(fields[1..]);
      CountConcat(texts[0], ", ", ',');
      CountConcat(texts[0] + ", ", Join(texts[1..], ", "), ',');
    }
  }
}
