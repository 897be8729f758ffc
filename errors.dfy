/** The response codes of the API and the failures the services raise. */
module Errors {
  import opened Wrappers

  /** ResponseCode: a wire code and a user-facing message per constant. */
  datatype ResponseCode =
    | Success | Fail | ValidationError | Unauthorized | Forbidden
    | AuthCodeExpired | AuthCodeMismatch | AuthInvalidCredential
    | AuthEmailAlreadyExists | AuthUnauthorized | AuthEmailSendFailed
    | AuthInvalidRefreshToken | AuthReusedRefreshToken
    | TermsNotFound | MemberNotFound
  {
    /** The wire code; it identifies the constant. */
    function Code(): (c: string)
      ensures c != [] && FromCode(c) == Some(this)
    {
      match this
      case Success => "SUCCESS"
      case Fail => "FAIL"
      case ValidationError => "VALIDATION_ERROR"
      case Unauthorized => "UNAUTHORIZED"
      case Forbidden => "FORBIDDEN"
      case AuthCodeExpired => "A001"
      case AuthCodeMismatch => "A002"
      case AuthInvalidCredential => "A003"
      case AuthEmailAlreadyExists => "A004"
      case AuthUnauthorized => "A005"
      case AuthEmailSendFailed => "A006"
      case AuthInvalidRefreshToken => "A007"
      case AuthReusedRefreshToken => "A008"
      case TermsNotFound => "T001"
      case MemberNotFound => "M001"
    }

    function Message(): string {
      match this
      case Success => "정상 처리되었습니다."
      case Fail => "서버 처리 실패"
      case ValidationError => "입력값이 잘못되었습니다."
      case Unauthorized => "인증이 필요합니다."
      case Forbidden => "접근 권한이 없습니다."
      case AuthCodeExpired => "인증 코드가 만료되었습니다."
      case AuthCodeMismatch => "인증 코드가 일치하지 않습니다."
      case AuthInvalidCredential => "이메일 또는 비밀번호가 일치하지 않습니다."
      case AuthEmailAlreadyExists => "이미 존재하는 이메일입니다."
      case AuthUnauthorized => "인증되지 않은 사용자입니다."
      case AuthEmailSendFailed => "이메일 전송에 실패했습니다."
      case AuthInvalidRefreshToken => "유효하지 않은 리프레시 토큰입니다."
      case AuthReusedRefreshToken => "이미 사용된 리프레시 토큰입니다."
      case TermsNotFound => "약관의 최신 버전을 찾을 수 없습니다."
      case MemberNotFound => "존재하지 않는 회원입니다."
    }
  }

  /** The constant a wire code names, if any. */
  function FromCode(c: string): Option<ResponseCode> {
    match c
    case "SUCCESS" => Some(Success)
    case "FAIL" => Some(Fail)
    case "VALIDATION_ERROR" => Some(ValidationError)
    case "UNAUTHORIZED" => Some(Unauthorized)
    case "FORBIDDEN" => Some(Forbidden)
    case "A001" => Some(AuthCodeExpired)
    case "A002" => Some(AuthCodeMismatch)
    case "A003" => Some(AuthInvalidCredential)
    case "A004" => Some(AuthEmailAlreadyExists)
    case "A005" => Some(AuthUnauthorized)
    case "A006" => Some(AuthEmailSendFailed)
    case "A007" => Some(AuthInvalidRefreshToken)
    case "A008" => Some(AuthReusedRefreshToken)
    case "T001" => Some(TermsNotFound)
    case "M001" => Some(MemberNotFound)
    case _ => None
  }

  /** No two constants share a wire code. */
  lemma CodesDistinct(a: ResponseCode, b: ResponseCode)
    requires a.Code() == b.Code()
    ensures a == b
  {
    assert Some(a) == FromCode(a.Code()) == FromCode(b.Code()) == Some(b);
  }

  /** A rejected field of a request body: its name and its constraint's
      message, which Spring leaves null when the constraint has none. */
  datatype FieldError = FieldError(field: string, message: Option<string>)

  /** What a service call can throw, grouped by the handler that catches it. */
  datatype Failure =
    | AuthFailure(code: ResponseCode)            // AuthException
    | MemberFailure(code: ResponseCode)          // MemberException
    | ValidationFailure(fields: seq<FieldError>) // bean validation of a request body
    | BadRequestFailure(detail: Option<string>)  // missing cookie, unreadable body, type mismatch
    | StoreFailure                               // Redis unreachable or refusing a write
    | Unexpected                                 // anything else: null dereference, illegal state, mail or database errors
}
