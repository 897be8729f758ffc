/** The login request (ReqLoginDTO): an e-mail and a password, under the
    same password rule as signup. */
module LoginRequest {
  import opened Wrappers
  import opened Errors
  import opened SignupRequest

  datatype LoginForm = LoginForm(email: string, password: string)

  /** Every constraint of the form holds; `isEmail` is the @Email check. */
  predicate ValidLogin(f: LoginForm, isEmail: string -> bool) {
    isEmail(f.email) && NotBlank(f.email) && NotBlank(f.password) && ValidPassword(f.password)
  }

  /** The field errors bean validation reports for the form. */
  function LoginViolations(f: LoginForm, isEmail: string -> bool): (errors: seq<FieldError>)
    ensures errors == [] <==> ValidLogin(f, isEmail)
    ensures forall i :: 0 <= i < |errors| ==> errors[i].field in {"email", "password"}
  {
    (if isEmail(f.email) then [] else [FieldError("email", Some("올바른 이메일 형식을 입력하세요."))])
    + (if NotBlank(f.email) then [] else [FieldError("email", Some("이메일은 필수 값입니다."))])
    + (if NotBlank(f.password) then [] else [FieldError("password", Some("비밀번호를 입력하세요."))])
    + (if ValidPassword(f.password) then []
       else [FieldError("password", Some("비밀번호는 특수문자 1개, 대문자 1개, 소문자 1개, 숫자를 포함해 8자 이상이어야 합니다."))])
  }

  /** Whoever passed signup validation passes login validation with the
      same e-mail and password: the two rules agree. */
  lemma SignupCredentialsPassLogin(m: MemberForm, isEmail: string -> bool)
    requires ValidMember(m, isEmail)
    ensures ValidLogin(LoginForm(m.email, m.password), isEmail)
    ensures LoginViolations(LoginForm(m.email, m.password), isEmail) == []
  {
  }

  /** A password shorter than eight characters is refused whatever it
      contains. */
  lemma ShortPasswordRefused(f: LoginForm, isEmail: string -> bool)
    requires |f.password| < 8
    ensures !ValidLogin(f, isEmail)
    ensures exists i :: 0 <= i < |LoginViolations(f, isEmail)| && LoginViolations(f, isEmail)[i].field == "password"
  {
    var errors := LoginViolations(f, isEmail);
    assert errors[|errors| - 1].field == "password";
  }
}
