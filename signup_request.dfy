/** The member part of a signup request (ReqSignupMemberDTO): the bean
    validation constraints on its fields, and the member row it becomes. */
module SignupRequest {
  import opened Wrappers
  import opened Strings
  import opened Errors
  import opened MemberEntities

  /** The request as received: every field is text. */
  datatype MemberForm = MemberForm(
    email: string,
    emailVerified: string,
    name: string,
    nickname: string,
    birthDate: string,
    gender: string,
    password: string)

  // ---------------------------------------------------------------------
  // constraints

  /** @NotBlank: something is left after Java's `String.trim()`, which
      strips every character up to U+0020. */
  predicate NotBlank(s: string) {
    exists i :: 0 <= i < |s| && s[i] > ' '
  }

  /** `^Y$`: exactly "Y". */
  predicate ValidEmailVerified(s: string) {
    s == "Y"
  }

  /** A precomposed Hangul syllable, 가 to 힣. */
  predicate IsHangulSyllable(c: char) {
    '\U{AC00}' <= c <= '\U{D7A3}'
  }

  /** `^[가-힣]{2,10}$` */
  predicate ValidName(s: string) {
    2 <= |s| <= 10 && forall i :: 0 <= i < |s| ==> IsHangulSyllable(s[i])
  }

  /** `^[가-힣a-zA-Z0-9]{2,12}$` */
  predicate ValidNickname(s: string) {
    2 <= |s| <= 12
    && forall i :: 0 <= i < |s| ==> IsHangulSyllable(s[i]) || IsAsciiLetter(s[i]) || IsAsciiDigit(s[i])
  }

  /** The characters `.` does not match: Java's line terminators. */
  predicate IsLineTerminator(c: char) {
    c == '\n' || c == '\r' || c == '\U{85}' || c == '\U{2028}' || c == '\U{2029}'
  }

  /** The special characters the password rule asks for one of. */
  const PASSWORD_SPECIALS := "!@#$%^&*(),.?\":{}|<>"

  /** `^(?=.*[A-Za-z])(?=.*\d)(?=.*[specials]).{8,}$`: at least eight
      characters on one line, with an ASCII letter, an ASCII digit and a
      special character somewhere. Letter case is not constrained. */
  predicate ValidPassword(s: string) {
    |s| >= 8
    && (forall i :: 0 <= i < |s| ==> !IsLineTerminator(s[i]))
    && (exists i :: 0 <= i < |s| && IsAsciiLetter(s[i]))
    && (exists i :: 0 <= i < |s| && IsAsciiDigit(s[i]))
    && (exists i :: 0 <= i < |s| && s[i] in PASSWORD_SPECIALS)
  }

  /** Every constraint of the form holds; `isEmail` is the @Email check. */
  predicate ValidMember(m: MemberForm, isEmail: string -> bool) {
    isEmail(m.email) && NotBlank(m.email)
    && NotBlank(m.emailVerified) && ValidEmailVerified(m.emailVerified)
    && NotBlank(m.name) && ValidName(m.name)
    && NotBlank(m.nickname) && ValidNickname(m.nickname)
    && NotBlank(m.birthDate) && IsoDateShape(m.birthDate)
    && NotBlank(m.gender)
    && NotBlank(m.password) && ValidPassword(m.password)
  }

  /** One field error when a constraint fails, none when it holds. */
  function Check(ok: bool, field: string, message: string): (errors: seq<FieldError>)
    ensures errors == [] <==> ok
  {
    if ok then [] else [FieldError("member." + field, Some(message))]
  }

  /** The field errors bean validation reports for the form, each under the
      wrapper's `member.` path with its constraint's message. */
  function MemberViolations(m: MemberForm, isEmail: string -> bool): (errors: seq<FieldError>)
    ensures errors == [] <==> ValidMember(m, isEmail)
    ensures |errors| <= 13
  {
    Check(isEmail(m.email), "email", "올바른 이메일 형식을 입력하세요.")
    + Check(NotBlank(m.email), "email", "이메일은 필수 값입니다.")
    + Check(NotBlank(m.emailVerified), "emailVerified", "이메일 인증 여부는 필수 값입니다.")
    + Check(ValidEmailVerified(m.emailVerified), "emailVerified", "이메일 인증이 완료되지 않았습니다.")
    + Check(NotBlank(m.name), "name", "이름을 입력하세요.")
    + Check(ValidName(m.name), "name", "이름은 2~10자의 한글만 입력 가능합니다.")
    + Check(NotBlank(m.nickname), "nickname", "별명을 입력하세요.")
    + Check(ValidNickname(m.nickname), "nickname", "별명은 2~12자의 한글, 영어, 숫자만 입력 가능합니다.")
    + Check(NotBlank(m.birthDate), "birthDate", "생년월일은 필수 값입니다.")
    + Check(IsoDateShape(m.birthDate), "birthDate", "생년월일은 YYYY-MM-DD 형식이어야 합니다.")
    + Check(NotBlank(m.gender), "gender", "성별을 선택하세요.")
    + Check(NotBlank(m.password), "password", "비밀번호를 입력하세요.")
    + Check(ValidPassword(m.password), "password",
            "비밀번호는 특수문자 1개, 대문자 1개, 소문자 1개, 숫자를 포함해 8자 이상이어야 합니다.")
  }

  /** Each pattern rejects blank text, so a blank field other than e-mail
      and gender fails both of its constraints. */
  lemma PatternsRejectBlank(s: string)
    requires !NotBlank(s)
    ensures !ValidEmailVerified(s) && !ValidName(s) && !ValidNickname(s) && !IsoDateShape(s) && !ValidPassword(s)
  {
    if |s| >= 1 {
      assert !(s[0] > ' ');
    }
  }

  /** The password message asks for upper and lower case, the pattern does
      not: an all-lower-case and an all-upper-case password both pass. */
  lemma PasswordCaseNotRequired()
    ensures ValidPassword("password1!") && ValidPassword("PASSWORD1!")
  {
    var lower := "password1!";
    assert IsAsciiLetter(lower[0]) && IsAsciiDigit(lower[8]) && lower[9] in PASSWORD_SPECIALS;
    var upper := "PASSWORD1!";
    assert IsAsciiLetter(upper[0]) && IsAsciiDigit(upper[8]) && upper[9] in PASSWORD_SPECIALS;
  }

  // ---------------------------------------------------------------------
  // toMemberEntity

  /** toMemberEntity: the member row for the form, with the encoder's output
      as password. The birth date goes through `LocalDate.parse` and the
      gender through `Gender.valueOf`; either throwing is an unexpected
      failure. */
  function ToMemberEntity(m: MemberForm, encodedPassword: string): (r: Result<Member, Failure>)
    ensures r.Ok? <==> ParseIsoDate(m.birthDate).Some? && GenderOf(m.gender).Some?
    ensures r.Err? ==> r.error == Unexpected
    ensures r.Ok? ==>
      r.value.memberId.None? && r.value.email == m.email && r.value.name == m.name && r.value.nickname == m.nickname
      && ValidDate(r.value.birthDate) && FormatIsoDate(r.value.birthDate) == m.birthDate && GenderName(r.value.gender) == m.gender
      && r.value.password == encodedPassword && r.value.mileage == 0 && r.value.status == Active
  {
    match ParseIsoDate(m.birthDate)
    case None => Err(Unexpected)
    case Some(birthDate) =>
      ParseThenFormat(m.birthDate);
      match GenderOf(m.gender)
      case None => Err(Unexpected)
      case Some(gender) => Ok(Member(None, m.email, m.name, m.nickname, birthDate, gender, encodedPassword, 0, Active))
  }

  /** Validation does not guarantee the conversion: the gender is only
      checked for being non-blank, so a valid form with gender "W" still
      fails, as does one whose well-shaped birth date does not exist. */
  lemma ValidFormCanFailConversion(m: MemberForm, isEmail: string -> bool, encodedPassword: string)
    requires ValidMember(m, isEmail)
    requires m.gender == "W" || m.birthDate == "2023-02-29"
    ensures ToMemberEntity(m, encodedPassword) == Err(Unexpected)
  {
    ShapeDoesNotMakeADate();
  }
}
