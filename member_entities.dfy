/** The member-side rows (Member, MemberProfile and the profile's child
    rows) and the calendar date a birth date is stored as. */
module MemberEntities {
  import opened Wrappers
  import opened Strings

  // ---------------------------------------------------------------------
  // LocalDate

  /** A date of the proleptic Gregorian calendar. */
  datatype Date = Date(year: int, month: int, day: int)

  predicate IsLeapYear(y: int) {
    y % 4 == 0 && (y % 100 != 0 || y % 400 == 0)
  }

  function DaysInMonth(y: int, m: int): (n: int)
    requires 1 <= m <= 12
    ensures 28 <= n <= 31
  {
    if m == 2 then (if IsLeapYear(y) then 29 else 28)
    else if m == 4 || m == 6 || m == 9 || m == 11 then 30
    else 31
  }

  /** A date that exists, with a year that fits four digits. */
  predicate ValidDate(d: Date) {
    0 <= d.year <= 9999 && 1 <= d.month <= 12 && 1 <= d.day <= DaysInMonth(d.year, d.month)
  }

  /** The shape `\d{4}-\d{2}-\d{2}`: ten characters, ASCII digits around two
      dashes. */
  predicate IsoDateShape(s: string) {
    |s| == 10 && s[4] == '-' && s[7] == '-'
    && forall i :: 0 <= i < 10 && i != 4 && i != 7 ==> IsAsciiDigit(s[i])
  }

  function DigitValue(c: char): (v: nat)
    requires IsAsciiDigit(c)
    ensures v < 10 && DigitChar(v) == c
  {
    c as int - '0' as int
  }

  /** `LocalDate.parse` (ISO_LOCAL_DATE, strict) on text of the date shape:
      the fields are read as numbers and must name a day that exists. */
  function ParseIsoDate(s: string): (r: Option<Date>)
    ensures r.Some? ==> IsoDateShape(s) && ValidDate(r.value)
  {
    if !IsoDateShape(s) then None
    else
      var d := Date(
        ((DigitValue(s[0]) * 10 + DigitValue(s[1])) * 10 + DigitValue(s[2])) * 10 + DigitValue(s[3]),
        DigitValue(s[5]) * 10 + DigitValue(s[6]),
        DigitValue(s[8]) * 10 + DigitValue(s[9]));
      if ValidDate(d) then Some(d) else None
  }

  /** `LocalDate.toString()` for a four-digit year: zero-padded
      `yyyy-MM-dd`. */
  function FormatIsoDate(d: Date): (s: string)
    requires ValidDate(d)
    ensures IsoDateShape(s)
  {
    [DigitChar(d.year / 10 / 10 / 10), DigitChar(d.year / 10 / 10 % 10), DigitChar(d.year / 10 % 10), DigitChar(d.year % 10), '-',
     DigitChar(d.month / 10), DigitChar(d.month % 10), '-',
     DigitChar(d.day / 10), DigitChar(d.day % 10)]
  }

  /** Appending a decimal digit and taking it off again. */
  lemma DigitStep(x: nat, d: nat)
    requires d < 10
    ensures (x * 10 + d) / 10 == x && (x * 10 + d) % 10 == d
  {
  }

  /** Printing a date and parsing it back gives the date. */
  lemma FormatThenParse(d: Date)
    requires ValidDate(d)
    ensures ParseIsoDate(FormatIsoDate(d)) == Some(d)
  {
    var s := FormatIsoDate(d);
    var y := d.year;
    assert y / 10 / 10 / 10 < 10;
    assert (y / 10 / 10 / 10) * 10 + y / 10 / 10 % 10 == y / 10 / 10;
    assert (y / 10 / 10) * 10 + y / 10 % 10 == y / 10;
    assert (y / 10) * 10 + y % 10 == y;
    assert d.month / 10 * 10 + d.month % 10 == d.month;
    assert d.day / 10 * 10 + d.day % 10 == d.day;
  }

  /** Text that parses is the printed form of its date: parsing loses
      nothing. */
  lemma ParseThenFormat(s: string)
    requires ParseIsoDate(s).Some?
    ensures FormatIsoDate(ParseIsoDate(s).value) == s
  {
    var d := ParseIsoDate(s).value;
    var a, b, c, e := DigitValue(s[0]), DigitValue(s[1]), DigitValue(s[2]), DigitValue(s[3]);
    DigitStep(a, b);
    DigitStep(a * 10 + b, c);
    DigitStep((a * 10 + b) * 10 + c, e);
    DigitStep(DigitValue(s[5]), DigitValue(s[6]));
    DigitStep(DigitValue(s[8]), DigitValue(s[9]));
    var t := FormatIsoDate(d);
    forall i | 0 <= i < 10
      ensures t[i] == s[i]
    {
      if i != 4 && i != 7 {
        assert DigitChar(DigitValue(s[i])) == s[i];
      }
    }
  }

  /** The shape is not enough: "2023-02-29" has it, but 2023 is not a
      leap year, so the parse fails. */
  lemma ShapeDoesNotMakeADate()
    ensures IsoDateShape("2023-02-29") && ParseIsoDate("2023-02-29").None?
  {
    var s := "2023-02-29";
    assert DigitValue(s[0]) == 2 && DigitValue(s[1]) == 0 && DigitValue(s[2]) == 2 && DigitValue(s[3]) == 3;
    assert DigitValue(s[5]) == 0 && DigitValue(s[6]) == 2;
    assert DigitValue(s[8]) == 2 && DigitValue(s[9]) == 9;
  }

  // ---------------------------------------------------------------------
  // rows

  datatype Gender = M | F

  /** `Gender.valueOf`: the constant's exact name, or nothing (the call
      throws). */
  function GenderOf(s: string): (g: Option<Gender>)
    ensures g.Some? <==> s == "M" || s == "F"
    ensures g.Some? ==> GenderName(g.value) == s
  {
    if s == "M" then Some(M) else if s == "F" then Some(F) else None
  }

  function GenderName(g: Gender): string {
    match g
    case M => "M"
    case F => "F"
  }

  datatype MemberStatus = Active | Suspended | Withdrawn

  /** A member row; `memberId` is None until the row is saved. */
  datatype Member = Member(
    memberId: Option<int>,
    email: string,
    name: string,
    nickname: string,
    birthDate: Date,
    gender: Gender,
    password: string,
    mileage: int,
    status: MemberStatus)

  /** A profile row; `memberProfileId` is 0 until the row is saved. */
  datatype MemberProfile = MemberProfile(
    memberProfileId: int,
    memberId: int,
    mbti: string,
    preferredRegion: string,
    preferredTime: string,
    preferredBudget: string,
    relationshipStatus: string)

  /** A row of one of the five profile child tables (interest, food, day,
      transportation, date mood): its value and the profile it belongs to. */
  datatype ProfileItem = ProfileItem(value: string, memberProfile: MemberProfile)
}
