/**
  Formatters and validators of the application forms: hyphenation of phone
  and business-registration numbers, and the checks on phone numbers,
  passwords and birth dates. A validator returns `None` for valid input and
  the reason otherwise.
*/
module FormCheck {
  import opened Wrappers
  import opened Text

  function Min(a: int, b: int): int {
    if a <= b then a else b
  }

  // ---------------------------------------------------------------------------
  // Business-registration numbers: DDD-DD-DDDDD

  /** `formatBusinessNumber` */
  function FormatBusinessNumber(s: string): (r: string)
    ensures var c := Digits(s);
      && (|c| <= 3 ==> r == c)
      && (4 <= |c| <= 5 ==> |r| == |c| + 1 && r[3] == '-')
      && (|c| >= 6 ==> |r| == Min(|c|, 10) + 2 && r[3] == '-' && r[6] == '-')
      && Digits(r) == c[..Min(|c|, 10)]
  {
    var c := Digits(s);
    if |c| == 0 then ""
    else if |c| <= 3 then DigitsOfDigits(c); c
    else if |c| <= 5 then
      HyphenDigits(c[..3], c[3..]);
      assert c[..3] + c[3..] == c;
      c[..3] + "-" + c[3..]
    else
      var n := Min(|c|, 10);
      Hyphen3Digits(c[..3], c[3..5], c[5..n]);
      assert c[..3] + c[3..5] + c[5..n] == c[..n];
      c[..3] + "-" + c[3..5] + "-" + c[5..n]
  }

  /** A hyphen between two strings contributes no digit. */
  lemma DashJoinDigits(a: string, b: string)
    ensures Digits(a + "-" + b) == Digits(a) + Digits(b)
  {
    DigitsAppend(a + "-", b);
    DigitsAppend(a, "-");
    DigitsOfDash();
  }

  lemma DigitsOfDash()
    ensures Digits("-") == ""
  {
    assert "-"[1..] == "";
  }

  lemma HyphenDigits(a: string, b: string)
    requires AllDigits(a) && AllDigits(b)
    ensures Digits(a + "-" + b) == a + b
  {
    DashJoinDigits(a, b);
    DigitsOfDigits(a);
    DigitsOfDigits(b);
  }

  lemma Hyphen3Digits(a: string, b: string, c: string)
    requires AllDigits(a) && AllDigits(b) && AllDigits(c)
    ensures Digits(a + "-" + b + "-" + c) == a + b + c
  {
    DashJoinDigits(a + "-" + b, c);
    HyphenDigits(a, b);
    DigitsOfDigits(c);
  }

  /** `removeBusinessNumberHyphen`: the digits, in order. */
  function RemoveBusinessNumberHyphen(s: string): (r: string)
    ensures AllDigits(r)
    ensures r == Digits(s)
    ensures AllDigits(s) ==> r == s
  {
    var r := Digits(s);
    if AllDigits(s) then DigitsOfDigits(s); r else r
  }

  /** `isValidBusinessNumber`: exactly ten digits once hyphens and the like are dropped. */
  function IsValidBusinessNumber(s: string): (ok: bool)
    ensures ok <==> |Digits(s)| == 10
  {
    s != "" && |RemoveBusinessNumberHyphen(s)| == 10
  }

  /** Formatting a formatted business number changes nothing. */
  lemma FormatBusinessNumberIdempotent(s: string)
    ensures FormatBusinessNumber(FormatBusinessNumber(s)) == FormatBusinessNumber(s)
  {
    var c := Digits(s);
    var r := FormatBusinessNumber(s);
    var c' := Digits(r);
    assert c' == c[..Min(|c|, 10)];
    if |c| >= 6 {
      var n := Min(|c|, 10);
      assert c'[..3] == c[..3] && c'[3..5] == c[3..5] && c'[5..n] == c[5..n];
    } else if |c| >= 4 {
      assert c' == c;
    }
  }

  /** A formatted number is valid exactly when the input held at least ten digits. */
  lemma FormattedBusinessNumberValid(s: string)
    ensures IsValidBusinessNumber(FormatBusinessNumber(s)) <==> |Digits(s)| >= 10
  {
  }

  // ---------------------------------------------------------------------------
  // Mobile phone numbers: DDD-DDDD-DDDD

  /** `formatPhoneNumber` */
  function FormatPhoneNumber(s: string): (r: string)
    ensures var c := Digits(s);
      && (|c| <= 3 ==> r == c)
      && (4 <= |c| <= 7 ==> |r| == |c| + 1 && r[3] == '-')
      && (|c| >= 8 ==> |r| == Min(|c|, 11) + 2 && r[3] == '-' && r[8] == '-')
      && Digits(r) == c[..Min(|c|, 11)]
    ensures |r| <= 13
    ensures |r| == 13 <==> |Digits(s)| >= 11
  {
    var c := Digits(s);
    if |c| == 0 then ""
    else if |c| <= 3 then DigitsOfDigits(c); c
    else if |c| <= 7 then
      HyphenDigits(c[..3], c[3..]);
      assert c[..3] + c[3..] == c;
      c[..3] + "-" + c[3..]
    else
      var n := Min(|c|, 11);
      Hyphen3Digits(c[..3], c[3..7], c[7..n]);
      assert c[..3] + c[3..7] + c[7..n] == c[..n];
      c[..3] + "-" + c[3..7] + "-" + c[7..n]
  }

  /** Formatting a formatted phone number changes nothing. */
  lemma FormatPhoneNumberIdempotent(s: string)
    ensures FormatPhoneNumber(FormatPhoneNumber(s)) == FormatPhoneNumber(s)
  {
    var c := Digits(s);
    var r := FormatPhoneNumber(s);
    var c' := Digits(r);
    assert c' == c[..Min(|c|, 11)];
    if |c| >= 8 {
      var n := Min(|c|, 11);
      assert c'[..3] == c[..3] && c'[3..7] == c[3..7] && c'[7..n] == c[7..n];
    } else if |c| >= 4 {
      assert c' == c;
    }
  }

  datatype PhoneError = PhoneEmpty | PhoneLength | PhonePrefix

  /** `validatePhoneNumber`: eleven digits starting with 010. */
  function ValidatePhoneNumber(s: string): (r: Option<PhoneError>)
    ensures r.None? <==> |Digits(s)| == 11 && StartsWith(Digits(s), "010")
    ensures r == Some(PhoneEmpty) <==> |Digits(s)| == 0
    ensures r == Some(PhoneLength) <==> |Digits(s)| != 0 && |Digits(s)| != 11
  {
    if s == "" then Some(PhoneEmpty)
    else
      var c := Digits(s);
      if |c| == 0 then Some(PhoneEmpty)
      else if |c| < 11 || |c| > 11 then Some(PhoneLength)
      else if !StartsWith(c, "010") then Some(PhonePrefix)
      else None
  }

  /** A phone number formatted to full length is valid exactly when its first eleven digits start with 010. */
  lemma FormattedPhoneValid(s: string)
    requires |FormatPhoneNumber(s)| == 13
    ensures ValidatePhoneNumber(FormatPhoneNumber(s)).None? <==> StartsWith(Digits(s)[..11], "010")
  {
  }

  // ---------------------------------------------------------------------------
  // Passwords

  /** `[!@#$%^&*(),.?":{}|<>]` */
  predicate IsSpecial(c: char) {
    c in "!@#$%^&*(),.?\":{}|<>"
  }

  /** Does some character of `s` satisfy the class `p`? (a regex test) */
  function AnyOf(s: string, p: char -> bool): (b: bool)
    ensures b <==> exists i :: 0 <= i < |s| && p(s[i])
  {
    if |s| == 0 then false
    else if p(s[0]) then true
    else
      assert forall i :: 1 <= i < |s| ==> s[i] == s[1..][i - 1];
      AnyOf(s[1..], p)
  }

  datatype PasswordError = PasswordEmpty | PasswordRule

  /** `validatePassword`: 8 to 15 characters with a letter, a digit and a special character. */
  function ValidatePassword(p: string): (r: Option<PasswordError>)
    ensures r.None? <==>
      && 8 <= |p| <= 15
      && (exists i :: 0 <= i < |p| && IsAsciiLetter(p[i]))
      && (exists i :: 0 <= i < |p| && IsDigit(p[i]))
      && (exists i :: 0 <= i < |p| && IsSpecial(p[i]))
    ensures r == Some(PasswordEmpty) <==> p == ""
  {
    if p == "" then Some(PasswordEmpty)
    else if |p| < 8 || |p| > 15 then Some(PasswordRule)
    else if !AnyOf(p, IsAsciiLetter) || !AnyOf(p, IsDigit) || !AnyOf(p, IsSpecial) then Some(PasswordRule)
    else None
  }

  datatype ConfirmError = PasswordMismatch

  /** `validateConfirmPassword`: complains only about two non-empty, different entries. */
  function ValidateConfirmPassword(password: string, confirm: string): (r: Option<ConfirmError>)
    ensures r.Some? <==> password != "" && confirm != "" && password != confirm
  {
    if password == "" then None
    else if confirm == "" then None
    else if password != confirm then Some(PasswordMismatch)
    else None
  }

  // ---------------------------------------------------------------------------
  // Birth dates: YYYYMMDD

  predicate IsLeapYear(y: int) {
    (y % 4 == 0 && y % 100 != 0) || y % 400 == 0
  }

  /** Days in month `m` (1 to 12) of the Gregorian year `y`. */
  function DaysInMonth(y: int, m: int): (n: int)
    requires 1 <= m <= 12
    ensures 28 <= n <= 31
  {
    if m == 2 then (if IsLeapYear(y) then 29 else 28)
    else if m == 4 || m == 6 || m == 9 || m == 11 then 30
    else 31
  }

  datatype CalendarDate = CalendarDate(year: int, monthIndex: int, day: int)

  /**
    `new Date(year, monthIndex, day)` read back as year, month index and day,
    for a day of 1 to 31: a day past the month's end rolls into the next month.
  */
  function MakeDate(year: int, monthIndex: int, day: int): (r: CalendarDate)
    requires 0 <= monthIndex < 12 && 1 <= day <= 31
    ensures 0 <= r.monthIndex < 12 && 1 <= r.day <= DaysInMonth(r.year, r.monthIndex + 1)
  {
    var n := DaysInMonth(year, monthIndex + 1);
    if day <= n then CalendarDate(year, monthIndex, day)
    else if monthIndex == 11 then CalendarDate(year + 1, 0, day - n)
    else CalendarDate(year, monthIndex + 1, day - n)
  }

  /** The date survives the round trip through `Date` exactly when the day exists. */
  lemma MakeDateRoundTrip(year: int, monthIndex: int, day: int)
    requires 0 <= monthIndex < 12 && 1 <= day <= 31
    ensures MakeDate(year, monthIndex, day) == CalendarDate(year, monthIndex, day)
      <==> day <= DaysInMonth(year, monthIndex + 1)
  {
  }

  datatype BirthDateError = BirthDateEmpty | BirthDateFormat | BirthDateInvalid

  /** `validateBirthDate`; `currentYear` stands for `new Date().getFullYear()`. */
  function ValidateBirthDate(s: string, currentYear: int): (r: Option<BirthDateError>)
    ensures r == Some(BirthDateEmpty) <==> s == ""
    ensures r == Some(BirthDateFormat) <==> s != "" && !(|s| == 8 && AllDigits(s))
    ensures r.None? <==>
      && |s| == 8 && AllDigits(s)
      && 1900 <= ParseDigits(s[..4]) <= currentYear
      && 1 <= ParseDigits(s[4..6]) <= 12
      && 1 <= ParseDigits(s[6..]) <= DaysInMonth(ParseDigits(s[..4]), ParseDigits(s[4..6]))
  {
    if s == "" then Some(BirthDateEmpty)
    else if |s| != 8 then Some(BirthDateFormat)
    else if !AllDigits(s) then Some(BirthDateFormat)
    else
      var year := ParseDigits(s[..4]);
      var month := ParseDigits(s[4..6]);
      var day := ParseDigits(s[6..8]);
      assert s[6..8] == s[6..];
      if year < 1900 || year > currentYear then Some(BirthDateInvalid)
      else if month < 1 || month > 12 then Some(BirthDateInvalid)
      else if day < 1 || day > 31 then Some(BirthDateInvalid)
      else
        var date := MakeDate(year, month - 1, day);
        MakeDateRoundTrip(year, month - 1, day);
        if date.year != year || date.monthIndex != month - 1 || date.day != day then Some(BirthDateInvalid)
        else None
  }

  /** 29 February of a year in range is accepted exactly in leap years. */
  lemma LeapDay(y: string, currentYear: int)
    requires |y| == 4 && AllDigits(y) && 1900 <= ParseDigits(y) <= currentYear
    ensures ValidateBirthDate(y + "0229", currentYear).None? <==> IsLeapYear(ParseDigits(y))
  {
    var s := y + "0229";
    assert s[..4] == y && s[4..6] == "02" && s[6..] == "29";
    assert ParseDigits("02") == 2 by { assert "02"[..1] == "0"; }
    assert ParseDigits("29") == 29 by { assert "29"[..1] == "2"; }
  }
}
