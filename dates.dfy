// Calendar dates as the readers parse them: datetime.strptime with the
// formats "%Y", "%Y-%m-%d" and "%Y/%m/%d", and date.fromisoformat on the
// extended "YYYY-MM-DD" form; digits are ASCII digits.

module Dates {
  import opened Wrappers
  import opened Decimal
  import Canonical
  import opened Strings

  type Date = Canonical.Date

  predicate IsLeap(y: int)
  {
    y % 4 == 0 && (y % 100 != 0 || y % 400 == 0)
  }

  function DaysInMonth(y: int, m: int): (n: int)
    requires 1 <= m <= 12
    ensures 28 <= n <= 31
  {
    if m == 2 then (if IsLeap(y) then 29 else 28)
    else if m == 4 || m == 6 || m == 9 || m == 11 then 30
    else 31
  }

  /** A date the datetime module can represent (MINYEAR 1 to MAXYEAR 9999). */
  predicate IsValid(d: Date)
  {
    1 <= d.year <= 9999 && 1 <= d.month <= 12 && 1 <= d.day <= DaysInMonth(d.year, d.month)
  }

  /** date(year, month, day): ValueError for a day that does not exist. */
  function MakeDate(year: int, month: int, day: int): (r: Result<Date>)
    ensures r.Ok? <==> IsValid(Canonical.Date(year, month, day))
    ensures r.Ok? ==> r.value == Canonical.Date(year, month, day)
    ensures r.Err? ==> r.error == ValueError
  {
    var d := Canonical.Date(year, month, day);
    if IsValid(d) then Ok(d) else Err(ValueError)
  }

  /** The text of a %m field: 1 to 9, 01 to 09, 10 to 12 (the regular
      expression `1[0-2]|0[1-9]|[1-9]`, which must be followed by the
      separator). */
  function MonthField(s: string): (r: Option<int>)
    ensures r.Some? ==> 1 <= r.value <= 12
  {
    if |s| == 1 && '1' <= s[0] <= '9' then Some(s[0] as int - '0' as int)
    else if |s| == 2 && s[0] == '0' && '1' <= s[1] <= '9' then Some(s[1] as int - '0' as int)
    else if |s| == 2 && s[0] == '1' && '0' <= s[1] <= '2' then Some(10 + s[1] as int - '0' as int)
    else None
  }

  /** The text of a %d field that ends the string: the first alternative of
      `3[01]|[12]\d|0[1-9]|[1-9]| [1-9]` that matches a prefix is taken, and
      nothing may be left over. */
  function DayField(s: string): (r: Option<int>)
    ensures r.Some? ==> 1 <= r.value <= 31
  {
    if |s| == 2 && s[0] == '3' && (s[1] == '0' || s[1] == '1') then Some(30 + s[1] as int - '0' as int)
    else if |s| == 2 && (s[0] == '1' || s[0] == '2') && IsDigit(s[1]) then Some(10 * (s[0] as int - '0' as int) + s[1] as int - '0' as int)
    else if |s| == 2 && s[0] == '0' && '1' <= s[1] <= '9' then Some(s[1] as int - '0' as int)
    else if |s| == 1 && '1' <= s[0] <= '9' then Some(s[0] as int - '0' as int)
    else if |s| == 2 && s[0] == ' ' && '1' <= s[1] <= '9' then Some(s[1] as int - '0' as int)
    else None
  }

  /** datetime.strptime(s, "%Y").date(): four digits, January 1st. */
  function StrptimeYear(s: string): (r: Result<Date>)
    ensures r.Err? ==> r.error == ValueError
  {
    if |s| == 4 && AllDigits(s) then MakeDate(Value(s), 1, 1) else Err(ValueError)
  }

  /** datetime.strptime(s, "%Y" + sep + "%m" + sep + "%d").date(), for a
      separator that is not a digit or a space: four digits, the
      separator, a month field, the separator, a day field, and then
      a valid date. */
  function StrptimeYmd(s: string, sep: char): (r: Result<Date>)
    requires !IsDigit(sep) && sep != ' '
    ensures r.Err? ==> r.error == ValueError
  {
    if |s| < 5 || !AllDigits(s[..4]) || s[4] != sep then Err(ValueError)
    else
      var rest := s[5..];
      var k := IndexOf(rest, sep);
      if k == |rest| then Err(ValueError)
      else
        var m := MonthField(rest[..k]);
        var d := DayField(rest[k + 1..]);
        if m.None? || d.None? then Err(ValueError)
        else MakeDate(Value(s[..4]), m.value, d.value)
  }

  /** date.fromisoformat on the extended calendar form YYYY-MM-DD. */
  function FromIsoFormat(s: string): (r: Result<Date>)
    ensures r.Err? ==> r.error == ValueError
  {
    if |s| == 10 && s[4] == '-' && s[7] == '-' && AllDigits(s[..4]) && AllDigits(s[5..7]) && AllDigits(s[8..])
    then MakeDate(Value(s[..4]), Value(s[5..7]), Value(s[8..]))
    else Err(ValueError)
  }

  /** A date written with zero-padded fields, as strftime('%Y-%m-%d') and
      date.isoformat() write a four-digit year. */
  function Format(d: Date, sep: char): (s: string)
    requires 0 <= d.year && 0 <= d.month && 0 <= d.day
    ensures |s| == 10 && s[4] == sep && s[7] == sep
  {
    Pad(d.year, 4) + [sep] + Pad(d.month, 2) + [sep] + Pad(d.day, 2)
  }

  /** The parts of a formatted date. */
  lemma FormatParts(d: Date, sep: char)
    requires IsValid(d)
    ensures var s := Format(d, sep);
      s[..4] == Pad(d.year, 4) && s[5..7] == Pad(d.month, 2) && s[8..] == Pad(d.day, 2)
  {
  }

  /** fromisoformat reads back every valid date it is given in ISO form. */
  lemma FromIsoFormatRoundTrip(d: Date)
    requires IsValid(d)
    ensures FromIsoFormat(Format(d, '-')) == Ok(d)
  {
    FormatParts(d, '-');
    ValuePad(d.year, 4);
    ValuePad(d.month, 2);
    ValuePad(d.day, 2);
  }

  /** A two-digit field is its tens digit and its units digit. */
  lemma PadTwo(k: nat)
    requires k < 100
    ensures Pad(k, 2) == [DigitChar(k / 10), DigitChar(k % 10)]
  {
    assert Pad(k / 10, 1) == [DigitChar(k / 10 % 10)];
  }

  /** The month field of its two digits. */
  lemma MonthFieldDigits(t: nat, u: nat)
    requires (t == 0 && 1 <= u <= 9) || (t == 1 && u <= 2)
    ensures MonthField([DigitChar(t), DigitChar(u)]) == Some(10 * t + u)
  {
  }

  lemma MonthFieldPad(m: int)
    requires 1 <= m <= 12
    ensures MonthField(Pad(m, 2)) == Some(m)
  {
    PadTwo(m);
    MonthFieldDigits(m / 10, m % 10);
  }

  /** The day field of its two digits. */
  lemma DayFieldDigits(t: nat, u: nat)
    requires (t == 0 && 1 <= u <= 9) || (1 <= t <= 2 && u <= 9) || (t == 3 && u <= 1)
    ensures DayField([DigitChar(t), DigitChar(u)]) == Some(10 * t + u)
  {
  }

  lemma DayFieldPad(d: int)
    requires 1 <= d <= 31
    ensures DayField(Pad(d, 2)) == Some(d)
  {
    PadTwo(d);
    DayFieldDigits(d / 10, d % 10);
  }

  /** strptime with "%Y-%m-%d" or "%Y/%m/%d" reads back every valid date
      written with two-digit month and day. */
  lemma StrptimeRoundTrip(d: Date, sep: char)
    requires IsValid(d) && !IsDigit(sep) && sep != ' '
    ensures StrptimeYmd(Format(d, sep), sep) == Ok(d)
  {
    var s := Format(d, sep);
    var mt, dt := Pad(d.month, 2), Pad(d.day, 2);
    var rest := s[5..];
    assert rest == mt + [sep] + dt;
    assert IndexOf(rest, sep) == 2 by {
      assert IsDigit(rest[0]) && IsDigit(rest[1]) && rest[2] == sep;
    }
    assert rest[..2] == mt && rest[3..] == dt;
    MonthFieldPad(d.month);
    DayFieldPad(d.day);
    FormatParts(d, sep);
    ValuePad(d.year, 4);
  }

  /** strptime with "%Y" gives January 1st of every four-digit year. */
  lemma StrptimeYearOf(y: int)
    requires 1000 <= y <= 9999
    ensures StrptimeYear(Show(y)) == Ok(Canonical.Date(y, 1, 1))
  {
    ValueShow(y);
    ShowLength(y);
  }

  /** Four-digit numbers are shown with four digits. */
  lemma ShowLength(y: int)
    requires 1000 <= y <= 9999
    ensures |Show(y)| == 4
  {
    assert Show(y) == Show(y / 10) + [DigitChar(y % 10)];
    assert Show(y / 10) == Show(y / 100) + [DigitChar(y / 10 % 10)];
    assert Show(y / 100) == Show(y / 1000) + [DigitChar(y / 100 % 10)];
  }
}
