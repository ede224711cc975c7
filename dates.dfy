/** `datetime.strptime(value, "%Y-%m-%d %H:%M")` as the CSV import uses it. Python
    turns the format into a regular expression whose fields accept these
    alternatives, tried in order:
      %Y  four digits
      %m  `1[0-2]`, `0[1-9]` or `[1-9]`
      %d  `3[01]`, `[12]\d`, `0[1-9]`, `[1-9]` or a space and `[1-9]`
      %H  `2[0-3]`, `[01]\d` or `\d`
      %M  `[0-5]\d` or `\d`
    with `-`, `:` and a run of one or more whitespace characters between them.
    The regular expression is matched at the start, anything left after it is an
    error, and the calendar date must exist. Every field but the last is followed
    by a separator that its second character cannot be, so at most one alternative
    of each field can lead to a match and each `...At` function below picks that one. */
module Dates {
  import opened Seqs
  import opened Text
  import opened Models

  predicate IsDigit(c: char) {
    '0' <= c <= '9'
  }

  function DigitValue(c: char): (d: nat)
    requires IsDigit(c)
    ensures d < 10
  {
    c as int - '0' as int
  }

  predicate LeapYear(y: nat) {
    y % 4 == 0 && (y % 100 != 0 || y % 400 == 0)
  }

  function DaysInMonth(y: nat, m: nat): (n: nat)
    requires 1 <= m <= 12
    ensures 28 <= n <= 31
  {
    if m == 2 then (if LeapYear(y) then 29 else 28)
    else if m == 4 || m == 6 || m == 9 || m == 11 then 30
    else 31
  }

  /** A value `datetime` accepts. */
  predicate ValidDateTime(d: DateTime) {
    && 1 <= d.year <= 9999
    && 1 <= d.month <= 12
    && 1 <= d.day <= DaysInMonth(d.year, d.month)
    && d.hour <= 23
    && d.minute <= 59
  }

  /** A field read: its value and the index just past it. */
  datatype Field = Field(value: nat, next: nat)

  /** The two digits at `k` and `k + 1`. */
  function Two(s: string, k: nat): nat
    requires k + 2 <= |s| && IsDigit(s[k]) && IsDigit(s[k + 1])
  {
    10 * DigitValue(s[k]) + DigitValue(s[k + 1])
  }

  /** `%Y` at the start, followed by `-`. */
  function YearAt(s: string): Option<Field> {
    if |s| >= 5 && IsDigit(s[0]) && IsDigit(s[1]) && IsDigit(s[2]) && IsDigit(s[3]) && s[4] == '-' then
      Some(Field(1000 * DigitValue(s[0]) + 100 * DigitValue(s[1]) + 10 * DigitValue(s[2]) + DigitValue(s[3]), 4))
    else None
  }

  /** `%m` at `k`, followed by `-`. */
  function MonthAt(s: string, k: nat): Option<Field> {
    if k + 2 < |s| && s[k + 2] == '-'
       && ((s[k] == '1' && '0' <= s[k + 1] <= '2') || (s[k] == '0' && '1' <= s[k + 1] <= '9')) then
      Some(Field(Two(s, k), k + 2))
    else if k + 1 < |s| && s[k + 1] == '-' && '1' <= s[k] <= '9' then
      Some(Field(DigitValue(s[k]), k + 1))
    else None
  }

  /** `%d` at `k`, followed by whitespace. */
  function DayAt(s: string, k: nat): Option<Field> {
    if k + 2 < |s| && IsSpace(s[k + 2])
       && ((s[k] == '3' && '0' <= s[k + 1] <= '1') || ('1' <= s[k] <= '2' && IsDigit(s[k + 1]))
           || (s[k] == '0' && '1' <= s[k + 1] <= '9')) then
      Some(Field(Two(s, k), k + 2))
    else if k + 1 < |s| && IsSpace(s[k + 1]) && '1' <= s[k] <= '9' then
      Some(Field(DigitValue(s[k]), k + 1))
    else if k + 2 < |s| && IsSpace(s[k + 2]) && s[k] == ' ' && '1' <= s[k + 1] <= '9' then
      Some(Field(DigitValue(s[k + 1]), k + 2))
    else None
  }

  /** `%H` at `k`, followed by `:`. */
  function HourAt(s: string, k: nat): Option<Field> {
    if k + 2 < |s| && s[k + 2] == ':'
       && ((s[k] == '2' && '0' <= s[k + 1] <= '3') || ('0' <= s[k] <= '1' && IsDigit(s[k + 1]))) then
      Some(Field(Two(s, k), k + 2))
    else if k + 1 < |s| && s[k + 1] == ':' && IsDigit(s[k]) then
      Some(Field(DigitValue(s[k]), k + 1))
    else None
  }

  /** `%M` at `k`: the two-digit alternative whenever it matches, else one digit. */
  function MinuteAt(s: string, k: nat): Option<Field> {
    if k + 2 <= |s| && '0' <= s[k] <= '5' && IsDigit(s[k + 1]) then Some(Field(Two(s, k), k + 2))
    else if k + 1 <= |s| && IsDigit(s[k]) then Some(Field(DigitValue(s[k]), k + 1))
    else None
  }

  /** The parsed value, or `None` where `strptime` raises `ValueError`. */
  function ParseDate(s: string): (r: Option<DateTime>)
    ensures r.Some? ==> ValidDateTime(r.value)
  {
    match YearAt(s)
    case None => None
    case Some(y) =>
      match MonthAt(s, y.next + 1)
      case None => None
      case Some(m) =>
        match DayAt(s, m.next + 1)
        case None => None
        case Some(d) =>
          var h0 := d.next + LeadingSpace(s[d.next..]);
          match HourAt(s, h0)
          case None => None
          case Some(h) =>
            match MinuteAt(s, h.next + 1)
            case None => None
            case Some(mi) =>
              var dt := DateTime(y.value, m.value, d.value, h.value, mi.value);
              if mi.next == |s| && ValidDateTime(dt) then Some(dt) else None
  }

  /** The canonical text of a value: `YYYY-MM-DD HH:MM`, zero-padded. */
  function FormatDate(d: DateTime): (r: string)
    requires ValidDateTime(d)
    ensures |r| == 16
  {
    [DigitChar(d.year / 10 / 10 / 10), DigitChar(d.year / 10 / 10 % 10), DigitChar(d.year / 10 % 10), DigitChar(d.year % 10),
     '-', DigitChar(d.month / 10), DigitChar(d.month % 10),
     '-', DigitChar(d.day / 10), DigitChar(d.day % 10),
     ' ', DigitChar(d.hour / 10), DigitChar(d.hour % 10),
     ':', DigitChar(d.minute / 10), DigitChar(d.minute % 10)]
  }

  lemma DigitRoundTrip(n: nat)
    requires n < 10
    ensures IsDigit(DigitChar(n)) && DigitValue(DigitChar(n)) == n
  {
  }

  /** The two digits of `n` stand at `k`. */
  ghost predicate TwoDigitsAt(s: string, k: nat, n: nat)
    requires n < 100
  {
    k + 2 <= |s| && s[k] == DigitChar(n / 10) && s[k + 1] == DigitChar(n % 10)
  }

  lemma TwoDigitsValue(s: string, k: nat, n: nat)
    requires n < 100 && TwoDigitsAt(s, k, n)
    ensures IsDigit(s[k]) && IsDigit(s[k + 1]) && Two(s, k) == n
  {
    DigitRoundTrip(n / 10);
    DigitRoundTrip(n % 10);
  }

  lemma MonthDigits(s: string, k: nat, m: nat)
    requires 1 <= m <= 12 && TwoDigitsAt(s, k, m) && k + 2 < |s| && s[k + 2] == '-'
    ensures MonthAt(s, k) == Some(Field(m, k + 2))
  {
    TwoDigitsValue(s, k, m);
  }

  lemma DayDigits(s: string, k: nat, d: nat)
    requires 1 <= d <= 31 && TwoDigitsAt(s, k, d) && k + 2 < |s| && IsSpace(s[k + 2])
    ensures DayAt(s, k) == Some(Field(d, k + 2))
  {
    TwoDigitsValue(s, k, d);
  }

  lemma HourDigits(s: string, k: nat, h: nat)
    requires h <= 23 && TwoDigitsAt(s, k, h) && k + 2 < |s| && s[k + 2] == ':'
    ensures HourAt(s, k) == Some(Field(h, k + 2))
  {
    TwoDigitsValue(s, k, h);
  }

  lemma MinuteDigits(s: string, k: nat, mi: nat)
    requires mi <= 59 && TwoDigitsAt(s, k, mi)
    ensures MinuteAt(s, k) == Some(Field(mi, k + 2))
  {
    TwoDigitsValue(s, k, mi);
  }

  lemma YearDigits(s: string, y: nat)
    requires 1 <= y <= 9999 && |s| >= 5 && s[4] == '-'
    requires s[0] == DigitChar(y / 10 / 10 / 10) && s[1] == DigitChar(y / 10 / 10 % 10)
    requires s[2] == DigitChar(y / 10 % 10) && s[3] == DigitChar(y % 10)
    ensures YearAt(s) == Some(Field(y, 4))
  {
    var n1 := y / 10;
    var n2 := n1 / 10;
    var n3 := n2 / 10;
    assert n3 < 10;
    DigitRoundTrip(n3);
    DigitRoundTrip(n2 % 10);
    DigitRoundTrip(n1 % 10);
    DigitRoundTrip(y % 10);
    assert y == 10 * n1 + y % 10;
    assert n1 == 10 * n2 + n1 % 10;
    assert n2 == 10 * n3 + n2 % 10;
  }

  /** Every value `datetime` accepts is read back from its canonical text. */
  lemma ParseFormat(d: DateTime)
    requires ValidDateTime(d)
    ensures ParseDate(FormatDate(d)) == Some(d)
  {
    var s := FormatDate(d);
    YearDigits(s, d.year);
    MonthDigits(s, 5, d.month);
    DayDigits(s, 8, d.day);
    assert LeadingSpace(s[10..]) == 1 by {
      assert s[10..][1..] == s[11..];
      DigitRoundTrip(d.hour / 10);
      assert LeadingSpace(s[11..]) == 0;
    }
    HourDigits(s, 11, d.hour);
    MinuteDigits(s, 14, d.minute);
  }

  /** Single-digit fields are accepted. */
  lemma SingleDigitFields()
    ensures ParseDate("2024-1-5 9:05") == Some(DateTime(2024, 1, 5, 9, 5))
  {
    var s := "2024-1-5 9:05";
    assert YearAt(s) == Some(Field(2024, 4));
    assert MonthAt(s, 5) == Some(Field(1, 6));
    assert DayAt(s, 7) == Some(Field(5, 8));
    assert LeadingSpace(s[8..]) == 1 by {
      assert s[8..][1..] == s[9..];
      assert LeadingSpace(s[9..]) == 0;
    }
    assert HourAt(s, 9) == Some(Field(9, 10));
    assert MinuteAt(s, 11) == Some(Field(5, 13));
  }

  /** The day must exist in its month. */
  lemma NonexistentDay()
    ensures ParseDate("2023-02-29 10:00") == None
  {
    var s := "2023-02-29 10:00";
    assert YearAt(s) == Some(Field(2023, 4));
    assert MonthAt(s, 5) == Some(Field(2, 7));
    assert DayAt(s, 8) == Some(Field(29, 10));
    assert !ValidDateTime(DateTime(2023, 2, 29, 10, 0));
  }

  lemma LeapDay()
    ensures ParseDate("2024-02-29 10:00") == Some(DateTime(2024, 2, 29, 10, 0))
  {
    var s := "2024-02-29 10:00";
    assert YearAt(s) == Some(Field(2024, 4));
    assert MonthAt(s, 5) == Some(Field(2, 7));
    assert DayAt(s, 8) == Some(Field(29, 10));
    assert LeadingSpace(s[10..]) == 1 by {
      assert s[10..][1..] == s[11..];
      assert LeadingSpace(s[11..]) == 0;
    }
    assert HourAt(s, 11) == Some(Field(10, 13));
    assert MinuteAt(s, 14) == Some(Field(0, 16));
  }

  /** Text left after the minutes is an error. */
  lemma TrailingText()
    ensures ParseDate("2024-01-01 10:00x") == None
  {
    var s := "2024-01-01 10:00x";
    assert YearAt(s) == Some(Field(2024, 4));
    assert MonthAt(s, 5) == Some(Field(1, 7));
    assert DayAt(s, 8) == Some(Field(1, 10));
    assert LeadingSpace(s[10..]) == 1 by {
      assert s[10..][1..] == s[11..];
      assert LeadingSpace(s[11..]) == 0;
    }
    assert HourAt(s, 11) == Some(Field(10, 13));
    assert MinuteAt(s, 14) == Some(Field(0, 16));
  }
}
