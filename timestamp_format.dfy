/**
 * The server's `format_timestamp`: a datetime written as
 * `DD/MM/YYYY HH:MM:SS` (day first, 24-hour clock), and `""` for no datetime.
 */
module TimestampFormat {
  import opened Wrappers
  import opened DateTimes

  predicate IsDigit(c: char) {
    '0' <= c <= '9'
  }

  predicate AllDigits(s: string) {
    forall i :: 0 <= i < |s| ==> IsDigit(s[i])
  }

  function DigitChar(d: int): (c: char)
    requires 0 <= d < 10
    ensures IsDigit(c) && c as int - '0' as int == d
  {
    ('0' as int + d) as char
  }

  /** The number a string of decimal digits spells; the reading side of the format. */
  function DigitsValue(s: string): (n: nat)
    requires AllDigits(s)
  {
    if s == [] then 0
    else DigitsValue(s[..|s| - 1]) * 10 + (s[|s| - 1] as int - '0' as int)
  }

  /** `%d`, `%m`, `%H`, `%M`, `%S`: two digits, zero-padded. */
  function Pad2(n: int): (s: string)
    requires 0 <= n < 100
    ensures |s| == 2 && AllDigits(s)
    ensures DigitsValue(s) == n
  {
    var s := [DigitChar(n / 10), DigitChar(n % 10)];
    assert s[..1][..0] == [];
    assert DigitsValue(s[..1]) == n / 10;
    s
  }

  /** `%Y` as the C library writes it: the year in decimal, without padding. */
  function Decimal(n: nat): (s: string)
    ensures AllDigits(s) && |s| >= 1
    ensures DigitsValue(s) == n
  {
    if n < 10 then
      var s := [DigitChar(n)];
      assert s[..0] == [];
      s
    else
      var front := Decimal(n / 10);
      var s := front + [DigitChar(n % 10)];
      assert s[..|s| - 1] == front;
      s
  }

  /** Four-digit years print as four characters. */
  lemma {:induction false} FourDigitYear(y: nat)
    requires 1000 <= y <= 9999
    ensures |Decimal(y)| == 4
  {
    assert |Decimal(y / 1000)| == 1;
    assert |Decimal(y / 100)| == |Decimal(y / 100 / 10)| + 1;
    assert |Decimal(y / 10)| == |Decimal(y / 10 / 10)| + 1;
    assert |Decimal(y)| == |Decimal(y / 10)| + 1;
  }

  /** `format_timestamp(dt)`, i.e. `dt.strftime("%d/%m/%Y %H:%M:%S")`, or `""` for `None`. */
  function FormatTimestamp(dt: Option<PyDateTime>): (s: string)
    ensures dt.None? <==> s == ""
  {
    match dt
    case None => ""
    case Some(t) =>
      var date := Pad2(t.day) + "/" + Pad2(t.month) + "/" + Decimal(t.year);
      var time := Pad2(t.hour) + ":" + Pad2(t.minute) + ":" + Pad2(t.second);
      date + " " + time
  }

  /**
   * For a four-digit year the text is 19 characters with the separators at
   * fixed places, and the digits read back from their fixed positions give
   * the day, month, year, hour, minute and second.
   */
  lemma FormatReadsBack(t: PyDateTime)
    requires t.year >= 1000
    ensures var s := FormatTimestamp(Some(t));
      && |s| == 19
      && s[2] == '/' && s[5] == '/' && s[10] == ' ' && s[13] == ':' && s[16] == ':'
      && AllDigits(s[0..2]) && DigitsValue(s[0..2]) == t.day
      && AllDigits(s[3..5]) && DigitsValue(s[3..5]) == t.month
      && AllDigits(s[6..10]) && DigitsValue(s[6..10]) == t.year
      && AllDigits(s[11..13]) && DigitsValue(s[11..13]) == t.hour
      && AllDigits(s[14..16]) && DigitsValue(s[14..16]) == t.minute
      && AllDigits(s[17..19]) && DigitsValue(s[17..19]) == t.second
  {
    FourDigitYear(t.year);
    var date := Pad2(t.day) + "/" + Pad2(t.month) + "/" + Decimal(t.year);
    var time := Pad2(t.hour) + ":" + Pad2(t.minute) + ":" + Pad2(t.second);
    var s := FormatTimestamp(Some(t));
    assert s == date + " " + time;
    assert s[0..10] == date && s[11..19] == time;
    assert date[0..2] == Pad2(t.day) && date[3..5] == Pad2(t.month) && date[6..10] == Decimal(t.year);
    assert time[0..2] == Pad2(t.hour) && time[3..5] == Pad2(t.minute) && time[6..8] == Pad2(t.second);
    assert s[0..2] == date[0..2] && s[3..5] == date[3..5] && s[6..10] == date[6..10];
    assert s[11..13] == time[0..2] && s[14..16] == time[3..5] && s[17..19] == time[6..8];
  }
}
