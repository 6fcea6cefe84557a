/**
 * Dates as `YYYY-MM-DD` text: `strftime('%Y-%m-%d')`, and `datetime.strptime(s, '%Y-%m-%d')`
 * with the regular expressions Python's `_strptime` uses for `%Y`, `%m` and `%d`.
 */
module IsoDate {
  import opened Wrappers
  import opened Calendar
  import opened Text

  /** Appending a digit multiplies the value by ten and adds the digit. */
  lemma AppendDigit(s: string)
    requires |s| > 0 && forall i :: 0 <= i < |s| ==> IsDigit(s[i])
    ensures DigitsValue(s) == DigitsValue(s[..|s| - 1]) * 10 + DigitValue(s[|s| - 1])
  {
  }

  /** The value of a four-digit text, digit by digit. */
  lemma FourDigits(s: string)
    requires |s| == 4 && AllDigits(s)
    ensures DigitsValue(s) == 1000 * DigitValue(s[0]) + 100 * DigitValue(s[1]) + 10 * DigitValue(s[2]) + DigitValue(s[3])
    ensures DigitsValue(s) < 10000
  {
    AppendDigit(s);
    AppendDigit(s[..3]);
    AppendDigit(s[..2]);
    AppendDigit(s[..1]);
    assert s[..3][..2] == s[..2];
    assert s[..2][..1] == s[..1];
    assert s[..1][..0] == [];
  }

  lemma TwoDigits(s: string)
    requires |s| == 2 && AllDigits(s)
    ensures DigitsValue(s) == 10 * DigitValue(s[0]) + DigitValue(s[1])
  {
    AppendDigit(s);
    AppendDigit(s[..1]);
    assert s[..1][..0] == [];
  }

  /** A number below 100 as two digits (`%m`, `%d`). */
  function Pad2(n: nat): (r: string)
    requires n < 100
    ensures |r| == 2 && AllDigits(r) && DigitsValue(r) == n
  {
    var r := [DigitChar(n / 10), DigitChar(n % 10)];
    TwoDigits(r);
    r
  }

  /** A number below 10000 as four digits (`%Y`). */
  function Pad4(n: nat): (r: string)
    requires n < 10000
    ensures |r| == 4 && AllDigits(r) && DigitsValue(r) == n
  {
    var q1 := n / 10;
    var q2 := q1 / 10;
    var q3 := q2 / 10;
    var r := [DigitChar(q3), DigitChar(q2 % 10), DigitChar(q1 % 10), DigitChar(n % 10)];
    FourDigits(r);
    r
  }

  /** `strftime('%Y-%m-%d')` of a valid date. */
  function FormatIso(d: Date): (r: string)
    requires ValidDate(d)
    ensures d.year < 10000 ==> |r| == 10 && r[4] == '-' && r[7] == '-'
  {
    (if d.year < 10000 then Pad4(d.year) else NatToString(d.year)) + "-" + Pad2(d.month) + "-" + Pad2(d.day)
  }

  /** The `%m` field followed by '-': the month and the text after the '-'. */
  function MonthField(t: string): Option<(int, string)>
  {
    if |t| >= 3 && t[0] == '1' && '0' <= t[1] <= '2' && t[2] == '-' then Some((10 + DigitValue(t[1]), t[3..]))
    else if |t| >= 3 && t[0] == '0' && '1' <= t[1] <= '9' && t[2] == '-' then Some((DigitValue(t[1]), t[3..]))
    else if |t| >= 2 && '1' <= t[0] <= '9' && t[1] == '-' then Some((DigitValue(t[0]), t[2..]))
    else None
  }

  /**
   * The `%d` field as the whole rest of the text. The alternatives are tried in Python's order
   * (`3[01]`, `[12]\d`, `0[1-9]`, `[1-9]`, ` [1-9]`); text left over after the first one that
   * matches is an error ("unconverted data remains").
   */
  function DayField(t: string): Option<int>
  {
    if |t| == 2 && t[0] == '3' && (t[1] == '0' || t[1] == '1') then Some(30 + DigitValue(t[1]))
    else if |t| == 2 && (t[0] == '1' || t[0] == '2') && IsDigit(t[1]) then Some(10 * DigitValue(t[0]) + DigitValue(t[1]))
    else if |t| == 2 && t[0] == '0' && '1' <= t[1] <= '9' then Some(DigitValue(t[1]))
    else if |t| == 1 && '1' <= t[0] <= '9' then Some(DigitValue(t[0]))
    else if |t| == 2 && t[0] == ' ' && '1' <= t[1] <= '9' then Some(DigitValue(t[1]))
    else None
  }

  /**
   * `datetime.strptime(s, '%Y-%m-%d')`: None where Python raises ValueError (no match, text
   * left over, year 0, or a day past the end of the month).
   */
  function ParseIso(s: string): (r: Option<Date>)
    ensures r.Some? ==> ValidDate(r.value) && r.value.year < 10000
  {
    if |s| < 5 || !AllDigits(s[..4]) || s[4] != '-' then None
    else
      match MonthField(s[5..])
      case None => None
      case Some((m, rest)) =>
        match DayField(rest)
        case None => None
        case Some(d) =>
          FourDigits(s[..4]);
          var date := Date(DigitsValue(s[..4]), m, d);
          if ValidDate(date) then Some(date) else None
  }

  /** Formatting a date and parsing the text back gives the date back. */
  lemma ParseFormatRoundTrip(d: Date)
    requires ValidDate(d) && d.year < 10000
    ensures ParseIso(FormatIso(d)) == Some(d)
  {
    var s := FormatIso(d);
    assert s[..4] == Pad4(d.year);
    assert s[5..] == Pad2(d.month) + "-" + Pad2(d.day);
    MonthOfPad2(d.month, Pad2(d.day));
    DayOfPad2(d.day);
  }

  /** A zero-padded month and its '-' read back as the month. */
  lemma MonthOfPad2(m: int, rest: string)
    requires 1 <= m <= 12
    ensures MonthField(Pad2(m) + "-" + rest) == Some((m, rest))
  {
    var t := Pad2(m) + "-" + rest;
    assert t[3..] == rest;
  }

  /** A zero-padded day of the month reads back as the day. */
  lemma DayOfPad2(d: int)
    requires 1 <= d <= 31
    ensures DayField(Pad2(d)) == Some(d)
  {
  }

  /** Every text that parses is a date `strftime` writes back in the canonical zero-padded form. */
  lemma ParsedIsFormattable(s: string)
    requires ParseIso(s).Some?
    ensures |FormatIso(ParseIso(s).value)| == 10
    ensures ParseIso(FormatIso(ParseIso(s).value)) == ParseIso(s)
  {
    ParseFormatRoundTrip(ParseIso(s).value);
  }
}
