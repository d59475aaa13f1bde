/**
 * The fixed timestamp format `%Y-%m-%d %H:%M:%S` in which the transaction
 * source reports `txdate`, and the `YYYY-MM-DD` dates the collector sends as a
 * fetch window. Parsing is strict: every field has its fixed width and every
 * value must name a real calendar instant.
 */
module Timestamp {
  import opened Wrappers
  import opened Calendar

  datatype DateTime = DateTime(date: Date, hour: int, minute: int, second: int)

  /** An instant the four-digit format can express. */
  predicate ValidDateTime(t: DateTime) {
    0 <= t.date.year <= 9999 && ValidDate(t.date)
    && 0 <= t.hour < 24 && 0 <= t.minute < 60 && 0 <= t.second < 60
  }

  predicate IsDigit(c: char) {
    '0' <= c <= '9'
  }

  predicate AllDigits(s: string) {
    forall i :: 0 <= i < |s| ==> IsDigit(s[i])
  }

  function DigitChar(n: int): (c: char)
    requires 0 <= n < 10
    ensures IsDigit(c)
  {
    ('0' as int + n) as char
  }

  function Pow10(width: nat): (p: nat)
    ensures p >= 1
  {
    if width == 0 then 1 else 10 * Pow10(width - 1)
  }

  /** The value of a string of decimal digits. */
  function Number(s: string): nat
    requires AllDigits(s)
  {
    if s == [] then 0 else Number(s[..|s| - 1]) * 10 + (s[|s| - 1] as int - '0' as int)
  }

  /** The last `width` decimal digits of `n`, zero-padded: Python's `{n:0<width>d}` for n below 10^width. */
  function Padded(n: nat, width: nat): string {
    if width == 0 then [] else Padded(n / 10, width - 1) + [DigitChar(n % 10)]
  }

  /** Python's `str(n)` of an integer: no padding, a minus sign for negatives. */
  function Decimal(n: int): string
    decreases if n < 0 then 1 - n else n
  {
    if n < 0 then "-" + Decimal(-n)
    else if n < 10 then [DigitChar(n)]
    else Decimal(n / 10) + [DigitChar(n % 10)]
  }

  lemma {:induction false} NumberOfPadded(n: nat, width: nat)
    requires n < Pow10(width)
    ensures |Padded(n, width)| == width && AllDigits(Padded(n, width))
    ensures Number(Padded(n, width)) == n
  {
    if width > 0 {
      NumberOfPadded(n / 10, width - 1);
      var s := Padded(n, width);
      assert s[..|s| - 1] == Padded(n / 10, width - 1);
    }
  }

  lemma {:induction false} PaddedOfNumber(s: string)
    requires AllDigits(s)
    ensures Number(s) < Pow10(|s|) && Padded(Number(s), |s|) == s
  {
    if s != [] {
      var init := s[..|s| - 1];
      PaddedOfNumber(init);
      assert s == init + [s[|s| - 1]];
    }
  }

  /** A number written with exactly `width` digits prints the same with or without padding. */
  lemma {:induction false} DecimalIsPadded(n: int, width: nat)
    requires width >= 1 && Pow10(width - 1) <= n < Pow10(width)
    ensures Decimal(n) == Padded(n, width)
  {
    if width == 1 {
      assert Padded(n / 10, 0) == [];
    } else {
      DecimalIsPadded(n / 10, width - 1);
    }
  }

  /** `f"{year}-{month:02d}-{day:02d}"`, the date format of a fetch window. */
  function FormatDate(d: Date): string
    requires ValidDate(d)
  {
    Decimal(d.year) + "-" + Padded(d.month, 2) + "-" + Padded(d.day, 2)
  }

  /** `%Y-%m-%d`: four digits, a dash, two digits, a dash, two digits, naming a real date. */
  function ParseDate(s: string): (r: Option<Date>)
    ensures r.Some? ==> ValidDate(r.value) && 0 <= r.value.year <= 9999
  {
    if |s| == 10 && s[4] == '-' && s[7] == '-'
       && AllDigits(s[..4]) && AllDigits(s[5..7]) && AllDigits(s[8..])
    then
      var d := Date(Number(s[..4]), Number(s[5..7]), Number(s[8..]));
      PaddedOfNumber(s[..4]);
      if ValidDate(d) then Some(d) else None
    else None
  }

  /** `%Y-%m-%d %H:%M:%S`, the format `txdate` is parsed with. */
  function ParseTimestamp(s: string): (r: Option<DateTime>)
    ensures r.Some? ==> ValidDateTime(r.value)
  {
    if |s| == 19 && s[10] == ' ' && s[13] == ':' && s[16] == ':'
       && AllDigits(s[11..13]) && AllDigits(s[14..16]) && AllDigits(s[17..])
    then
      match ParseDate(s[..10])
      case None => None
      case Some(d) =>
        PaddedOfNumber(s[11..13]);
        PaddedOfNumber(s[14..16]);
        PaddedOfNumber(s[17..]);
        var t := DateTime(d, Number(s[11..13]), Number(s[14..16]), Number(s[17..]));
        if ValidDateTime(t) then Some(t) else None
    else None
  }

  /** The canonical `%Y-%m-%d` text of a date of a four-digit year. */
  function DateText(d: Date): string
    requires ValidDate(d) && 0 <= d.year <= 9999
  {
    Padded(d.year, 4) + "-" + Padded(d.month, 2) + "-" + Padded(d.day, 2)
  }

  /** The canonical text of an instant in the `%Y-%m-%d %H:%M:%S` format. */
  function FormatTimestamp(t: DateTime): string
    requires ValidDateTime(t)
  {
    DateText(t.date) + " " + Padded(t.hour, 2) + ":" + Padded(t.minute, 2) + ":" + Padded(t.second, 2)
  }

  lemma ParseDateText(d: Date)
    requires ValidDate(d) && 0 <= d.year <= 9999
    ensures |DateText(d)| == 10 && ParseDate(DateText(d)) == Some(d)
  {
    NumberOfPadded(d.year, 4);
    NumberOfPadded(d.month, 2);
    NumberOfPadded(d.day, 2);
    var s := DateText(d);
    assert s[..4] == Padded(d.year, 4);
    assert s[5..7] == Padded(d.month, 2);
    assert s[8..] == Padded(d.day, 2);
  }

  /** Parsing the formatted text of an instant gives the instant back. */
  lemma ParseFormatted(t: DateTime)
    requires ValidDateTime(t)
    ensures ParseTimestamp(FormatTimestamp(t)) == Some(t)
  {
    ParseDateText(t.date);
    NumberOfPadded(t.hour, 2);
    NumberOfPadded(t.minute, 2);
    NumberOfPadded(t.second, 2);
    var s := FormatTimestamp(t);
    assert s[..10] == DateText(t.date);
    assert s[11..13] == Padded(t.hour, 2);
    assert s[14..16] == Padded(t.minute, 2);
    assert s[17..] == Padded(t.second, 2);
  }

  /** Only canonical text parses: whatever is accepted is the formatted text of what it parses to. */
  lemma FormattedParse(s: string)
    requires ParseTimestamp(s).Some?
    ensures FormatTimestamp(ParseTimestamp(s).value) == s
  {
    var t := ParseTimestamp(s).value;
    var ds := s[..10];
    PaddedOfNumber(ds[..4]);
    PaddedOfNumber(ds[5..7]);
    PaddedOfNumber(ds[8..]);
    PaddedOfNumber(s[11..13]);
    PaddedOfNumber(s[14..16]);
    PaddedOfNumber(s[17..]);
    assert ds == ds[..4] + "-" + ds[5..7] + "-" + ds[8..];
    assert s == ds + " " + s[11..13] + ":" + s[14..16] + ":" + s[17..];
  }

  /** A fetch-window date of a four-digit year reads back as the same date. */
  lemma ParseFormattedDate(d: Date)
    requires ValidDate(d) && 1000 <= d.year <= 9999
    ensures ParseDate(FormatDate(d)) == Some(d)
  {
    DecimalIsPadded(d.year, 4);
    assert FormatDate(d) == DateText(d);
    ParseDateText(d);
  }
}
