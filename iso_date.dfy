/**
 * The canonical ISO 8601 extended date-time format that JavaScript's
 * `Date.prototype.toISOString` produces for years 0000 to 9999,
 * `YYYY-MM-DDTHH:mm:ss.sssZ` (ISO 8601-1:2019, sections 5.3 and 5.4),
 * with proleptic Gregorian calendar ranges.
 */
module IsoDate {
  import opened Wrappers

  datatype DateTime = DateTime(year: nat, month: nat, day: nat,
                               hour: nat, minute: nat, second: nat, millisecond: nat)

  predicate IsLeapYear(y: nat) {
    (y % 4 == 0 && y % 100 != 0) || y % 400 == 0
  }

  function DaysInMonth(y: nat, m: nat): nat
    requires 1 <= m <= 12
  {
    if m == 2 then (if IsLeapYear(y) then 29 else 28)
    else if m == 4 || m == 6 || m == 9 || m == 11 then 30
    else 31
  }

  /** A calendar date and a time of day, to the millisecond, with a four-digit year. */
  predicate IsValid(d: DateTime) {
    d.year <= 9999 && 1 <= d.month <= 12 && 1 <= d.day <= DaysInMonth(d.year, d.month)
    && d.hour <= 23 && d.minute <= 59 && d.second <= 59 && d.millisecond <= 999
  }

  function Pow10(k: nat): (p: nat)
    ensures p >= 1
  {
    if k == 0 then 1 else 10 * Pow10(k - 1)
  }

  predicate IsDigit(c: char) {
    '0' <= c <= '9'
  }

  predicate AllDigits(s: string) {
    forall i :: 0 <= i < |s| ==> IsDigit(s[i])
  }

  function DigitChar(n: nat): (c: char)
    requires n < 10
    ensures IsDigit(c)
  {
    ('0' as int + n) as char
  }

  function DigitValue(c: char): (n: nat)
    requires IsDigit(c)
    ensures n < 10 && DigitChar(n) == c
  {
    c as int - '0' as int
  }

  /** The last `width` decimal digits of `n`, zero-padded on the left. */
  function Pad(n: nat, width: nat): (s: string)
    ensures |s| == width && AllDigits(s)
  {
    if width == 0 then "" else Pad(n / 10, width - 1) + [DigitChar(n % 10)]
  }

  /** The number a string of decimal digits denotes. */
  function DecimalValue(s: string): nat
    requires AllDigits(s)
  {
    if s == "" then 0 else 10 * DecimalValue(s[..|s| - 1]) + DigitValue(s[|s| - 1])
  }

  lemma {:induction false} DecimalValueOfPad(n: nat, width: nat)
    requires n < Pow10(width)
    ensures DecimalValue(Pad(n, width)) == n
  {
    if width > 0 {
      DecimalValueOfPad(n / 10, width - 1);
      var s := Pad(n, width);
      assert s[..|s| - 1] == Pad(n / 10, width - 1);
    }
  }

  lemma {:induction false} PadOfDecimalValue(s: string)
    requires AllDigits(s)
    ensures DecimalValue(s) < Pow10(|s|)
    ensures Pad(DecimalValue(s), |s|) == s
  {
    if s != "" {
      var init, last := s[..|s| - 1], s[|s| - 1];
      PadOfDecimalValue(init);
      var n := DecimalValue(s);
      assert n / 10 == DecimalValue(init) && n % 10 == DigitValue(last);
      assert s == init + [last];
    }
  }

  /** `date.toISOString()` */
  function ToIsoString(d: DateTime): string {
    Pad(d.year, 4) + "-" + Pad(d.month, 2) + "-" + Pad(d.day, 2) + "T"
    + Pad(d.hour, 2) + ":" + Pad(d.minute, 2) + ":" + Pad(d.second, 2) + "."
    + Pad(d.millisecond, 3) + "Z"
  }

  /** The separators and digit fields of the canonical 24-character form. */
  predicate HasIsoShape(s: string) {
    |s| == 24
    && s[4] == '-' && s[7] == '-' && s[10] == 'T' && s[13] == ':'
    && s[16] == ':' && s[19] == '.' && s[23] == 'Z'
    && AllDigits(s[0..4]) && AllDigits(s[5..7]) && AllDigits(s[8..10])
    && AllDigits(s[11..13]) && AllDigits(s[14..16]) && AllDigits(s[17..19])
    && AllDigits(s[20..23])
  }

  /**
   * A recogniser of the 24-character form, standing for `new Date(s)` where a
   * fixed point is possible: the date the string denotes, or `None` when a
   * field is out of its calendar range. It is stricter than the JavaScript
   * engine, which rolls a day past the month's end into the next month and
   * reads hour 24 as the next midnight; those dates never render back to
   * the input, so the fixed points are the same.
   */
  function ParseIso(s: string): Option<DateTime> {
    if HasIsoShape(s) then
      var d := DateTime(DecimalValue(s[0..4]), DecimalValue(s[5..7]), DecimalValue(s[8..10]),
                        DecimalValue(s[11..13]), DecimalValue(s[14..16]), DecimalValue(s[17..19]),
                        DecimalValue(s[20..23]));
      if IsValid(d) then Some(d) else None
    else None
  }

  /** The value parses to a valid date whose `toISOString()` is the value itself. */
  predicate IsFixedPoint(s: string) {
    match ParseIso(s)
    case None => false
    case Some(d) => ToIsoString(d) == s
  }

  /** Rendering a valid date and parsing it back gives the same date. */
  lemma ParseOfIsoString(d: DateTime)
    requires IsValid(d)
    ensures ParseIso(ToIsoString(d)) == Some(d)
  {
    var s := ToIsoString(d);
    assert s[0..4] == Pad(d.year, 4);
    assert s[5..7] == Pad(d.month, 2);
    assert s[8..10] == Pad(d.day, 2);
    assert s[11..13] == Pad(d.hour, 2);
    assert s[14..16] == Pad(d.minute, 2);
    assert s[17..19] == Pad(d.second, 2);
    assert s[20..23] == Pad(d.millisecond, 3);
    DecimalValueOfPad(d.year, 4);
    DecimalValueOfPad(d.month, 2);
    DecimalValueOfPad(d.day, 2);
    DecimalValueOfPad(d.hour, 2);
    DecimalValueOfPad(d.minute, 2);
    DecimalValueOfPad(d.second, 2);
    DecimalValueOfPad(d.millisecond, 3);
  }

  /** Whatever parses is a valid date and is its own canonical rendering. */
  lemma IsoStringOfParse(s: string)
    requires ParseIso(s).Some?
    ensures IsValid(ParseIso(s).value)
    ensures ToIsoString(ParseIso(s).value) == s
  {
    PadOfDecimalValue(s[0..4]);
    PadOfDecimalValue(s[5..7]);
    PadOfDecimalValue(s[8..10]);
    PadOfDecimalValue(s[11..13]);
    PadOfDecimalValue(s[14..16]);
    PadOfDecimalValue(s[17..19]);
    PadOfDecimalValue(s[20..23]);
    assert s == s[0..4] + [s[4]] + s[5..7] + [s[7]] + s[8..10] + [s[10]]
              + s[11..13] + [s[13]] + s[14..16] + [s[16]] + s[17..19] + [s[19]]
              + s[20..23] + [s[23]];
  }

  /** The fixed points are exactly the canonical renderings of valid dates. */
  lemma FixedPointIffCanonical(s: string)
    ensures IsFixedPoint(s) <==> exists d :: IsValid(d) && ToIsoString(d) == s
  {
    if ParseIso(s).Some? {
      IsoStringOfParse(s);
    }
    if exists d :: IsValid(d) && ToIsoString(d) == s {
      var d :| IsValid(d) && ToIsoString(d) == s;
      ParseOfIsoString(d);
    }
  }
}
