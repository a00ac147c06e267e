/** The `yyyyMMdd_HHmmss` stamp that replaces `{timestamp}` in export paths. */
module Timestamp {
  import opened Wrappers
  import Decimal

  /** A local date and time of day, to the second. */
  datatype DateTime = DateTime(year: int, month: int, day: int, hour: int, minute: int, second: int)

  /** The ranges a .NET `DateTime` keeps its fields in. */
  predicate Valid(d: DateTime) {
    && 1 <= d.year <= 9999
    && 1 <= d.month <= 12
    && 1 <= d.day <= 31
    && 0 <= d.hour <= 23
    && 0 <= d.minute <= 59
    && 0 <= d.second <= 59
  }

  type Instant = d: DateTime | Valid(d) witness DateTime(2000, 1, 1, 0, 0, 0)

  const Placeholder: string := "{timestamp}"

  /** `DateTime.ToString("yyyyMMdd_HHmmss")`: fixed-width, zero-padded, 24-hour clock. */
  function Format(d: Instant): (s: string)
    ensures |s| == 15
    ensures s[8] == '_'
    ensures forall i :: 0 <= i < 15 && i != 8 ==> Decimal.IsDigit(s[i])
  {
    Decimal.Fixed(d.year, 4) + Decimal.Fixed(d.month, 2) + Decimal.Fixed(d.day, 2) + "_"
    + Decimal.Fixed(d.hour, 2) + Decimal.Fixed(d.minute, 2) + Decimal.Fixed(d.second, 2)
  }

  /** Reads a stamp back into its fields: the inverse of `Format`. */
  function Parse(s: string): Option<DateTime> {
    if |s| == 15 && s[8] == '_' && Decimal.AllDigits(s[..8]) && Decimal.AllDigits(s[9..]) then
      Some(DateTime(
        Decimal.Value(s[0..4]), Decimal.Value(s[4..6]), Decimal.Value(s[6..8]),
        Decimal.Value(s[9..11]), Decimal.Value(s[11..13]), Decimal.Value(s[13..15])))
    else None
  }

  /** The stamp determines the instant it was formatted from. */
  lemma ParseFormat(d: Instant)
    ensures Parse(Format(d)) == Some(d)
  {
    var s := Format(d);
    var head := Decimal.Fixed(d.year, 4) + Decimal.Fixed(d.month, 2) + Decimal.Fixed(d.day, 2) + "_"
      + Decimal.Fixed(d.hour, 2) + Decimal.Fixed(d.minute, 2);
    assert s == head + Decimal.Fixed(d.second, 2) && |head| == 13;
    assert s[0..4] == Decimal.Fixed(d.year, 4);
    assert s[4..6] == Decimal.Fixed(d.month, 2);
    assert s[6..8] == Decimal.Fixed(d.day, 2);
    assert s[9..11] == Decimal.Fixed(d.hour, 2);
    assert s[11..13] == Decimal.Fixed(d.minute, 2);
    assert s[13..15] == Decimal.Fixed(d.second, 2);
    Decimal.FixedValue(d.year, 4);
    Decimal.FixedValue(d.month, 2);
    Decimal.FixedValue(d.day, 2);
    Decimal.FixedValue(d.hour, 2);
    Decimal.FixedValue(d.minute, 2);
    Decimal.FixedValue(d.second, 2);
    assert Decimal.AllDigits(s[..8]) && Decimal.AllDigits(s[9..]);
  }

  /** Two different instants never share a stamp. */
  lemma FormatInjective(d1: Instant, d2: Instant)
    requires Format(d1) == Format(d2)
    ensures d1 == d2
  {
    ParseFormat(d1);
    ParseFormat(d2);
  }
}
