/** C#'s 32-bit `int`: its range, unchecked wrap-around, `ToString` and `Int32.Parse`. */
module Int32 {
  import opened Wrappers
  import Text
  import Decimal

  const Min: int := -0x8000_0000
  const Max: int := 0x7FFF_FFFF
  const Modulus: int := 0x1_0000_0000

  type int32 = x: int | Min <= x <= Max

  /** Reduction into the `int` range, as unchecked two's-complement arithmetic does. */
  function Wrap(x: int): (r: int32)
    ensures (x - r) % Modulus == 0
    ensures Min <= x <= Max ==> r == x
  {
    (x - Min) % Modulus + Min
  }

  /** Two numbers that agree modulo 2^32 wrap to the same `int`. */
  lemma WrapCongruent(a: int, b: int)
    requires (a - b) % Modulus == 0
    ensures Wrap(a) == Wrap(b)
  {
    var ra, rb := Wrap(a), Wrap(b);
    var k := (ra - rb) / Modulus;
    assert (ra - rb) % Modulus == 0 by {
      ModSum(a - ra, b - rb, a - b);
    }
    assert ra - rb == k * Modulus;
  }

  lemma ModSum(x: int, y: int, z: int)
    requires x % Modulus == 0 && y % Modulus == 0 && z % Modulus == 0
    ensures (z - x + y) % Modulus == 0
  {
    var qx, qy, qz := x / Modulus, y / Modulus, z / Modulus;
    assert z - x + y == (qz - qx + qy) * Modulus;
  }

  /** `a - b` in an unchecked C# context. */
  function Sub(a: int32, b: int32): int32 {
    Wrap(a - b)
  }

  /** `a + b` in an unchecked C# context. */
  function Add(a: int32, b: int32): int32 {
    Wrap(a + b)
  }

  /** A wrapped difference added back to its base gives the minuend again. */
  lemma AddSubCancel(a: int32, b: int32)
    ensures Add(a, Sub(b, a)) == b
  {
    var d := Sub(b, a);
    assert (a + d - b) % Modulus == 0 by {
      assert ((b - a) - d) % Modulus == 0;
      var q := ((b - a) - d) / Modulus;
      assert a + d - b == -q * Modulus;
    }
    WrapCongruent(a + d, b);
  }

  /** `Int32.ToString()` with the invariant culture: an optional '-' then the digits. */
  function ToString(n: int32): string {
    if n < 0 then "-" + Decimal.Digits(-(n as int)) else Decimal.Digits(n)
  }

  /**
   * `Int32.Parse(s)` with `NumberStyles.Integer`: leading number white space,
   * an optional sign, at least one digit, trailing number white space, and
   * then any number of NUL characters, which .NET accepts at the very end;
   * `None` where .NET throws a `FormatException` or an `OverflowException`.
   */
  function Parse(s: string): Option<int32> {
    ParseTrimmed(Text.Trim(Text.TrimEnd(s, IsNul), Text.IsNumberWhite))
  }

  predicate IsNul(c: char) {
    c == '\0'
  }

  /** `Parse` once the surrounding white space is gone. */
  function ParseTrimmed(t: string): Option<int32> {
    var signed := |t| > 0 && (t[0] == '-' || t[0] == '+');
    var body := if signed then t[1..] else t;
    if |body| == 0 || !Decimal.AllDigits(body) then None
    else
      var v: int := if signed && t[0] == '-' then 0 - (Decimal.Value(body) as int) else Decimal.Value(body);
      if Min <= v <= Max then Some(v) else None
  }

  lemma ParseUnsigned(digits: string)
    requires |digits| > 0 && Decimal.AllDigits(digits) && Decimal.Value(digits) <= Max
    ensures ParseTrimmed(digits) == Some(Decimal.Value(digits))
  {
    assert Decimal.IsDigit(digits[0]);
  }

  lemma ParseNegative(digits: string)
    requires |digits| > 0 && Decimal.AllDigits(digits) && Decimal.Value(digits) <= -Min
    ensures ParseTrimmed("-" + digits) == Some(0 - Decimal.Value(digits))
  {
    var t := "-" + digits;
    assert t[0] == '-' && t[1..] == digits;
  }

  /** Parsing what `ToString` wrote gives the number back. */
  lemma ParseToString(n: int32)
    ensures Parse(ToString(n)) == Some(n)
  {
    var m: nat := if n < 0 then 0 - n else n;
    var digits := Decimal.Digits(m);
    Decimal.DigitsValue(m);
    var s := ToString(n);
    assert s == (if n < 0 then "-" else "") + digits;
    assert Decimal.IsDigit(digits[|digits| - 1]) && s[|s| - 1] == digits[|digits| - 1];
    assert n >= 0 ==> Decimal.IsDigit(s[0]);
    assert Text.TrimEnd(s, IsNul) == s;
    Text.TrimUntouched(s, Text.IsNumberWhite);
    if n < 0 {
      ParseNegative(digits);
    } else {
      ParseUnsigned(digits);
    }
  }

  /** A NUL at the very end does not change what parses. */
  lemma ParseTrailingNul(s: string)
    ensures Parse(s + "\0") == Parse(s)
  {
    var u := s + "\0";
    assert u[..|u| - 1] == s;
  }

  /** A NUL before the trailing white space is not skipped: the text does not parse. */
  lemma ParseNulBeforeWhite(s: string)
    ensures Parse(s + "\0 ") == None
  {
    var u := s + "\0 ";
    assert Text.TrimEnd(u, IsNul) == u;
    var r := Text.TrimStart(u, Text.IsNumberWhite);
    Text.TrimStartStops(u, Text.IsNumberWhite, |s|);
    assert r[|r| - 2] == '\0' && r[|r| - 1] == ' ';
    var t := Text.TrimEnd(r, Text.IsNumberWhite);
    assert t == r[..|r| - 1] by {
      assert Text.TrimEnd(r[..|r| - 1], Text.IsNumberWhite) == r[..|r| - 1];
    }
    assert t[|t| - 1] == '\0' && !Decimal.IsDigit(t[|t| - 1]);
  }

  /** A no-break space is not number white space: text that starts with one does not parse. */
  lemma ParseNoBreakSpace(s: string)
    ensures Parse(['\U{00A0}'] + s) == None
  {
    var u := ['\U{00A0}'] + s;
    Text.TrimEndStops(u, IsNul, 0);
    var v := Text.TrimEnd(u, IsNul);
    assert v[0] == '\U{00A0}';
    var r := Text.TrimStart(v, Text.IsNumberWhite);
    assert r == v;
    var t := Text.TrimEnd(r, Text.IsNumberWhite);
    Text.TrimEndStops(r, Text.IsNumberWhite, 0);
    assert t[0] == '\U{00A0}' && !Decimal.IsDigit(t[0]);
  }
}
