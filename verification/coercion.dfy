/**
 * The .NET conversions the style mapper applies to a boxed style value:
 * `object.ToString()`, `Convert.ToInt32(object)` and `Convert.ToBoolean(object)`.
 * `None` stands for the exception the conversion throws.
 */
module Coercion {
  import opened Wrappers
  import opened Int32
  import opened Models
  import opened Runtime
  import Text

  /** `object.ToString()` of a boxed style value. */
  function ToText(env: Env, v: StyleValue): string {
    match v
    case Text(s) => s
    case Integer(n) => Int32.ToString(n)
    case Boolean(b) => if b then "True" else "False"
    case Real(d) => env.doubleToString(d)
  }

  /** A double is zero when its bits are +0.0 or -0.0; NaN is not zero. */
  predicate IsZero(d: Double) {
    d.bits == 0 || d.bits == 0x8000_0000_0000_0000
  }

  /**
   * `Boolean.Parse`: "True" or "False" in any letter case, with the characters
   * `char.IsWhiteSpace` accepts and NUL characters around it ignored.
   */
  function ParseBoolean(s: string): (r: Option<bool>)
    ensures r == Some(true) <==> Text.EqualsIgnoreCase(Text.Trim(s, SkipInBoolean), "true")
    ensures r == Some(false) <==> Text.EqualsIgnoreCase(Text.Trim(s, SkipInBoolean), "false")
    ensures r.Some? ==> |Text.Trim(s, SkipInBoolean)| in {4, 5}
  {
    var trimmed := Text.Trim(s, SkipInBoolean);
    BooleanWordsLower();
    Text.ToLowerIsWord(trimmed, "true");
    Text.ToLowerIsWord(trimmed, "false");
    var t := Text.ToLower(trimmed);
    if t == "true" then Some(true) else if t == "false" then Some(false) else None
  }

  lemma BooleanWordsLower()
    ensures Text.ToLower("true") == "true" && Text.ToLower("false") == "false"
  {
    assert Text.ToLower("true") == "true" by {
      var l := Text.ToLower("true");
      assert l[0] == 't' && l[1] == 'r' && l[2] == 'u' && l[3] == 'e';
    }
    assert Text.ToLower("false") == "false" by {
      var l := Text.ToLower("false");
      assert l[0] == 'f' && l[1] == 'a' && l[2] == 'l' && l[3] == 's' && l[4] == 'e';
    }
  }

  /**
   * What `Boolean.Parse` trims: every `char.IsWhiteSpace` character, a wider
   * set than the number white space `Int32.Parse` skips, and NUL.
   */
  predicate SkipInBoolean(c: char) {
    Text.IsWhiteSpace(c) || c == '\0'
  }

  /** `Convert.ToInt32(object)`. */
  function ToInt32(env: Env, v: StyleValue): Option<int32> {
    match v
    case Text(s) => Int32.Parse(s)
    case Integer(n) => Some(n)
    case Boolean(b) => Some(if b then 1 else 0)
    case Real(d) => env.doubleToInt32(d)
  }

  /** `Convert.ToBoolean(object)`. */
  function ToBoolean(v: StyleValue): Option<bool> {
    match v
    case Text(s) => ParseBoolean(s)
    case Integer(n) => Some(n != 0)
    case Boolean(b) => Some(b)
    case Real(d) => Some(!IsZero(d))
  }

  /** An integer written as text converts back to the same integer. */
  lemma ToInt32OfText(env: Env, n: int32)
    ensures ToInt32(env, Text(ToText(env, Integer(n)))) == Some(n)
  {
    Int32.ParseToString(n);
  }

  /** A boolean written as text converts back to the same boolean. */
  lemma ToBooleanOfText(env: Env, b: bool)
    ensures ToBoolean(Text(ToText(env, Boolean(b)))) == Some(b)
  {
    var s := ToText(env, Boolean(b));
    Text.TrimUntouched(s, SkipInBoolean);
  }

  /** The word true converts from text whatever its letter case. */
  lemma ToBooleanOfWord(s: string)
    requires Text.ToLower(s) == "true"
    ensures ToBoolean(Text(s)) == Some(true)
  {
    assert Text.LowerChar(s[0]) == 't' && Text.LowerChar(s[3]) == 'e';
    Text.TrimUntouched(s, SkipInBoolean);
  }

  /**
   * A leading white-space character, Unicode spaces such as U+00A0 included, or
   * NUL does not change what text converts to.
   */
  lemma ToBooleanSkipsLeading(c: char, s: string)
    requires Text.IsWhiteSpace(c) || c == '\0'
    ensures ToBoolean(Text([c] + s)) == ToBoolean(Text(s))
  {
    assert ([c] + s)[1..] == s;
    assert Text.TrimStart([c] + s, SkipInBoolean) == Text.TrimStart(s, SkipInBoolean);
  }

  /** A no-break space before the word true is skipped: the text converts to true. */
  lemma ToBooleanAfterNoBreakSpace(w: string)
    requires Text.ToLower(w) == "true"
    ensures ToBoolean(Text(['\U{00A0}'] + w)) == Some(true)
  {
    ToBooleanSkipsLeading('\U{00A0}', w);
    ToBooleanOfWord(w);
  }
}
