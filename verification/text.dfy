/** The few .NET string operations the macro engine relies on, on `seq<char>`. */
module Text {

  /** Upper-case to lower-case for the ASCII letters; every other character is kept. */
  function LowerChar(c: char): char {
    if 'A' <= c <= 'Z' then (c as int + 32) as char else c
  }

  /** `String.Equals(a, b, StringComparison.OrdinalIgnoreCase)`, restricted to ASCII case mapping. */
  predicate EqualsIgnoreCase(a: string, b: string) {
    |a| == |b| && forall i :: 0 <= i < |a| ==> LowerChar(a[i]) == LowerChar(b[i])
  }

  /** Lower-case to upper-case for the ASCII letters; every other character is kept. */
  function UpperChar(c: char): char {
    if 'a' <= c <= 'z' then (c as int - 32) as char else c
  }

  /** `String.ToLower()`, restricted to ASCII case mapping. */
  function ToLower(s: string): (r: string)
    ensures |r| == |s|
    ensures forall i :: 0 <= i < |s| ==> r[i] == LowerChar(s[i])
  {
    seq(|s|, i requires 0 <= i < |s| => LowerChar(s[i]))
  }

  /** Lower-casing `s` gives the lower-case word `w` exactly when `s` is `w` ignoring case. */
  lemma ToLowerIsWord(s: string, w: string)
    requires ToLower(w) == w
    ensures ToLower(s) == w <==> EqualsIgnoreCase(s, w)
  {
    if EqualsIgnoreCase(s, w) {
      forall i | 0 <= i < |s|
        ensures ToLower(s)[i] == w[i]
      {
        assert ToLower(w)[i] == LowerChar(w[i]);
      }
    }
  }

  /** `String.ToUpper()`, restricted to ASCII case mapping. */
  function ToUpper(s: string): (r: string)
    ensures |r| == |s|
    ensures forall i :: 0 <= i < |s| ==> r[i] == UpperChar(s[i])
  {
    seq(|s|, i requires 0 <= i < |s| => UpperChar(s[i]))
  }
  /** An upper-case letter occurs after upper-casing exactly when it occurred in either case. */
  lemma UpperMembership(s: string, x: char)
    requires 'A' <= x <= 'Z'
    ensures x in ToUpper(s) <==> x in s || LowerChar(x) in s
  {
    var u := ToUpper(s);
    if x in u {
      var i :| 0 <= i < |u| && u[i] == x;
      assert s[i] == x || s[i] == LowerChar(x);
    }
    if x in s {
      var i :| 0 <= i < |s| && s[i] == x;
      assert u[i] == x;
    }
    if LowerChar(x) in s {
      var i :| 0 <= i < |s| && s[i] == LowerChar(x);
      assert u[i] == x;
    }
  }


  /** `s.Replace(c.ToString(), "")`: every occurrence of `c` is dropped. */
  function Remove(s: string, c: char): (r: string)
    ensures |r| <= |s|
    ensures c !in r
    ensures forall x :: x in r <==> x in s && x != c
    ensures multiset(r) == multiset(s)[c := 0]
  {
    if |s| == 0 then ""
    else
      assert s == [s[0]] + s[1..];
      (if s[0] == c then "" else [s[0]]) + Remove(s[1..], c)
  }

  /** Removal works piecewise, so the characters kept stay in their order. */
  lemma {:induction false} RemoveAppend(a: string, b: string, c: char)
    ensures Remove(a + b, c) == Remove(a, c) + Remove(b, c)
  {
    if |a| == 0 {
      assert a + b == b;
    } else {
      assert (a + b)[1..] == a[1..] + b;
      RemoveAppend(a[1..], b, c);
    }
  }

  /** A string without `c` is left as it is. */
  lemma {:induction false} RemoveAbsent(s: string, c: char)
    requires c !in s
    ensures Remove(s, c) == s
  {
    if |s| > 0 {
      assert s[0] != c && s == [s[0]] + s[1..];
      RemoveAbsent(s[1..], c);
    }
  }

  /**
   * The white space .NET's number parsing skips around the digits
   * (`NumberStyles.AllowLeadingWhite` and `AllowTrailingWhite`): U+0009 to
   * U+000D and the space.
   */
  predicate IsNumberWhite(c: char) {
    c == ' ' || '\t' <= c <= '\r'
  }

  /**
   * `char.IsWhiteSpace`: the number white space, U+0085 and U+00A0, and the
   * Unicode space, line and paragraph separators.
   */
  predicate IsWhiteSpace(c: char) {
    || IsNumberWhite(c)
    || c == '\U{0085}' || c == '\U{00A0}' || c == '\U{1680}'
    || '\U{2000}' <= c <= '\U{200A}'
    || c == '\U{2028}' || c == '\U{2029}' || c == '\U{202F}' || c == '\U{205F}'
    || c == '\U{3000}'
  }

  function TrimStart(s: string, skip: char -> bool): (r: string)
    ensures |r| <= |s|
    ensures |r| > 0 ==> !skip(r[0])
    ensures r == s[|s| - |r|..]
  {
    if |s| > 0 && skip(s[0]) then TrimStart(s[1..], skip) else s
  }

  function TrimEnd(s: string, skip: char -> bool): (r: string)
    ensures |r| <= |s|
    ensures |r| > 0 ==> !skip(r[|r| - 1])
    ensures r == s[..|r|]
  {
    if |s| > 0 && skip(s[|s| - 1]) then TrimEnd(s[..|s| - 1], skip) else s
  }

  /** Trimming the start stops at the first character `skip` refuses. */
  lemma {:induction false} TrimStartStops(s: string, skip: char -> bool, i: nat)
    requires i < |s| && !skip(s[i])
    ensures |TrimStart(s, skip)| >= |s| - i
  {
    if i > 0 && skip(s[0]) {
      TrimStartStops(s[1..], skip, i - 1);
    }
  }

  /** Trimming the end stops at the last character `skip` refuses. */
  lemma {:induction false} TrimEndStops(s: string, skip: char -> bool, i: nat)
    requires i < |s| && !skip(s[i])
    ensures |TrimEnd(s, skip)| > i
  {
    if i < |s| - 1 && skip(s[|s| - 1]) {
      TrimEndStops(s[..|s| - 1], skip, i);
    }
  }

  /** Drops the characters `skip` accepts from both ends. */
  function Trim(s: string, skip: char -> bool): string {
    TrimEnd(TrimStart(s, skip), skip)
  }

  lemma TrimUntouched(s: string, skip: char -> bool)
    requires |s| > 0 ==> !skip(s[0]) && !skip(s[|s| - 1])
    ensures Trim(s, skip) == s
  {
  }

  /** `pat` occurs in `s` starting at index `i`. */
  predicate OccursAt(s: string, pat: string, i: nat) {
    i + |pat| <= |s| && s[i..i + |pat|] == pat
  }

  predicate Occurs(s: string, pat: string) {
    exists i: nat | i <= |s| :: OccursAt(s, pat, i)
  }

  /**
   * `String.Replace(pat, rep)` with an ordinal comparison: the occurrences
   * of `pat` are found from left to right, and they do not overlap.
   */
  function ReplaceAll(s: string, pat: string, rep: string): string
    requires |pat| > 0
    decreases |s|
  {
    if |s| < |pat| then s
    else if s[..|pat|] == pat then rep + ReplaceAll(s[|pat|..], pat, rep)
    else [s[0]] + ReplaceAll(s[1..], pat, rep)
  }

  /** How many occurrences `ReplaceAll` rewrites: leftmost, non-overlapping. */
  function Count(s: string, pat: string): nat
    requires |pat| > 0
    decreases |s|
  {
    if |s| < |pat| then 0
    else if s[..|pat|] == pat then 1 + Count(s[|pat|..], pat)
    else Count(s[1..], pat)
  }

  /** `c` copies of `d` added up. */
  function Repeated(c: nat, d: int): int {
    if c == 0 then 0 else d + Repeated(c - 1, d)
  }

  lemma {:induction false} RepeatedIsProduct(c: nat, d: int)
    ensures Repeated(c, d) == c * d
  {
    if c > 0 {
      RepeatedIsProduct(c - 1, d);
      assert c * d == (c - 1) * d + d;
    }
  }

  lemma {:induction false} ReplaceAllShift(s: string, pat: string, rep: string)
    requires |pat| > 0
    ensures |ReplaceAll(s, pat, rep)| == |s| + Repeated(Count(s, pat), |rep| - |pat|)
    decreases |s|
  {
    if |s| < |pat| {
    } else if s[..|pat|] == pat {
      ReplaceAllShift(s[|pat|..], pat, rep);
    } else {
      ReplaceAllShift(s[1..], pat, rep);
    }
  }

  /** Every rewritten occurrence changes the length by `|rep| - |pat|`. */
  lemma ReplaceAllLength(s: string, pat: string, rep: string)
    requires |pat| > 0
    ensures |ReplaceAll(s, pat, rep)| == |s| + Count(s, pat) * (|rep| - |pat|)
  {
    ReplaceAllShift(s, pat, rep);
    RepeatedIsProduct(Count(s, pat), |rep| - |pat|);
  }

  /** A prefix without the pattern's first character is copied through untouched. */
  lemma {:induction false} ReplaceAllPrefix(a: string, b: string, pat: string, rep: string)
    requires |pat| > 0 && pat[0] !in a
    ensures ReplaceAll(a + b, pat, rep) == a + ReplaceAll(b, pat, rep)
    decreases |a|
  {
    if |a| > 0 {
      var s := a + b;
      assert s[0] == a[0] && s[1..] == a[1..] + b;
      if |s| >= |pat| {
        assert s[..|pat|][0] == a[0];
        ReplaceAllPrefix(a[1..], b, pat, rep);
        assert [a[0]] + (a[1..] + ReplaceAll(b, pat, rep)) == a + ReplaceAll(b, pat, rep);
      } else {
        assert ReplaceAll(b, pat, rep) == b;
      }
    } else {
      assert a + b == b;
    }
  }

  /** An occurrence at the very start is rewritten and the scan resumes after it. */
  lemma ReplaceAllHead(b: string, pat: string, rep: string)
    requires |pat| > 0
    ensures ReplaceAll(pat + b, pat, rep) == rep + ReplaceAll(b, pat, rep)
  {
    var s := pat + b;
    assert s[..|pat|] == pat && s[|pat|..] == b;
  }

  /** The leftmost scan finds an occurrence exactly when there is one. */
  lemma {:induction false} CountPositiveIffOccurs(s: string, pat: string)
    requires |pat| > 0
    ensures Count(s, pat) > 0 <==> Occurs(s, pat)
    decreases |s|
  {
    if |s| < |pat| {
    } else if s[..|pat|] == pat {
      assert OccursAt(s, pat, 0);
    } else {
      var t := s[1..];
      CountPositiveIffOccurs(t, pat);
      if Occurs(s, pat) {
        var i: nat :| i <= |s| && OccursAt(s, pat, i);
        OccursDropFirst(s, pat, i);
      }
      if Occurs(t, pat) {
        var i: nat :| i <= |t| && OccursAt(t, pat, i);
        OccursAddFirst(s, pat, i);
      }
    }
  }

  /** An occurrence past the first character is one in the tail. */
  lemma OccursDropFirst(s: string, pat: string, i: nat)
    requires |pat| > 0 && 0 < |s| && OccursAt(s, pat, i) && s[..|pat|] != pat
    ensures i > 0 && OccursAt(s[1..], pat, i - 1)
  {
    assert i != 0;
    assert s[1..][i - 1..i - 1 + |pat|] == s[i..i + |pat|];
  }

  /** An occurrence in the tail is one in the whole string, one place later. */
  lemma OccursAddFirst(s: string, pat: string, i: nat)
    requires 0 < |s| && OccursAt(s[1..], pat, i)
    ensures OccursAt(s, pat, i + 1)
  {
    assert s[i + 1..i + 1 + |pat|] == s[1..][i..i + |pat|];
  }

  /**
   * The first `m` characters of a result that holds no replacement character
   * there were copied from the input unchanged.
   */
  lemma {:induction false} ReplaceAllPrefixKept(t: string, pat: string, rep: string, m: nat)
    requires |pat| > 0 && |rep| > 0
    ensures var r := ReplaceAll(t, pat, rep);
      (m <= |r| && forall k :: 0 <= k < m ==> r[k] !in rep) ==> m <= |t| && r[..m] == t[..m]
    decreases |t|
  {
    var r := ReplaceAll(t, pat, rep);
    if |t| < |pat| {
    } else if t[..|pat|] == pat {
      assert r == rep + ReplaceAll(t[|pat|..], pat, rep);
      assert r[0] == rep[0];
    } else if 0 < m <= |r| && forall k :: 0 <= k < m ==> r[k] !in rep {
      var rest := ReplaceAll(t[1..], pat, rep);
      assert r == [t[0]] + rest;
      forall k | 0 <= k < m - 1
        ensures rest[k] !in rep
      {
        assert rest[k] == r[k + 1];
      }
      ReplaceAllPrefixKept(t[1..], pat, rep, m - 1);
      assert r[..m] == [t[0]] + rest[..m - 1];
      assert t[..m] == [t[0]] + t[1..][..m - 1];
    }
  }

  /** An occurrence that starts past `a` lies in `b`. */
  lemma OccursInSuffix(a: string, b: string, pat: string, i: nat)
    requires |a| <= i
    ensures OccursAt(a + b, pat, i) ==> OccursAt(b, pat, i - |a|)
  {
    if OccursAt(a + b, pat, i) {
      assert (a + b)[i..i + |pat|] == b[i - |a|..i - |a| + |pat|];
    }
  }

  /** An occurrence that starts inside `a` starts with a character of `a`. */
  lemma OccursInPrefix(a: string, b: string, pat: string, i: nat)
    requires i < |a| && |pat| > 0
    ensures OccursAt(a + b, pat, i) ==> pat[0] in a
  {
    if OccursAt(a + b, pat, i) {
      assert pat[0] == (a + b)[i..i + |pat|][0] == a[i];
    }
  }

  /**
   * Where the input does not start with the pattern, the result does not
   * either, as long as no character of the pattern comes from the replacement.
   */
  lemma NotAtStart(s: string, pat: string, rep: string)
    requires |pat| > 0 && |rep| > 0
    requires forall k :: 0 <= k < |pat| ==> pat[k] !in rep
    requires |pat| <= |s| ==> s[..|pat|] != pat
    ensures !OccursAt(ReplaceAll(s, pat, rep), pat, 0)
  {
    var r := ReplaceAll(s, pat, rep);
    ReplaceAllPrefixKept(s, pat, rep, |pat|);
    if |pat| <= |r| && r[..|pat|] == pat {
      assert forall k :: 0 <= k < |pat| ==> r[k] == pat[k];
    }
  }

  /**
   * When the pattern shares no character with a non-empty replacement, no
   * occurrence of the pattern is left after replacing.
   */
  lemma {:induction false} ReplaceAllLeavesNone(s: string, pat: string, rep: string)
    requires |pat| > 0 && |rep| > 0
    requires forall k :: 0 <= k < |pat| ==> pat[k] !in rep
    ensures !Occurs(ReplaceAll(s, pat, rep), pat)
    decreases |s|
  {
    var r := ReplaceAll(s, pat, rep);
    if |s| < |pat| {
      assert r == s;
    } else if s[..|pat|] == pat {
      var rest := ReplaceAll(s[|pat|..], pat, rep);
      ReplaceAllLeavesNone(s[|pat|..], pat, rep);
      assert r == rep + rest;
      forall i: nat | i <= |r|
        ensures !OccursAt(r, pat, i)
      {
        if i < |rep| {
          OccursInPrefix(rep, rest, pat, i);
        } else {
          OccursInSuffix(rep, rest, pat, i);
        }
      }
    } else {
      var rest := ReplaceAll(s[1..], pat, rep);
      ReplaceAllLeavesNone(s[1..], pat, rep);
      assert r == [s[0]] + rest;
      NotAtStart(s, pat, rep);
      forall i: nat | i <= |r|
        ensures !OccursAt(r, pat, i)
      {
        if i > 0 {
          OccursInSuffix([s[0]], rest, pat, i);
        }
      }
    }
  }

  /**
   * When the replacement differs in length from the pattern, the string is
   * left unchanged exactly when the pattern does not occur in it.
   */
  lemma ReplaceAllUnchangedIff(s: string, pat: string, rep: string)
    requires |pat| > 0 && |rep| != |pat|
    ensures ReplaceAll(s, pat, rep) == s <==> !Occurs(s, pat)
  {
    CountPositiveIffOccurs(s, pat);
    if !Occurs(s, pat) {
      ReplaceAllAbsent(s, pat, rep);
    } else {
      ReplaceAllLength(s, pat, rep);
      var c := Count(s, pat);
      var d := |rep| - |pat|;
      NonZeroProduct(c, d);
      assert |ReplaceAll(s, pat, rep)| != |s|;
    }
  }

  lemma {:induction false} ReplaceAllAbsent(s: string, pat: string, rep: string)
    requires |pat| > 0 && Count(s, pat) == 0
    ensures ReplaceAll(s, pat, rep) == s
    decreases |s|
  {
    if |s| < |pat| {
    } else {
      assert s[..|pat|] != pat;
      ReplaceAllAbsent(s[1..], pat, rep);
      assert [s[0]] + s[1..] == s;
    }
  }

  lemma NonZeroProduct(c: int, d: int)
    requires c > 0 && d != 0
    ensures c * d != 0
  {
    if d > 0 {
      assert c * d >= d;
    } else {
      assert c * d <= d;
    }
  }
}
