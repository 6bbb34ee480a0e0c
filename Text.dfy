/**
 * String operations the scripts use: ASCII case folding and substring search
 * (`str.contains(..., case=False)`), `startswith`/`endswith`, `', '.join`,
 * `str.replace`, and decimal rendering of integers inside f-strings.
 */
module Text {

  /** ASCII lower-casing of one character; every other character is unchanged. */
  function LowerChar(c: char): char {
    if 'A' <= c <= 'Z' then (c as int + 32) as char else c
  }

  function Lower(s: string): (r: string)
    ensures |r| == |s|
    ensures forall i :: 0 <= i < |s| ==> r[i] == LowerChar(s[i])
  {
    seq(|s|, i requires 0 <= i < |s| => LowerChar(s[i]))
  }

  predicate StartsWith(s: string, prefix: string) {
    |prefix| <= |s| && s[..|prefix|] == prefix
  }

  predicate EndsWith(s: string, suffix: string) {
    |suffix| <= |s| && s[|s| - |suffix|..] == suffix
  }

  /** `needle` occurs in `hay` as a contiguous run starting at position `i`. */
  predicate OccursAt(hay: string, needle: string, i: int) {
    0 <= i && i + |needle| <= |hay| && hay[i..i + |needle|] == needle
  }

  /** `needle in hay`. */
  predicate Contains(hay: string, needle: string) {
    exists i | 0 <= i <= |hay| :: OccursAt(hay, needle, i)
  }

  /** Substring search that ignores the case of ASCII letters. */
  predicate ContainsIgnoreCase(hay: string, needle: string) {
    Contains(Lower(hay), Lower(needle))
  }

  /** `sep.join(parts)`. */
  function Join(parts: seq<string>, sep: string): string {
    if |parts| == 0 then ""
    else if |parts| == 1 then parts[0]
    else parts[0] + sep + Join(parts[1..], sep)
  }

  /** `c * n` for a one-character string `c`. */
  function Repeat(c: char, n: nat): (r: string)
    ensures |r| == n && forall i :: 0 <= i < n ==> r[i] == c
  {
    seq(n, _ => c)
  }

  /** `s.replace(pat, rep)`: every non-overlapping occurrence, scanning left to right. */
  function ReplaceAll(s: string, pat: string, rep: string): string
    requires |pat| > 0
    decreases |s|
  {
    if |s| == 0 then ""
    else if StartsWith(s, pat) then rep + ReplaceAll(s[|pat|..], pat, rep)
    else [s[0]] + ReplaceAll(s[1..], pat, rep)
  }

  /** A string in which the pattern does not occur is left unchanged by `replace`. */
  lemma {:induction false} ReplaceAllAbsent(s: string, pat: string, rep: string)
    requires |pat| > 0 && !Contains(s, pat)
    ensures ReplaceAll(s, pat, rep) == s
    decreases |s|
  {
    if |s| > 0 {
      assert !OccursAt(s, pat, 0);
      assert !StartsWith(s, pat);
      forall i | OccursAt(s[1..], pat, i) ensures OccursAt(s, pat, i + 1) {
        assert s[1..][i..i + |pat|] == s[i + 1..i + 1 + |pat|];
      }
      ReplaceAllAbsent(s[1..], pat, rep);
      assert s == [s[0]] + s[1..];
    }
  }

  /**
   * When the first character of the pattern does not occur in `u`, replacing
   * the pattern in `u + pat` touches only the final occurrence.
   */
  lemma {:induction false} ReplaceAllTrailing(u: string, pat: string, rep: string)
    requires |pat| > 0 && pat[0] !in u
    ensures ReplaceAll(u + pat, pat, rep) == u + rep
    decreases |u|
  {
    if u == [] {
      assert [] + pat == pat;
      assert pat[|pat|..] == [];
    } else {
      var s := u + pat;
      assert s[0] == u[0] && u[0] != pat[0];
      assert !StartsWith(s, pat);
      assert s[1..] == u[1..] + pat;
      ReplaceAllTrailing(u[1..], pat, rep);
      assert u == [u[0]] + u[1..];
    }
  }

  /** The number of occurrences of a character. */
  function CountChar(s: string, c: char): (n: nat)
    ensures n <= |s|
  {
    if s == [] then 0 else (if s[0] == c then 1 else 0) + CountChar(s[1..], c)
  }

  /** A one-character pattern occurs exactly where its character does. */
  lemma NoCharNoOccurrence(s: string, c: char)
    requires c !in s
    ensures !Contains(s, [c])
  {
    forall i | 0 <= i <= |s| ensures !OccursAt(s, [c], i) {
      if i + 1 <= |s| {
        assert s[i..i + 1][0] == s[i];
      }
    }
  }

  /** Replacing a one-character pattern handles the first character, then the rest. */
  lemma ReplaceCharStep(s: string, a: char, rep: string)
    requires |s| > 0
    ensures ReplaceAll(s, [a], rep) == (if s[0] == a then rep else [s[0]]) + ReplaceAll(s[1..], [a], rep)
  {
    assert s[..1] == [s[0]];
  }

  /**
   * `s.replace(a, b)` for single characters: every `a` becomes `b`, nothing
   * else changes, so `a` is gone (when `a != b`) and every other character keeps its count.
   */
  lemma {:induction false} ReplaceCharFacts(s: string, a: char, b: char)
    ensures |ReplaceAll(s, [a], [b])| == |s|
    ensures a != b ==> a !in ReplaceAll(s, [a], [b])
    ensures forall c :: c != a && c != b ==> CountChar(ReplaceAll(s, [a], [b]), c) == CountChar(s, c)
    decreases |s|
  {
    if s != [] {
      assert StartsWith(s, [a]) <==> s[0] == a by {
        assert s[..1] == [s[0]];
      }
      ReplaceCharFacts(s[1..], a, b);
      var r := ReplaceAll(s, [a], [b]);
      var t := ReplaceAll(s[1..], [a], [b]);
      assert r == [if s[0] == a then b else s[0]] + t;
      assert r[1..] == t;
    }
  }

  /**
   * `s.replace(a, '')` for a single character: every `a` is deleted, so the
   * length drops by the number of `a`s and no new character appears.
   */
  lemma {:induction false} DeleteCharFacts(s: string, a: char)
    ensures a !in ReplaceAll(s, [a], [])
    ensures |ReplaceAll(s, [a], [])| == |s| - CountChar(s, a)
    ensures forall c :: c in ReplaceAll(s, [a], []) ==> c in s
    decreases |s|
  {
    if s != [] {
      assert StartsWith(s, [a]) <==> s[0] == a by {
        assert s[..1] == [s[0]];
      }
      DeleteCharFacts(s[1..], a);
      var t := ReplaceAll(s[1..], [a], []);
      if s[0] == a {
        assert ReplaceAll(s, [a], []) == [] + t;
      } else {
        assert ReplaceAll(s, [a], []) == [s[0]] + t;
      }
    }
  }

  predicate IsDigit(c: char) {
    '0' <= c <= '9'
  }

  predicate AllDigits(s: string) {
    forall i :: 0 <= i < |s| ==> IsDigit(s[i])
  }

  function DigitChar(d: nat): (c: char)
    requires d < 10
    ensures IsDigit(c)
  {
    ('0' as int + d) as char
  }

  /** Decimal rendering of a non-negative integer, as `f"{n}"` prints it (no leading zeros). */
  function NatToString(n: nat): (r: string)
    ensures |r| >= 1 && AllDigits(r)
    ensures |r| > 1 ==> r[0] != '0'
    decreases n
  {
    if n < 10 then [DigitChar(n)] else NatToString(n / 10) + [DigitChar(n % 10)]
  }

  /** The number a string of decimal digits denotes. */
  function DigitsValue(s: string): nat
    requires AllDigits(s)
  {
    if s == [] then 0 else DigitsValue(s[..|s| - 1]) * 10 + (s[|s| - 1] as int - '0' as int)
  }

  /** Reading back the decimal rendering gives the number. */
  lemma {:induction false} NatToStringRoundTrip(n: nat)
    ensures DigitsValue(NatToString(n)) == n
    decreases n
  {
    if n >= 10 {
      NatToStringRoundTrip(n / 10);
      var r := NatToString(n);
      assert r[..|r| - 1] == NatToString(n / 10);
    }
  }

  /** The longest prefix of `s` made of decimal digits. */
  function LeadingDigits(s: string): (r: string)
    ensures AllDigits(r) && |r| <= |s| && r == s[..|r|]
  {
    if s == [] || !IsDigit(s[0]) then [] else [s[0]] + LeadingDigits(s[1..])
  }

  /** The leading digits of `d + rest` are `d` when `rest` does not start with a digit. */
  lemma {:induction false} LeadingDigitsOf(d: string, rest: string)
    requires AllDigits(d)
    requires rest == [] || !IsDigit(rest[0])
    ensures LeadingDigits(d + rest) == d
  {
    if d == [] {
      assert [] + rest == rest;
    } else {
      assert (d + rest)[1..] == d[1..] + rest;
      LeadingDigitsOf(d[1..], rest);
      assert d == [d[0]] + d[1..];
    }
  }
}
