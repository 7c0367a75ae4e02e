/**
 * Character classes and string helpers shared by the ETL (Python) and the
 * API (TypeScript) parts of the model.
 */
module Text {

  /** Python's str.lower() on one character, exact for code points below U+0100:
      A-Z and the Latin-1 capitals U+00C0..U+00DE (except U+00D7, the
      multiplication sign) move up by 0x20. Other characters are left as they are. */
  function Lower(c: char): char
  {
    if IsUpperLatin1(c) then (c as int + 0x20) as char
    else c
  }

  /** Lower moves exactly the capitals below U+0100 up by 0x20 and leaves
      every other character below U+0100 as it is. */
  lemma LowerMapping(c: char)
    ensures IsUpperLatin1(c) ==> Lower(c) as int == c as int + 0x20
    ensures !IsUpperLatin1(c) && c < '\U{100}' ==> Lower(c) == c
    ensures 'A' <= c <= 'Z' ==> 'a' <= Lower(c) <= 'z'
  {
  }

  /** The capitals below U+0100 that str.lower() changes. */
  predicate IsUpperLatin1(c: char)
  {
    'A' <= c <= 'Z' || ('\U{C0}' <= c <= '\U{DE}' && c != '\U{D7}')
  }

  /** Lowering twice is lowering once, and leaves no capital below U+0100. */
  lemma LowerIdempotent(c: char)
    requires c < '\U{100}'
    ensures !IsUpperLatin1(Lower(c)) && Lower(Lower(c)) == Lower(c)
  {
  }

  function LowerString(s: string): (r: string)
    ensures |r| == |s|
    ensures forall i :: 0 <= i < |s| ==> r[i] == Lower(s[i])
  {
    if s == [] then [] else [Lower(s[0])] + LowerString(s[1..])
  }


  /** Python's str.isspace(), which is what `\s` and str.strip() use on str values. */
  predicate IsPySpace(c: char)
  {
    c == ' ' || '\t' <= c <= '\r' || '\U{1C}' <= c <= '\U{1F}' || c == '\U{85}' || c == '\U{A0}'
    || c == '\U{1680}' || '\U{2000}' <= c <= '\U{200A}' || c == '\U{2028}' || c == '\U{2029}'
    || c == '\U{202F}' || c == '\U{205F}' || c == '\U{3000}'
  }

  /** ECMAScript WhiteSpace and LineTerminator: the class `\s` of a JavaScript
      regular expression and the leading blanks that parseInt skips. */
  predicate IsJsSpace(c: char)
  {
    c == ' ' || '\t' <= c <= '\r' || c == '\U{A0}' || c == '\U{1680}'
    || '\U{2000}' <= c <= '\U{200A}' || c == '\U{2028}' || c == '\U{2029}'
    || c == '\U{202F}' || c == '\U{205F}' || c == '\U{3000}' || c == '\U{FEFF}'
  }

  predicate IsDigit(c: char) { '0' <= c <= '9' }

  /** `pat` occurs in `s` starting at position i. */
  predicate OccursAt(s: string, pat: string, i: int)
  {
    0 <= i && i + |pat| <= |s| && s[i..i + |pat|] == pat
  }

  /** The characters pat[j..] are found in `s` from position i + j on. */
  predicate MatchesAt(s: string, pat: string, i: nat, j: nat)
    requires j <= |pat|
    decreases |pat| - j
  {
    j == |pat| || (i + j < |s| && s[i + j] == pat[j] && MatchesAt(s, pat, i, j + 1))
  }

  /** Substring search by scanning the start positions from i on: the shape of
      `re.search` for a literal word. */
  predicate ContainsFrom(s: string, pat: string, i: nat)
    decreases |s| - i
  {
    if i + |pat| > |s| then false
    else MatchesAt(s, pat, i, 0) || ContainsFrom(s, pat, i + 1)
  }

  predicate Contains(s: string, pat: string)
  {
    ContainsFrom(s, pat, 0)
  }

  lemma {:induction false} MatchesAtIff(s: string, pat: string, i: nat, j: nat)
    requires j <= |pat| && i + |pat| <= |s|
    ensures MatchesAt(s, pat, i, j) <==> s[i + j..i + |pat|] == pat[j..]
    decreases |pat| - j
  {
    if j < |pat| {
      MatchesAtIff(s, pat, i, j + 1);
      assert s[i + j..i + |pat|] == [s[i + j]] + s[i + j + 1..i + |pat|];
      assert pat[j..] == [pat[j]] + pat[j + 1..];
    }
  }

  /** The scan finds a pattern exactly when it occurs at or after position i. */
  lemma {:induction false} ContainsFromIff(s: string, pat: string, i: nat)
    ensures ContainsFrom(s, pat, i) <==> exists k :: i <= k && OccursAt(s, pat, k)
    decreases |s| - i
  {
    if i + |pat| <= |s| {
      MatchesAtIff(s, pat, i, 0);
      assert pat[0..] == pat;
      ContainsFromIff(s, pat, i + 1);
      if MatchesAt(s, pat, i, 0) {
        assert OccursAt(s, pat, i);
      }
      if exists k :: i <= k && OccursAt(s, pat, k) {
        var k :| i <= k && OccursAt(s, pat, k);
        if k > i {
          assert i + 1 <= k;
        }
      }
    }
  }

  lemma ContainsIff(s: string, pat: string)
    ensures Contains(s, pat) <==> exists k :: OccursAt(s, pat, k)
  {
    ContainsFromIff(s, pat, 0);
  }

  /** Some word of the list occurs in `s`: the regex alternation `w1|w2|...`. */
  predicate ContainsAny(s: string, words: seq<string>)
  {
    exists k :: 0 <= k < |words| && Contains(s, words[k])
  }

  // ---------------------------------------------------------------------
  // Decimal digits.

  function DigitValue(c: char): int
  {
    c as int - '0' as int
  }

  /** The number a string of decimal digits denotes. */
  function Value(s: string): int
  {
    if s == [] then 0 else 10 * Value(s[..|s| - 1]) + DigitValue(s[|s| - 1])
  }

  /** The length of the longest prefix of decimal digits. */
  function DigitRun(s: string): (n: nat)
    ensures n <= |s| && forall i :: 0 <= i < n ==> IsDigit(s[i])
    ensures n < |s| ==> !IsDigit(s[n])
  {
    if s != [] && IsDigit(s[0]) then 1 + DigitRun(s[1..]) else 0
  }

  /** The string without its leading white space. */
  function SkipSpaces(s: string): (t: string)
    ensures |t| <= |s| && t == s[|s| - |t|..]
    ensures t != [] ==> !IsJsSpace(t[0])
    ensures forall i :: 0 <= i < |s| - |t| ==> IsJsSpace(s[i])
  {
    if s != [] && IsJsSpace(s[0]) then SkipSpaces(s[1..]) else s
  }

  /** The decimal digits of n. */
  function Decimal(n: nat): (s: string)
    ensures s != [] && forall i :: 0 <= i < |s| ==> IsDigit(s[i])
  {
    var d := ['0' + (n % 10) as char];
    if n < 10 then d else Decimal(n / 10) + d
  }

  lemma {:induction false} ValueOfDecimal(n: nat)
    ensures Value(Decimal(n)) == n
  {
    var s := Decimal(n);
    if n >= 10 {
      ValueOfDecimal(n / 10);
      assert s[..|s| - 1] == Decimal(n / 10);
    }
  }

  lemma {:induction false} DigitRunOfDigits(s: string, rest: string)
    requires forall i :: 0 <= i < |s| ==> IsDigit(s[i])
    requires rest == [] || !IsDigit(rest[0])
    ensures DigitRun(s + rest) == |s|
  {
    if s != [] {
      assert (s + rest)[1..] == s[1..] + rest;
      DigitRunOfDigits(s[1..], rest);
    } else {
      assert s + rest == rest;
    }
  }
}
