/**
 * The title-normalisation chain of the ETL: a raw Wikipedia title becomes the
 * `title_normalized` slug, the lookup key of a page within its language.
 */
module TitleNormalization {
  import opened Text

  const MaxSlugLength := 250
  const UnknownPage := "unknown_page"

  /** The base letter that NFD decomposition leaves of a Latin-1 lower-case
      letter once its combining marks (category Mn) are dropped. */
  function StripMark(c: char): char
  {
    if '\U{E0}' <= c <= '\U{E5}' then 'a'
    else if c == '\U{E7}' then 'c'
    else if '\U{E8}' <= c <= '\U{EB}' then 'e'
    else if '\U{EC}' <= c <= '\U{EF}' then 'i'
    else if c == '\U{F1}' then 'n'
    else if '\U{F2}' <= c <= '\U{F6}' then 'o'
    else if '\U{F9}' <= c <= '\U{FC}' then 'u'
    else if c == '\U{FD}' || c == '\U{FF}' then 'y'
    else c
  }

  /** normalize_string: lower-case, decompose, drop the accents. */
  function NormalizeString(s: string): string
  {
    seq(|s|, i requires 0 <= i < |s| => StripMark(Lower(s[i])))
  }

  predicate IsSeparator(c: char) { c == '_' || c == '-' || c == '.' }

  /** The characters a slug is made of besides '_': `[a-z0-9]`. */
  predicate IsSlugChar(c: char) { 'a' <= c <= 'z' || IsDigit(c) }

  /** Step 1: every `_`, `-` and `.` becomes a blank. */
  function SeparatorsToSpaces(s: string): string
  {
    seq(|s|, i requires 0 <= i < |s| => if IsSeparator(s[i]) then ' ' else s[i])
  }

  /** Only slug characters and blanks. */
  ghost predicate Clean(s: string)
  {
    forall i :: 0 <= i < |s| ==> IsSlugChar(s[i]) || IsPySpace(s[i])
  }

  /** Step 2: every character that is neither `[a-z0-9]` nor a blank is deleted. */
  function KeepSlugChars(s: string): (r: string)
    ensures Clean(r)
  {
    if s == [] then []
    else if IsSlugChar(s[0]) || IsPySpace(s[0]) then [s[0]] + KeepSlugChars(s[1..])
    else KeepSlugChars(s[1..])
  }

  /** The slug characters of a string, in order. */
  function Letters(s: string): (r: string)
    ensures |r| <= |s|
  {
    if s == [] then []
    else if IsSlugChar(s[0]) then [s[0]] + Letters(s[1..])
    else Letters(s[1..])
  }

  lemma {:induction false} LettersAppend(a: string, b: string)
    ensures Letters(a + b) == Letters(a) + Letters(b)
  {
    if a != [] {
      assert (a + b)[1..] == a[1..] + b;
      LettersAppend(a[1..], b);
    } else {
      assert a + b == b;
    }
  }

  /** Only slug characters and single underscores. */
  ghost predicate Underscored(s: string)
  {
    && (forall i :: 0 <= i < |s| ==> IsSlugChar(s[i]) || s[i] == '_')
    && (forall i :: 0 <= i < |s| - 1 ==> NoDoubleAt(s, i))
  }

  /** Positions i and i + 1 do not both hold '_'. */
  ghost predicate NoDoubleAt(s: string, i: int)
    requires 0 <= i < |s| - 1
  {
    !(s[i] == '_' && s[i + 1] == '_')
  }

  /** What steps 1 to 5 produce: a possibly empty slug without a leading or a trailing '_'. */
  ghost predicate Trimmed(s: string)
  {
    Underscored(s) && (s != [] ==> s[0] != '_' && s[|s| - 1] != '_')
  }

  /** The blanks at the front of s are dropped. */
  function DropSpaces(s: string): (r: string)
    ensures |r| <= |s| && r == s[|s| - |r|..]
    ensures r != [] ==> !IsPySpace(r[0])
    ensures forall i :: 0 <= i < |s| - |r| ==> IsPySpace(s[i])
  {
    if s != [] && IsPySpace(s[0]) then DropSpaces(s[1..]) else s
  }

  lemma {:induction false} DropSpacesLetters(s: string)
    ensures Letters(DropSpaces(s)) == Letters(s)
  {
    if s != [] && IsPySpace(s[0]) {
      DropSpacesLetters(s[1..]);
      BlankIsNotSlugChar(s[0]);
    }
  }

  lemma BlankIsNotSlugChar(c: char)
    requires IsPySpace(c)
    ensures !IsSlugChar(c)
  {
  }

  /** Step 3: each run of blanks becomes one '_'. */
  function CollapseSpaces(s: string): (r: string)
    ensures |r| <= |s|
    ensures r == [] <==> s == []
    ensures s != [] && IsPySpace(s[0]) ==> r[0] == '_'
    ensures s != [] && !IsPySpace(s[0]) ==> r[0] == s[0]
    decreases |s|
  {
    if s == [] then []
    else if IsPySpace(s[0]) then "_" + CollapseSpaces(DropSpaces(s[1..]))
    else [s[0]] + CollapseSpaces(s[1..])
  }

  lemma UnderscoredCons(c: char, t: string)
    requires IsSlugChar(c) || c == '_'
    requires Underscored(t)
    requires c == '_' && t != [] ==> t[0] != '_'
    ensures Underscored([c] + t)
  {
    var s := [c] + t;
    forall i | 0 <= i < |s| - 1 ensures NoDoubleAt(s, i) {
      if i > 0 {
        assert NoDoubleAt(t, i - 1);
      }
    }
  }

  lemma UnderscoredTail(s: string)
    requires Underscored(s) && s != []
    ensures Underscored(s[1..])
  {
    var t := s[1..];
    forall i | 0 <= i < |t| - 1 ensures NoDoubleAt(t, i) {
      assert NoDoubleAt(s, i + 1);
    }
  }

  /** Collapsing the blanks of a clean string leaves single underscores between slug characters. */
  lemma {:induction false} CollapseSpacesUnderscored(s: string)
    requires Clean(s)
    ensures Underscored(CollapseSpaces(s))
    decreases |s|
  {
    if s != [] {
      if IsPySpace(s[0]) {
        var t := DropSpaces(s[1..]);
        CleanSuffix(s, 1 + |s[1..]| - |t|);
        assert s[1 + |s[1..]| - |t|..] == t;
        CollapseSpacesUnderscored(t);
        UnderscoredCons('_', CollapseSpaces(t));
      } else {
        CleanSuffix(s, 1);
        CollapseSpacesUnderscored(s[1..]);
        UnderscoredCons(s[0], CollapseSpaces(s[1..]));
      }
    }
  }

  lemma CleanSuffix(s: string, k: int)
    requires Clean(s) && 0 <= k <= |s|
    ensures Clean(s[k..])
  {
    var t := s[k..];
    forall i | 0 <= i < |t| ensures IsSlugChar(t[i]) || IsPySpace(t[i]) {
      assert t[i] == s[k + i];
    }
  }

  lemma {:induction false} CollapseSpacesLetters(s: string)
    ensures Letters(CollapseSpaces(s)) == Letters(s)
    decreases |s|
  {
    if s != [] {
      if IsPySpace(s[0]) {
        var t := DropSpaces(s[1..]);
        CollapseSpacesLetters(t);
        DropSpacesLetters(s[1..]);
        assert ("_" + CollapseSpaces(t))[1..] == CollapseSpaces(t);
      } else {
        CollapseSpacesLetters(s[1..]);
        assert ([s[0]] + CollapseSpaces(s[1..]))[1..] == CollapseSpaces(s[1..]);
      }
    }
  }

  /** Every character of s is c. */
  ghost predicate AllAre(s: string, c: char)
  {
    forall i :: 0 <= i < |s| ==> s[i] == c
  }

  function TrimStart(s: string, c: char): (r: string)
    ensures |r| <= |s| && r == s[|s| - |r|..]
    ensures r != [] ==> r[0] != c
    ensures AllAre(s[..|s| - |r|], c)
  {
    if s != [] && s[0] == c then
      var r := TrimStart(s[1..], c);
      assert s[..|s| - |r|] == [c] + s[1..][..|s| - 1 - |r|];
      r
    else s
  }

  function TrimEnd(s: string, c: char): (r: string)
    ensures |r| <= |s| && r == s[..|r|]
    ensures r != [] ==> r[|r| - 1] != c
    ensures AllAre(s[|r|..], c)
  {
    if s != [] && s[|s| - 1] == c then
      var r := TrimEnd(s[..|s| - 1], c);
      assert s[|r|..] == s[..|s| - 1][|r|..] + [c];
      r
    else s
  }

  /** Python's str.strip(c): c is removed from both ends. */
  function Strip(s: string, c: char): (r: string)
    ensures |r| <= |s|
    ensures r != [] ==> r[0] != c && r[|r| - 1] != c
  {
    TrimEnd(TrimStart(s, c), c)
  }

  /** What Strip keeps is one slice of its input, and it removes only c. */
  lemma StripSlice(s: string, c: char) returns (a: int, b: int)
    ensures 0 <= a <= b <= |s| && Strip(s, c) == s[a..b] && StrippedOnly(s, a, b, c)
  {
    var t := TrimStart(s, c);
    var r := TrimEnd(t, c);
    a, b := |s| - |t|, |s| - |t| + |r|;
    assert t == s[a..];
    assert r == s[a..b];
    assert t[|r|..] == s[b..];
  }

  /** Outside s[a..b] there is nothing but c. */
  ghost predicate StrippedOnly(s: string, a: int, b: int, c: char)
    requires 0 <= a <= b <= |s|
  {
    AllAre(s[..a], c) && AllAre(s[b..], c)
  }

  /** Step 6: NUL characters are removed. */
  function RemoveNul(s: string): string
  {
    if s == [] then []
    else if s[0] == '\0' then RemoveNul(s[1..])
    else [s[0]] + RemoveNul(s[1..])
  }

  /** Step 7: str.strip() with no argument removes blanks from both ends. */
  function StripSpaces(s: string): string
  {
    StripSpacesEnd(StripSpacesStart(s))
  }

  function StripSpacesStart(s: string): string
  {
    if s != [] && IsPySpace(s[0]) then StripSpacesStart(s[1..]) else s
  }

  function StripSpacesEnd(s: string): string
  {
    if s != [] && IsPySpace(s[|s| - 1]) then StripSpacesEnd(s[..|s| - 1]) else s
  }

  /** Lines 49 to 53: the slug before the fallback and the length cap. */
  function Slug(s: string): string
  {
    StripSpaces(RemoveNul(Strip(CollapseSpaces(KeepSlugChars(SeparatorsToSpaces(s))), '_')))
  }

  /** Line 54: an empty slug becomes 'unknown_page'. */
  function OrUnknown(slug: string): string
  {
    if |slug| == 0 then UnknownPage else slug
  }

  /** Line 55: the slug is cut to its first 250 characters. */
  function Cap(s: string): string
  {
    s[..if |s| < MaxSlugLength then |s| else MaxSlugLength]
  }

  /** The whole chain: `title_normalized` of a raw title. */
  function NormalizeTitle(title: string): string
  {
    Cap(OrUnknown(Slug(NormalizeString(title))))
  }

  // ---------------------------------------------------------------------
  // What the chain keeps: the slug characters, in order.

  lemma {:induction false} LettersOfNone(s: string)
    requires forall i :: 0 <= i < |s| ==> !IsSlugChar(s[i])
    ensures Letters(s) == []
  {
    if s != [] {
      LettersOfNone(s[1..]);
    }
  }

  lemma {:induction false} SeparatorsToSpacesLetters(s: string)
    ensures Letters(SeparatorsToSpaces(s)) == Letters(s)
  {
    if s != [] {
      var t := SeparatorsToSpaces(s);
      assert t[1..] == SeparatorsToSpaces(s[1..]);
      SeparatorsToSpacesLetters(s[1..]);
    }
  }

  lemma {:induction false} KeepSlugCharsLength(s: string)
    ensures |KeepSlugChars(s)| <= |s|
  {
    if s != [] {
      KeepSlugCharsLength(s[1..]);
    }
  }

  lemma {:induction false} KeepSlugCharsLetters(s: string)
    ensures Letters(KeepSlugChars(s)) == Letters(s)
  {
    if s != [] {
      KeepSlugCharsLetters(s[1..]);
      if IsSlugChar(s[0]) || IsPySpace(s[0]) {
        assert ([s[0]] + KeepSlugChars(s[1..]))[1..] == KeepSlugChars(s[1..]);
      }
    }
  }

  lemma UnderscoredSlice(s: string, a: int, b: int)
    requires Underscored(s) && 0 <= a <= b <= |s|
    ensures Underscored(s[a..b])
  {
    var r := s[a..b];
    forall i | 0 <= i < |r| - 1 ensures NoDoubleAt(r, i) {
      assert NoDoubleAt(s, a + i);
    }
  }

  /** Cutting off characters that are not slug characters keeps the letters. */
  lemma LettersOfStripped(s: string, a: int, b: int, c: char)
    requires 0 <= a <= b <= |s| && StrippedOnly(s, a, b, c) && !IsSlugChar(c)
    ensures Letters(s[a..b]) == Letters(s)
  {
    assert s == s[..a] + s[a..b] + s[b..];
    LettersAppend(s[..a] + s[a..b], s[b..]);
    LettersAppend(s[..a], s[a..b]);
    LettersOfAllAre(s[..a], c);
    LettersOfAllAre(s[b..], c);
  }

  lemma {:induction false} LettersOfAllAre(s: string, c: char)
    requires AllAre(s, c) && !IsSlugChar(c)
    ensures Letters(s) == []
  {
    if s != [] {
      assert s[0] == c;
      assert AllAre(s[1..], c) by {
        forall i | 0 <= i < |s| - 1 ensures s[1..][i] == c {
          assert s[1..][i] == s[i + 1];
        }
      }
      LettersOfAllAre(s[1..], c);
    }
  }

  /** Stripping '_' keeps an underscored string underscored and keeps its letters. */
  lemma StripUnderscoresLetters(s: string)
    requires Underscored(s)
    ensures Trimmed(Strip(s, '_'))
    ensures Letters(Strip(s, '_')) == Letters(s)
  {
    var a, b := StripSlice(s, '_');
    UnderscoredSlice(s, a, b);
    LettersOfStripped(s, a, b, '_');
  }

  lemma {:induction false} RemoveNulOfUnderscored(s: string)
    requires Underscored(s)
    ensures RemoveNul(s) == s
  {
    if s != [] {
      UnderscoredTail(s);
      RemoveNulOfUnderscored(s[1..]);
      assert [s[0]] + s[1..] == s;
    }
  }

  lemma StripSpacesOfTrimmed(s: string)
    requires Trimmed(s)
    ensures StripSpaces(s) == s
  {
  }

  /** Lines 49 to 53 give an underscored slug with no '_' at either end; its
      slug characters are exactly those of the input, and it is empty exactly
      when the input has none. */
  lemma SlugIsTrimmed(s: string)
    ensures Trimmed(Slug(s))
    ensures Letters(Slug(s)) == Letters(s)
    ensures Slug(s) == [] <==> Letters(s) == []
    ensures |Slug(s)| <= |s|
  {
    var s1 := SeparatorsToSpaces(s);
    var s2 := KeepSlugChars(s1);
    var s3 := CollapseSpaces(s2);
    var s4 := Strip(s3, '_');
    SeparatorsToSpacesLetters(s);
    KeepSlugCharsLetters(s1);
    KeepSlugCharsLength(s1);
    CollapseSpacesLetters(s2);
    CollapseSpacesUnderscored(s2);
    StripUnderscoresLetters(s3);
    RemoveNulOfUnderscored(s4);
    StripSpacesOfTrimmed(s4);
    assert Slug(s) == s4;
    if s4 != [] {
      assert IsSlugChar(s4[0]);
      assert Letters(s4) != [];
    }
  }

  lemma UnknownPageIsTrimmed()
    ensures Trimmed(UnknownPage)
  {
    forall i | 0 <= i < |UnknownPage| - 1 ensures NoDoubleAt(UnknownPage, i) { }
  }

  lemma OrUnknownTrimmed(slug: string)
    requires Trimmed(slug)
    ensures Trimmed(OrUnknown(slug)) && OrUnknown(slug) != []
    ensures |OrUnknown(slug)| <= if |slug| < |UnknownPage| then |UnknownPage| else |slug|
  {
    UnknownPageIsTrimmed();
  }

  /** The cap keeps a trimmed slug underscored; the cut can only leave a
      trailing '_' when something was cut off. */
  lemma CapTrimmed(s: string)
    requires Trimmed(s) && s != []
    ensures var r := Cap(s);
      && 1 <= |r| <= MaxSlugLength
      && Underscored(r)
      && r[0] != '_'
      && (|r| < MaxSlugLength ==> r[|r| - 1] != '_')
      && (|s| <= MaxSlugLength ==> r == s)
  {
    var n := if |s| < MaxSlugLength then |s| else MaxSlugLength;
    CutTrimmed(s, n);
    if |s| <= MaxSlugLength {
      assert s[..|s|] == s;
    }
  }

  /** title_normalized is a slug of 1 to 250 characters from `[a-z0-9_]`, with
      no leading '_' and no "__"; it ends with '_' only when the cut at 250
      characters fell just after one. */
  lemma NormalizeTitleIsSlug(title: string)
    ensures var r := NormalizeTitle(title);
      && 1 <= |r| <= MaxSlugLength
      && Underscored(r)
      && r[0] != '_'
      && (|r| < MaxSlugLength ==> r[|r| - 1] != '_')
  {
    var slug := Slug(NormalizeString(title));
    SlugIsTrimmed(NormalizeString(title));
    OrUnknownTrimmed(slug);
    var named := OrUnknown(slug);
    CapTrimmed(named);
    assert NormalizeTitle(title) == Cap(named);
  }

  lemma CutTrimmed(s: string, n: int)
    requires Trimmed(s) && 1 <= n <= |s|
    ensures Underscored(s[..n]) && s[..n][0] != '_'
    ensures n == |s| ==> s[..n][n - 1] != '_'
  {
    UnderscoredSlice(s, 0, n);
    assert s[..n] == s[0..n];
  }

  /** The fallback fires exactly when the title has no slug character; otherwise
      the slug characters of the title are kept in order (all of them when the
      slug fits in 250 characters). */
  lemma NormalizeTitleLetters(title: string)
    ensures Letters(NormalizeString(title)) == [] ==> NormalizeTitle(title) == UnknownPage
    ensures Letters(NormalizeString(title)) != [] ==>
      && Letters(NormalizeTitle(title)) <= Letters(NormalizeString(title))
      && (|Slug(NormalizeString(title))| <= MaxSlugLength ==> Letters(NormalizeTitle(title)) == Letters(NormalizeString(title)))
  {
    CappedSlugLetters(NormalizeString(title));
  }

  /** NormalizeTitleLetters for any string the slug is taken of. */
  lemma CappedSlugLetters(x: string)
    ensures Letters(x) == [] ==> Cap(OrUnknown(Slug(x))) == UnknownPage
    ensures Letters(x) != [] ==>
      && Letters(Cap(OrUnknown(Slug(x)))) <= Letters(x)
      && (|Slug(x)| <= MaxSlugLength ==> Letters(Cap(OrUnknown(Slug(x)))) == Letters(x))
  {
    SlugIsTrimmed(x);
    CapLetters(Slug(x), Letters(x));
  }

  lemma CapLetters(slug: string, letters: string)
    requires Letters(slug) == letters
    requires slug == [] <==> letters == []
    ensures letters == [] ==> Cap(OrUnknown(slug)) == UnknownPage
    ensures letters != [] ==>
      && Letters(Cap(OrUnknown(slug))) <= letters
      && (|slug| <= MaxSlugLength ==> Letters(Cap(OrUnknown(slug))) == letters)
  {
    if slug != [] {
      var n := if |slug| < MaxSlugLength then |slug| else MaxSlugLength;
      assert Cap(OrUnknown(slug)) == slug[..n];
      PrefixLetters(slug, n);
      if |slug| <= MaxSlugLength {
        assert n == |slug|;
      }
    }
  }

  /** The slug characters of a prefix are a prefix of the slug characters. */
  lemma PrefixLetters(s: string, n: int)
    requires 0 <= n <= |s|
    ensures Letters(s[..n]) <= Letters(s)
    ensures n == |s| ==> Letters(s[..n]) == Letters(s)
  {
    assert s == s[..n] + s[n..];
    LettersAppend(s[..n], s[n..]);
  }

  // ---------------------------------------------------------------------
  // Titles whose separators already stand alone.

  /** Slug characters separated by single `_`, `-` or `.`, none at either end. */
  ghost predicate SingleSeparated(x: string)
  {
    && (forall i :: 0 <= i < |x| ==> IsSlugChar(x[i]) || IsSeparator(x[i]))
    && (forall i :: 0 <= i < |x| - 1 ==> NotTwoSeparatorsAt(x, i))
    && (x != [] ==> !IsSeparator(x[0]) && !IsSeparator(x[|x| - 1]))
  }

  ghost predicate NotTwoSeparatorsAt(x: string, i: int)
    requires 0 <= i < |x| - 1
  {
    !(IsSeparator(x[i]) && IsSeparator(x[i + 1]))
  }

  /** Every separator replaced by '_'. */
  function Underscore(x: string): string
  {
    seq(|x|, i requires 0 <= i < |x| => if IsSeparator(x[i]) then '_' else x[i])
  }

  lemma SeparatorsToSpacesCons(x: string)
    requires x != []
    ensures SeparatorsToSpaces(x) == [if IsSeparator(x[0]) then ' ' else x[0]] + SeparatorsToSpaces(x[1..])
  {
  }

  lemma UnderscoreCons(x: string)
    requires x != []
    ensures Underscore(x) == [if IsSeparator(x[0]) then '_' else x[0]] + Underscore(x[1..])
  {
  }

  lemma CollapseSpacesCons(c: char, t: string)
    requires IsPySpace(c) && t != [] ==> !IsPySpace(t[0])
    ensures CollapseSpaces([c] + t) == (if IsPySpace(c) then "_" else [c]) + CollapseSpaces(t)
  {
    assert ([c] + t)[1..] == t;
  }

  lemma SlugCharIsNotSpace(c: char)
    requires IsSlugChar(c) || IsSeparator(c)
    ensures !IsPySpace(c)
  {
  }

  /** A leading separator followed by a slug character becomes one '_'. */
  lemma CollapseSeparatorStep(x: string)
    requires x != [] && IsSeparator(x[0])
    requires |x| > 1 ==> IsSlugChar(x[1])
    ensures CollapseSpaces(SeparatorsToSpaces(x)) == "_" + CollapseSpaces(SeparatorsToSpaces(x[1..]))
  {
    SeparatorsToSpacesCons(x);
    var t := SeparatorsToSpaces(x[1..]);
    if |x| > 1 {
      SeparatorsToSpacesCons(x[1..]);
      SlugCharIsNotSpace(x[1]);
    }
    CollapseSpacesCons(' ', t);
  }

  /** A leading slug character is kept as it is. */
  lemma CollapseSlugCharStep(x: string)
    requires x != [] && IsSlugChar(x[0])
    ensures CollapseSpaces(SeparatorsToSpaces(x)) == [x[0]] + CollapseSpaces(SeparatorsToSpaces(x[1..]))
  {
    SeparatorsToSpacesCons(x);
    SlugCharIsNotSpace(x[0]);
    CollapseSpacesCons(x[0], SeparatorsToSpaces(x[1..]));
  }

  lemma {:induction false} CollapseSingleSpaces(x: string)
    requires forall i :: 0 <= i < |x| ==> IsSlugChar(x[i]) || IsSeparator(x[i])
    requires forall i :: 0 <= i < |x| - 1 ==> NotTwoSeparatorsAt(x, i)
    ensures CollapseSpaces(SeparatorsToSpaces(x)) == Underscore(x)
  {
    if x != [] {
      var rest := x[1..];
      forall i | 0 <= i < |rest| - 1 ensures NotTwoSeparatorsAt(rest, i) {
        assert NotTwoSeparatorsAt(x, i + 1);
      }
      CollapseSingleSpaces(rest);
      UnderscoreCons(x);
      if IsSeparator(x[0]) {
        if |x| > 1 {
          assert NotTwoSeparatorsAt(x, 0);
        }
        CollapseSeparatorStep(x);
      } else {
        CollapseSlugCharStep(x);
      }
    }
  }

  lemma {:induction false} KeepSlugCharsOfClean(s: string)
    requires forall i :: 0 <= i < |s| ==> IsSlugChar(s[i]) || s[i] == ' '
    ensures KeepSlugChars(s) == s
  {
    if s != [] {
      KeepSlugCharsOfClean(s[1..]);
      assert [s[0]] + s[1..] == s;
    }
  }

  /** Single separators between slug characters become single underscores. */
  lemma SlugOfSingleSeparated(x: string)
    requires SingleSeparated(x)
    ensures Slug(x) == Underscore(x)
  {
    var y := SeparatorsToSpaces(x);
    KeepSlugCharsOfClean(y);
    CollapseSingleSpaces(x);
    var u := Underscore(x);
    UnderscoreTrimmed(x);
    StripOfTrimmed(u);
    RemoveNulOfUnderscored(u);
    StripSpacesOfTrimmed(u);
  }

  lemma UnderscoreTrimmed(x: string)
    requires SingleSeparated(x)
    ensures Trimmed(Underscore(x))
  {
    var u := Underscore(x);
    forall i | 0 <= i < |u| - 1 ensures NoDoubleAt(u, i) {
      assert NotTwoSeparatorsAt(x, i);
    }
  }

  lemma StripOfTrimmed(u: string)
    requires Trimmed(u)
    ensures Strip(u, '_') == u
  {
  }

  lemma {:induction false} NormalizeStringOfUnderscored(r: string)
    requires Underscored(r)
    ensures NormalizeString(r) == r
  {
  }

  /** A trimmed slug of at most 250 characters is its own title_normalized. */
  lemma NormalizeTitleOfTrimmed(r: string)
    requires Trimmed(r) && 1 <= |r| <= MaxSlugLength
    ensures NormalizeTitle(r) == r
  {
    NormalizeStringOfUnderscored(r);
    TrimmedIsSingleSeparated(r);
    SlugOfSingleSeparated(r);
    CapTrimmed(r);
  }

  lemma TrimmedIsSingleSeparated(r: string)
    requires Trimmed(r)
    ensures SingleSeparated(r) && Underscore(r) == r
  {
    forall i | 0 <= i < |r| - 1 ensures NotTwoSeparatorsAt(r, i) {
      assert NoDoubleAt(r, i);
    }
  }

  /** A title_normalized that does not end with '_' normalizes to itself. */
  lemma NormalizeTitleIdempotent(title: string)
    requires var r := NormalizeTitle(title); r[|r| - 1] != '_'
    ensures NormalizeTitle(NormalizeTitle(title)) == NormalizeTitle(title)
  {
    NormalizeTitleIsSlug(title);
    NormalizeTitleOfTrimmed(NormalizeTitle(title));
  }

  /** A slug that ends with '_' is not a fixed point: normalizing it drops the '_'. */
  lemma TrailingUnderscoreIsNotFixed(r: string)
    requires Underscored(r) && 1 <= |r| <= MaxSlugLength && r[|r| - 1] == '_'
    ensures NormalizeTitle(r) != r
  {
    NormalizeStringOfUnderscored(r);
    SlugIsTrimmed(r);
    var named := OrUnknown(Slug(r));
    OrUnknownTrimmed(Slug(r));
    assert |named| <= MaxSlugLength;
    CapTrimmed(named);
    assert NormalizeTitle(r) == named;
    assert named[|named| - 1] != '_';
  }

  /** The cut at 250 characters can leave a trailing '_', and such a slug is not
      a fixed point: normalizing it again drops the '_'. */
  lemma CutSlugIsNotFixed(title: string)
    requires title == seq(249, i => 'a') + "_b"
    ensures |NormalizeTitle(title)| == MaxSlugLength
    ensures NormalizeTitle(NormalizeTitle(title)) != NormalizeTitle(title)
  {
    LongTitleIsSlug(title);
    NormalizeStringOfUnderscored(title);
    SlugOfSingleSeparated(title);
    var r := NormalizeTitle(title);
    assert r == title[..MaxSlugLength];
    UnderscoredSlice(title, 0, MaxSlugLength);
    assert title[0..MaxSlugLength] == r;
    TrailingUnderscoreIsNotFixed(r);
  }

  lemma LongTitleIsSlug(title: string)
    requires title == seq(249, i => 'a') + "_b"
    ensures Underscored(title) && SingleSeparated(title) && Underscore(title) == title
    ensures title[MaxSlugLength - 1] == '_'
  {
    forall i | 0 <= i < |title| - 1 ensures NoDoubleAt(title, i) { }
    TrimmedIsSingleSeparated(title);
  }

  /** When the accent-free lower-case title is made of slug characters and
      single separators, title_normalized replaces each separator by '_'. */
  lemma NormalizeTitleOfSingleSeparated(title: string)
    requires SingleSeparated(NormalizeString(title))
    requires 1 <= |NormalizeString(title)| <= MaxSlugLength
    ensures NormalizeTitle(title) == Underscore(NormalizeString(title))
  {
    var x := NormalizeString(title);
    SlugOfSingleSeparated(x);
    UnderscoreTrimmed(x);
    CapTrimmed(Underscore(x));
  }

  lemma SingleSeparatedPythonProg(x: string)
    requires x == "python_prog"
    ensures SingleSeparated(x) && Underscore(x) == x
  {
    forall i | 0 <= i < |x| - 1 ensures NotTwoSeparatorsAt(x, i) { }
  }

  /** 'Python_Prog' becomes 'python_prog'. */
  lemma NormalizePythonProg(title: string)
    requires title == "Python_Prog"
    ensures NormalizeTitle(title) == "python_prog"
  {
    var x := "python_prog";
    assert NormalizeString(title) == x;
    SingleSeparatedPythonProg(x);
    NormalizeTitleOfSingleSeparated(title);
  }

  lemma SingleSeparatedCancion(x: string)
    requires x == "mi-cancion_favorita"
    ensures SingleSeparated(x) && Underscore(x) == "mi_cancion_favorita"
  {
    forall i | 0 <= i < |x| - 1 ensures NotTwoSeparatorsAt(x, i) { }
  }

  /** 'Mi-Canci\U{F3}n_favorita' becomes 'mi_cancion_favorita'. */
  lemma NormalizeCancion(title: string)
    requires title == "Mi-Canci\U{F3}n_favorita"
    ensures NormalizeTitle(title) == "mi_cancion_favorita"
  {
    var x := "mi-cancion_favorita";
    assert NormalizeString(title) == x;
    SingleSeparatedCancion(x);
    NormalizeTitleOfSingleSeparated(title);
  }
}
