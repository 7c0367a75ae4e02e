/**
 * Lines 49 to 53 of the ETL's title normalisation read as words: the pieces
 * between blanks, stripped to `[a-z0-9]`, the empty ones dropped, joined by
 * '_'. This reference is independent of the chain of substitutions it is
 * proved equal to.
 */
module SlugWords {
  import opened Text
  import opened TitleNormalization

  /** The pieces between the blanks of s, empty pieces included: one more
      piece than there are blanks, as re.split(r'\s', s) gives them. */
  function SplitOnBlanks(s: string): (r: seq<string>)
    ensures |r| >= 1
    ensures s != [] && !IsPySpace(s[0]) ==> r[0] != []
  {
    if s == [] then [[]]
    else
      var rest := SplitOnBlanks(s[1..]);
      if IsPySpace(s[0]) then [[]] + rest
      else [[s[0]] + rest[0]] + rest[1..]
  }

  function KeepSlugCharsEach(pieces: seq<string>): (r: seq<string>)
    ensures |r| == |pieces|
  {
    if pieces == [] then [] else [KeepSlugChars(pieces[0])] + KeepSlugCharsEach(pieces[1..])
  }

  function NonEmptyPieces(pieces: seq<string>): (r: seq<string>)
    ensures |r| <= |pieces|
    ensures forall i :: 0 <= i < |r| ==> r[i] != []
  {
    if pieces == [] then []
    else if pieces[0] == [] then NonEmptyPieces(pieces[1..])
    else [pieces[0]] + NonEmptyPieces(pieces[1..])
  }

  /** "_".join(words). */
  function JoinUnderscore(words: seq<string>): string
  {
    if words == [] then []
    else if |words| == 1 then words[0]
    else words[0] + "_" + JoinUnderscore(words[1..])
  }

  /** The reference slug: the words of the title after step 1, each stripped
      to `[a-z0-9]`, the empty ones dropped, joined by '_'. */
  function SlugOfWords(s: string): string
  {
    JoinUnderscore(NonEmptyPieces(KeepSlugCharsEach(SplitOnBlanks(SeparatorsToSpaces(s)))))
  }

  /** The length of the leading run of characters that are not blanks. */
  function WordLength(u: string): (k: nat)
    ensures k <= |u|
  {
    if u == [] || IsPySpace(u[0]) then 0 else 1 + WordLength(u[1..])
  }

  /** The leading word holds no blank and, unless it is all of u, ends at one. */
  lemma {:induction false} WordHasNoBlank(u: string)
    ensures forall i :: 0 <= i < WordLength(u) ==> !IsPySpace(u[i])
    ensures WordLength(u) < |u| ==> IsPySpace(u[WordLength(u)])
  {
    if u != [] && !IsPySpace(u[0]) {
      WordHasNoBlank(u[1..]);
      assert forall i :: 1 <= i < WordLength(u) ==> u[i] == u[1..][i - 1];
    }
  }

  /** Deleting the other characters before splitting is deleting them in each piece. */
  lemma {:induction false} SplitKeepSlugChars(t: string)
    ensures SplitOnBlanks(KeepSlugChars(t)) == KeepSlugCharsEach(SplitOnBlanks(t))
  {
    if t != [] {
      var t1 := t[1..];
      SplitKeepSlugChars(t1);
      var d := SplitOnBlanks(t1);
      var c := SplitOnBlanks(KeepSlugChars(t1));
      assert KeepSlugCharsEach(d)[1..] == KeepSlugCharsEach(d[1..]);
      if IsPySpace(t[0]) {
        assert ([t[0]] + KeepSlugChars(t1))[1..] == KeepSlugChars(t1);
        assert KeepSlugCharsEach([[]] + d) == [KeepSlugChars([])] + KeepSlugCharsEach(d);
      } else {
        var p := [t[0]] + d[0];
        assert p[1..] == d[0];
        assert KeepSlugCharsEach([p] + d[1..]) == [KeepSlugChars(p)] + KeepSlugCharsEach(d[1..]);
        if IsSlugChar(t[0]) {
          assert ([t[0]] + KeepSlugChars(t1))[1..] == KeepSlugChars(t1);
          assert KeepSlugChars(t) == [t[0]] + KeepSlugChars(t1);
          assert SplitOnBlanks(KeepSlugChars(t)) == [[t[0]] + c[0]] + c[1..];
        } else {
          assert KeepSlugChars(t) == KeepSlugChars(t1);
          assert KeepSlugCharsEach(d) == [KeepSlugChars(d[0])] + KeepSlugCharsEach(d[1..]);
        }
      }
    }
  }

  /** Leading blanks only add empty pieces. */
  lemma {:induction false} SplitDropSpaces(v: string)
    ensures NonEmptyPieces(SplitOnBlanks(DropSpaces(v))) == NonEmptyPieces(SplitOnBlanks(v))
  {
    if v != [] && IsPySpace(v[0]) {
      SplitDropSpaces(v[1..]);
      assert ([[]] + SplitOnBlanks(v[1..]))[1..] == SplitOnBlanks(v[1..]);
    }
  }

  /** Splitting a string whose first word ends at a blank gives the word,
      then the pieces of what follows that blank. */
  lemma {:induction false} SplitAtWord(u: string)
    requires WordLength(u) < |u|
    ensures SplitOnBlanks(u) == [u[..WordLength(u)]] + SplitOnBlanks(u[WordLength(u) + 1..])
  {
    if WordLength(u) != 0 {
      WordLengthTail(u);
      SplitAtWord(u[1..]);
      SplitStep(u);
    }
  }

  lemma SplitStep(u: string)
    requires 0 < WordLength(u) < |u|
    requires SplitOnBlanks(u[1..]) == [u[1..][..WordLength(u[1..])]] + SplitOnBlanks(u[1..][WordLength(u[1..]) + 1..])
    ensures SplitOnBlanks(u) == [u[..WordLength(u)]] + SplitOnBlanks(u[WordLength(u) + 1..])
  {
    var k := WordLength(u);
    TailFacts(u);
    SplitHead(u);
    PiecesCons(u[0], u[1..][..k - 1], SplitOnBlanks(u[k + 1..]));
    WordCons(u, k);
  }

  lemma SplitHead(u: string)
    requires 0 < WordLength(u)
    ensures u != [] && SplitOnBlanks(u) == [[u[0]] + SplitOnBlanks(u[1..])[0]] + SplitOnBlanks(u[1..])[1..]
  {
  }

  lemma PiecesCons(c: char, a: string, rest: seq<string>)
    ensures ([a] + rest)[0] == a && ([a] + rest)[1..] == rest
  {
  }

  lemma WordCons(u: string, k: nat)
    requires 0 < k <= |u|
    ensures [u[0]] + u[1..][..k - 1] == u[..k]
  {
  }

  /** Collapsing a string whose first word ends at a blank gives the word,
      one '_' and the collapsed rest without its leading blanks. */
  ghost predicate CollapsesAtBlank(u: string)
    requires WordLength(u) < |u|
  {
    CollapseSpaces(u) == u[..WordLength(u)] + "_" + CollapseSpaces(DropSpaces(u[WordLength(u) + 1..]))
  }

  lemma {:induction false} CollapseAtBlank(u: string)
    requires WordLength(u) < |u|
    ensures CollapsesAtBlank(u)
  {
    if WordLength(u) == 0 {
      CollapseAtFirst(u);
    } else {
      WordLengthTail(u);
      CollapseAtBlank(u[1..]);
      CollapseStep(u);
    }
  }

  lemma WordLengthTail(u: string)
    requires WordLength(u) > 0
    ensures u != [] && WordLength(u[1..]) == WordLength(u) - 1
  {
  }

  lemma CollapseAtFirst(u: string)
    requires WordLength(u) == 0 < |u|
    ensures CollapsesAtBlank(u)
  {
    assert u[..0] + "_" == "_";
  }

  lemma CollapseStep(u: string)
    requires 0 < WordLength(u) < |u|
    requires WordLength(u[1..]) < |u[1..]| && CollapsesAtBlank(u[1..])
    ensures CollapsesAtBlank(u)
  {
    var k := WordLength(u);
    TailFacts(u);
    CollapseHead(u);
    ConsWord(u, k, CollapseSpaces(DropSpaces(u[k + 1..])));
  }

  lemma TailFacts(u: string)
    requires 0 < WordLength(u) < |u|
    ensures WordLength(u[1..]) == WordLength(u) - 1
    ensures u[1..][WordLength(u[1..]) + 1..] == u[WordLength(u) + 1..]
  {
  }

  lemma CollapseHead(u: string)
    requires 0 < WordLength(u)
    ensures u != [] && CollapseSpaces(u) == [u[0]] + CollapseSpaces(u[1..])
  {
  }

  lemma ConsWord(u: string, k: nat, r: string)
    requires 0 < k <= |u|
    ensures [u[0]] + (u[1..][..k - 1] + "_" + r) == u[..k] + "_" + r
  {
    assert [u[0]] + u[1..][..k - 1] == u[..k];
  }

  lemma {:induction false} NoBlank(u: string)
    requires forall i :: 0 <= i < |u| ==> !IsPySpace(u[i])
    ensures SplitOnBlanks(u) == [u] && CollapseSpaces(u) == u
  {
    if u != [] {
      NoBlank(u[1..]);
      assert [u[0]] + u[1..] == u;
    }
  }

  lemma {:induction false} TrimEndAppend(a: string, b: string, c: char)
    requires b != [] && b[0] != c
    ensures TrimEnd(a + b, c) == a + TrimEnd(b, c)
    decreases |b|
  {
    if b[|b| - 1] == c {
      var b' := b[..|b| - 1];
      assert (a + b)[..|a + b| - 1] == a + b';
      TrimEndAppend(a, b', c);
    }
  }

  lemma TrimEndOfWord(w: string)
    requires w != [] && IsSlugChar(w[|w| - 1])
    ensures TrimEnd(w, '_') == w && TrimEnd(w + "_", '_') == w
  {
    assert (w + "_")[..|w|] == w;
  }

  lemma NonEmptyCons(w: string, pieces: seq<string>)
    requires w != []
    ensures NonEmptyPieces([w] + pieces) == [w] + NonEmptyPieces(pieces)
  {
    assert ([w] + pieces)[1..] == pieces;
  }

  lemma JoinCons(w: string, rest: seq<string>)
    requires rest != []
    ensures JoinUnderscore([w] + rest) == w + "_" + JoinUnderscore(rest)
  {
    assert ([w] + rest)[1..] == rest;
  }

  /** One word, then the collapsed rest of the string. */
  lemma WordThenRest(w: string, v: string)
    requires w != [] && IsSlugChar(w[|w| - 1])
    requires v == [] || IsSlugChar(v[0])
    requires TrimEnd(CollapseSpaces(v), '_') == JoinUnderscore(NonEmptyPieces(SplitOnBlanks(v)))
    ensures TrimEnd(w + "_" + CollapseSpaces(v), '_') == JoinUnderscore([w] + NonEmptyPieces(SplitOnBlanks(v)))
  {
    TrimEndOfWord(w);
    if v == [] {
      assert w + "_" + CollapseSpaces(v) == w + "_";
      assert NonEmptyPieces(SplitOnBlanks(v)) == [];
    } else {
      SlugCharIsNotSpace(v[0]);
      TrimEndAppend(w + "_", CollapseSpaces(v), '_');
      var rest := NonEmptyPieces(SplitOnBlanks(v));
      assert SplitOnBlanks(v)[0] != [];
      assert rest != [];
      JoinCons(w, rest);
    }
  }

  /** Collapsing the blanks of a clean string that does not start with one,
      then dropping the trailing '_', joins its words with '_'. */
  lemma {:induction false} CollapsedWords(u: string)
    requires Clean(u) && (u == [] || !IsPySpace(u[0]))
    ensures TrimEnd(CollapseSpaces(u), '_') == JoinUnderscore(NonEmptyPieces(SplitOnBlanks(u)))
    decreases |u|
  {
    var k := WordLength(u);
    if k == |u| {
      WordHasNoBlank(u);
      NoBlank(u);
      if u != [] {
        TrimEndOfWord(u);
      }
    } else {
      var v := SplitAtBlank(u, k);
      CollapsedWords(v);
      WordThenRest(u[..k], v);
    }
  }

  /** A clean string is its first word, a blank, and a rest that, without its
      leading blanks, is v. */
  lemma SplitAtBlank(u: string, k: nat) returns (v: string)
    requires Clean(u) && u != [] && !IsPySpace(u[0])
    requires k == WordLength(u) < |u|
    ensures Clean(v) && |v| < |u| && (v == [] || IsSlugChar(v[0]))
    ensures u[..k] != [] && IsSlugChar(u[..k][k - 1])
    ensures CollapseSpaces(u) == u[..k] + "_" + CollapseSpaces(v)
    ensures NonEmptyPieces(SplitOnBlanks(u)) == [u[..k]] + NonEmptyPieces(SplitOnBlanks(v))
  {
    v := WordAndRest(u, k);
    CleanRest(u, v);
    LastOfWord(u, k);
  }

  /** A suffix of a clean string that does not start with a blank starts with a slug character. */
  lemma CleanRest(u: string, v: string)
    requires Clean(u) && |v| <= |u| && v == u[|u| - |v|..]
    requires v != [] ==> !IsPySpace(v[0])
    ensures Clean(v) && (v == [] || IsSlugChar(v[0]))
  {
    CleanSuffix(u, |u| - |v|);
  }

  /** The last character of the first word of a clean string is a slug character. */
  lemma LastOfWord(u: string, k: nat)
    requires Clean(u) && u != [] && !IsPySpace(u[0])
    requires k == WordLength(u)
    ensures 0 < k && u[..k] != [] && IsSlugChar(u[..k][k - 1])
  {
    WordHasNoBlank(u);
    assert !IsPySpace(u[k - 1]);
    assert u[..k][k - 1] == u[k - 1];
  }

  lemma WordAndRest(u: string, k: nat) returns (v: string)
    requires 0 < k == WordLength(u) < |u|
    ensures v == DropSpaces(u[k + 1..]) && v == u[|u| - |v|..] && |v| < |u|
    ensures CollapseSpaces(u) == u[..k] + "_" + CollapseSpaces(v)
    ensures NonEmptyPieces(SplitOnBlanks(u)) == [u[..k]] + NonEmptyPieces(SplitOnBlanks(v))
  {
    var rest := u[k + 1..];
    v := DropSpaces(rest);
    SuffixOfSuffix(u, k + 1, v);
    CollapseAtBlank(u);
    PiecesAtBlank(u, k);
  }

  /** A suffix of the suffix of u from n on is a suffix of u. */
  lemma SuffixOfSuffix(u: string, n: nat, v: string)
    requires n <= |u| && |v| <= |u[n..]| && v == u[n..][|u[n..]| - |v|..]
    ensures v == u[|u| - |v|..]
  {
  }

  lemma PiecesAtBlank(u: string, k: nat)
    requires 0 < k == WordLength(u) < |u|
    ensures NonEmptyPieces(SplitOnBlanks(u)) == [u[..k]] + NonEmptyPieces(SplitOnBlanks(DropSpaces(u[k + 1..])))
  {
    var rest := u[k + 1..];
    SplitAtWord(u);
    SplitDropSpaces(rest);
    NonEmptyCons(u[..k], SplitOnBlanks(rest));
  }

  /** Stripping the leading '_' of the collapsed string is collapsing it
      without its leading blanks. */
  lemma TrimStartCollapsed(u: string)
    requires Clean(u)
    ensures TrimStart(CollapseSpaces(u), '_') == CollapseSpaces(DropSpaces(u))
  {
    if u != [] && IsPySpace(u[0]) {
      var d := DropSpaces(u[1..]);
      CollapseBlankHead(u);
      SuffixOfSuffix(u, 1, d);
      CleanRest(u, d);
      NoUnderscoreFirst(d);
      TrimOneUnderscore(CollapseSpaces(d));
    } else {
      NoUnderscoreFirst(u);
      TrimNoUnderscore(CollapseSpaces(u));
    }
  }

  lemma CollapseBlankHead(u: string)
    requires u != [] && IsPySpace(u[0])
    ensures DropSpaces(u) == DropSpaces(u[1..])
    ensures CollapseSpaces(u) == "_" + CollapseSpaces(DropSpaces(u[1..]))
  {
  }

  /** Collapsing a string that starts with neither a blank nor '_' does not give a leading '_'. */
  lemma NoUnderscoreFirst(d: string)
    requires Clean(d) && (d == [] || !IsPySpace(d[0]))
    ensures CollapseSpaces(d) == [] || CollapseSpaces(d)[0] != '_'
  {
  }

  lemma TrimOneUnderscore(x: string)
    requires x == [] || x[0] != '_'
    ensures TrimStart("_" + x, '_') == x
  {
    assert ("_" + x)[1..] == x;
  }

  lemma TrimNoUnderscore(x: string)
    requires x == [] || x[0] != '_'
    ensures TrimStart(x, '_') == x
  {
  }

  /** Lines 49 to 53 compute the reference: each run of `_`, `-`, `.` and
      blanks becomes one '_' between the words, every other character is
      deleted, and nothing is left at either end. */
  lemma SlugIsWords(s: string)
    ensures Slug(s) == SlugOfWords(s)
  {
    var t := SeparatorsToSpaces(s);
    SlugIsStripped(s);
    StrippedWords(KeepSlugChars(t));
    SplitKeepSlugChars(t);
  }

  /** Steps 6 and 7 change nothing: the slug is the stripped collapsed string. */
  lemma SlugIsStripped(s: string)
    ensures Slug(s) == Strip(CollapseSpaces(KeepSlugChars(SeparatorsToSpaces(s))), '_')
  {
    var g := CollapseSpaces(KeepSlugChars(SeparatorsToSpaces(s)));
    CollapseSpacesUnderscored(KeepSlugChars(SeparatorsToSpaces(s)));
    StripUnderscoresLetters(g);
    RemoveNulOfUnderscored(Strip(g, '_'));
    StripSpacesOfTrimmed(Strip(g, '_'));
  }

  lemma StrippedWords(u: string)
    requires Clean(u)
    ensures Strip(CollapseSpaces(u), '_') == JoinUnderscore(NonEmptyPieces(SplitOnBlanks(u)))
  {
    TrimStartCollapsed(u);
    var d := DropSpaces(u);
    CleanSuffix(u, |u| - |d|);
    assert u[|u| - |d|..] == d;
    CollapsedWords(d);
    SplitDropSpaces(u);
  }
}
