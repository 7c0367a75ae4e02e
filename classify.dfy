/**
 * classify_page: a page title is put into a category by looking for keywords,
 * group after group, in its lower-cased form.
 */
module Classification {
  import opened Text

  datatype Category = CineTV | Tecnologia | Ciencia | Deportes | General

  /** The label stored in the `category` column. */
  function Label(c: Category): string
  {
    match c
    case CineTV => "Cine_TV"
    case Tecnologia => "Tecnologia"
    case Ciencia => "Ciencia"
    case Deportes => "Deportes"
    case General => "General"
  }

  const CineTVWords: seq<string> := ["movie", "film", "actor", "series", "tv", "netflix"]
  const TecnologiaWords: seq<string> := ["software", "program", "ai", "data", "python", "java"]
  const CienciaWords: seq<string> := ["earthquake", "physics", "chemistry", "space", "science", "astronomy"]
  const DeportesWords: seq<string> := ["sport", "football", "soccer", "basket", "world_cup"]

  /** The keyword groups in the order they are tried, with the category each one gives. */
  const Groups: seq<(Category, seq<string>)> :=
    [(CineTV, CineTVWords), (Tecnologia, TecnologiaWords), (Ciencia, CienciaWords), (Deportes, DeportesWords)]

  function Classify(title: string): Category
  {
    var t := LowerString(title);
    if ContainsAny(t, CineTVWords) then CineTV
    else if ContainsAny(t, TecnologiaWords) then Tecnologia
    else if ContainsAny(t, CienciaWords) then Ciencia
    else if ContainsAny(t, DeportesWords) then Deportes
    else General
  }

  /** Some keyword of group j occurs, as a substring, in the lower-cased title. */
  ghost predicate GroupMatches(title: string, j: nat)
    requires j < |Groups|
  {
    exists w, i :: w in Groups[j].1 && OccursAt(LowerString(title), w, i)
  }

  lemma ContainsAnyIff(t: string, words: seq<string>)
    ensures ContainsAny(t, words) <==> exists w, i :: w in words && OccursAt(t, w, i)
  {
    forall k | 0 <= k < |words| { ContainsIff(t, words[k]); }
    if exists w, i :: w in words && OccursAt(t, w, i) {
      var w, i :| w in words && OccursAt(t, w, i);
      var k :| 0 <= k < |words| && words[k] == w;
      assert Contains(t, words[k]);
    }
  }

  lemma GroupMatchesIff(title: string, j: nat)
    requires j < |Groups|
    ensures GroupMatches(title, j) <==> ContainsAny(LowerString(title), Groups[j].1)
  {
    ContainsAnyIff(LowerString(title), Groups[j].1);
  }

  /** The category is that of the first group with a keyword in the title;
      General exactly when no group has one. */
  lemma ClassifyIsFirstMatchingGroup(title: string)
    ensures forall k :: 0 <= k < |Groups| ==>
      (Classify(title) == Groups[k].0 <==> GroupMatches(title, k) && forall j :: 0 <= j < k ==> !GroupMatches(title, j))
    ensures Classify(title) == General <==> forall j :: 0 <= j < |Groups| ==> !GroupMatches(title, j)
  {
    GroupMatchesIff(title, 0);
    GroupMatchesIff(title, 1);
    GroupMatchesIff(title, 2);
    GroupMatchesIff(title, 3);
  }

  lemma PythonProgHasNoCineTVWord()
    ensures !ContainsAny("python_prog", CineTVWords)
  {
    assert !Contains("python_prog", "movie");
    assert !Contains("python_prog", "film");
    assert !Contains("python_prog", "actor");
    assert !Contains("python_prog", "series");
    assert !Contains("python_prog", "tv");
    assert !Contains("python_prog", "netflix");
  }

  lemma PythonProgHasPython()
    ensures ContainsAny("python_prog", TecnologiaWords)
  {
    assert TecnologiaWords[4] == "python" && Contains("python_prog", TecnologiaWords[4]);
  }

  /** "Python_Prog" holds "python" and none of the film and television words. */
  lemma ClassifyPythonProg(title: string)
    requires title == "Python_Prog"
    ensures Classify(title) == Tecnologia
  {
    LowerPythonProg(title);
    PythonProgHasPython();
    PythonProgHasNoCineTVWord();
  }

  lemma LowerPythonProg(title: string)
    requires title == "Python_Prog"
    ensures LowerString(title) == "python_prog"
  {
  }

  /** Keywords are substrings, not words: "ai" inside "Spain" makes it a technology page. */
  lemma ClassifySpain()
    ensures Classify("Spain") == Tecnologia
  {
    var t := LowerString("Spain");
    assert t == "spain";
    assert TecnologiaWords[2] == "ai" && Contains(t, TecnologiaWords[2]);
    assert ContainsAny(t, TecnologiaWords);
    assert !Contains("spain", "movie");
    assert !Contains("spain", "film");
    assert !Contains("spain", "actor");
    assert !Contains("spain", "series");
    assert !Contains("spain", "tv");
    assert !Contains("spain", "netflix");
    assert !ContainsAny(t, CineTVWords);
  }

  /** A word with a character outside the text's alphabet does not occur in it. */
  lemma MissingChar(t: string, alphabet: string, w: string, j: int)
    requires forall i :: 0 <= i < |t| ==> t[i] in alphabet
    requires 0 <= j < |w| && w[j] !in alphabet
    ensures !Contains(t, w)
  {
    ContainsIff(t, w);
    forall k | OccursAt(t, w, k) ensures t[k + j] in alphabet {
    }
  }

  /** A word with two neighbouring characters that never stand side by side
      in the text does not occur in it. */
  lemma MissingPair(t: string, w: string, j: int)
    requires 0 <= j < |w| - 1
    requires forall i :: 0 <= i < |t| - 1 && t[i] == w[j] ==> t[i + 1] != w[j + 1]
    ensures !Contains(t, w)
  {
    ContainsIff(t, w);
    forall k | OccursAt(t, w, k) ensures t[k + j] == w[j] && t[k + j + 1] == w[j + 1] {
      assert t[k..k + |w|] == w;
    }
  }

  /** "Mi-Canci\U{F3}n_favorita" holds no keyword of any group. */
  lemma ClassifyCancion(title: string)
    requires title == "Mi-Canci\U{F3}n_favorita"
    ensures Classify(title) == General
  {
    var t := LowerString(title);
    LowerCancion(title);
    ShapeOfCancion(t);
    CancionLacksCineTVWords(t);
    CancionLacksTecnologiaWords(t);
    CancionLacksCienciaWords(t);
    CancionLacksDeportesWords(t);
  }

  const Cancion := "mi-canci\U{F3}n_favorita"
  const CancionAlphabet := "mi-can\U{F3}_fvort"

  lemma LowerCancion(title: string)
    requires title == "Mi-Canci\U{F3}n_favorita"
    ensures LowerString(title) == Cancion
  {
  }

  lemma ShapeOfCancion(t: string)
    requires t == Cancion
    ensures CancionShape(t)
  {
  }

  /** The characters of the lower-cased title, and the neighbours of its
      'a's and its 't'. */
  predicate CancionShape(t: string)
  {
    && (forall i :: 0 <= i < |t| ==> t[i] in CancionAlphabet)
    && (forall i :: 0 <= i < |t| - 1 && t[i] == 'a' ==> t[i + 1] == 'n' || t[i + 1] == 'v')
    && (forall i :: 0 <= i < |t| - 1 && t[i] == 't' ==> t[i + 1] == 'a')
  }

  lemma CancionLacksCineTVWords(t: string)
    requires CancionShape(t)
    ensures !ContainsAny(t, CineTVWords)
  {
    MissingChar(t, CancionAlphabet, "movie", 4);
    MissingChar(t, CancionAlphabet, "film", 2);
    MissingPair(t, "actor", 0);
    MissingChar(t, CancionAlphabet, "series", 1);
    MissingPair(t, "tv", 0);
    MissingChar(t, CancionAlphabet, "netflix", 1);
  }

  lemma CancionLacksTecnologiaWords(t: string)
    requires CancionShape(t)
    ensures !ContainsAny(t, TecnologiaWords)
  {
    MissingChar(t, CancionAlphabet, "software", 0);
    MissingChar(t, CancionAlphabet, "program", 0);
    MissingPair(t, "ai", 0);
    MissingChar(t, CancionAlphabet, "data", 0);
    MissingChar(t, CancionAlphabet, "python", 0);
    MissingChar(t, CancionAlphabet, "java", 0);
  }

  lemma CancionLacksCienciaWords(t: string)
    requires CancionShape(t)
    ensures !ContainsAny(t, CienciaWords)
  {
    MissingChar(t, CancionAlphabet, "earthquake", 0);
    MissingChar(t, CancionAlphabet, "physics", 0);
    MissingChar(t, CancionAlphabet, "chemistry", 2);
    MissingChar(t, CancionAlphabet, "space", 0);
    MissingChar(t, CancionAlphabet, "science", 0);
    MissingChar(t, CancionAlphabet, "astronomy", 1);
  }

  lemma CancionLacksDeportesWords(t: string)
    requires CancionShape(t)
    ensures !ContainsAny(t, DeportesWords)
  {
    MissingChar(t, CancionAlphabet, "sport", 0);
    MissingChar(t, CancionAlphabet, "football", 4);
    MissingChar(t, CancionAlphabet, "soccer", 0);
    MissingChar(t, CancionAlphabet, "basket", 0);
    MissingChar(t, CancionAlphabet, "world_cup", 0);
  }
}
