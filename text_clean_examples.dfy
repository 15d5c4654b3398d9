/**
 * Worked examples of `clean_text` (app.py:26-31): "<b>GREAT</b> movie!!"
 * cleans to "great movie", its two tags acting as spaces, and the two
 * non-ASCII capitals whose lower-case form holds an ASCII letter.
 */
module TextCleanExamples {
  import opened TextClean
  import opened TextCleanProofs
  import opened TextCleanWords

  /** The worked example end to end: "<b>GREAT</b> movie!!" cleans to "great movie". */
  lemma GreatMovie()
    ensures CleanText("<b>GREAT</b> movie!!") == "great movie"
  {
    TagsBecomeSpaces();
    SpacedGreatMovie();
  }

  /** The example once its tags are spaces, step by step. */
  lemma SpacedGreatMovie()
    ensures CleanText(" GREAT  movie!!") == "great movie"
  {
    LowerGreatMovie();
    StripTagsGreatMovie();
    KeepGreatMovie();
    NormalizeGreatMovie();
    CleanChain(" GREAT  movie!!", " great  movie!!", " great  movie", "great movie");
  }

  /** The four steps of CleanText, given their results one by one. */
  lemma CleanChain(s: string, l: string, k: string, r: string)
    requires Lower(s) == l && StripTags(l) == l && KeepLettersAndSpaces(l) == k
    requires Strip(CollapseSpaces(k)) == r
    ensures CleanText(s) == r
  {
  }

  // Step 1

  lemma LowerGreatMovie()
    ensures Lower(" GREAT  movie!!") == " great  movie!!"
  {
    LowerGreat();
    LowerTail();
    UpperPieces();
    LowerPieces();
    LowerChain(" ", "GREAT", "  movie!!", " GREAT  movie!!", "great", " great  movie!!");
  }

  /** Lower-casing three pieces whose first is a blank and whose last is unchanged. */
  lemma LowerChain(x: string, y: string, z: string, s: string, ly: string, l: string)
    requires x == " " && s == x + y + z && Lower(y) == ly && Lower(z) == z && l == x + ly + z
    ensures Lower(s) == l
  {
    LowerAppend(x + y, z);
    LowerAppend(x, y);
    LowerFixed(x);
  }

  lemma LowerGreat()
    ensures Lower("GREAT") == "great"
  {
  }

  lemma LowerTail()
    ensures Lower("  movie!!") == "  movie!!"
  {
    TailPieces();
    LowerMovie();
    LowerBangs();
    LowerPair("  movie", "!!", "  movie!!");
  }

  /** Two texts that lower-casing leaves alone make a third one. */
  lemma LowerPair(x: string, y: string, s: string)
    requires s == x + y && Lower(x) == x && Lower(y) == y
    ensures Lower(s) == s
  {
    LowerAppend(x, y);
  }

  lemma LowerMovie()
    ensures Lower("  movie") == "  movie"
  {
    LowerFixed("  movie");
  }

  lemma TailPieces()
    ensures "  movie!!" == "  movie" + "!!"
  {
  }

  lemma LowerBangs()
    ensures Lower("!!") == "!!"
  {
  }

  lemma UpperPieces()
    ensures " GREAT  movie!!" == " " + "GREAT" + "  movie!!"
  {
  }

  lemma LowerPieces()
    ensures " great  movie!!" == " " + "great" + "  movie!!"
  {
  }

  // Step 2

  lemma StripTagsGreatMovie()
    ensures StripTags(" great  movie!!") == " great  movie!!"
  {
    NoOpenGreatMovie(" great  movie!!");
  }

  /** The example holds no '<', so step 2 leaves it alone. */
  lemma NoOpenGreatMovie(s: string)
    requires s == " great  movie!!"
    ensures StripTags(s) == s
  {
    assert '<' !in s;
    StripTagsFixed(s);
  }

  // Step 3

  lemma KeepGreatMovie()
    ensures KeepLettersAndSpaces(" great  movie!!") == " great  movie"
  {
    BangsPieces();
    KeepWords();
    KeepBangs();
    KeepChain(" great  movie", "!!", " great  movie!!");
  }

  /** Deletion on a kept text followed by a text it deletes whole. */
  lemma KeepChain(x: string, y: string, s: string)
    requires s == x + y && KeepLettersAndSpaces(x) == x && KeepLettersAndSpaces(y) == []
    ensures KeepLettersAndSpaces(s) == x
  {
    KeepAppend(x, y);
  }

  lemma BangsPieces()
    ensures " great  movie!!" == " great  movie" + "!!"
  {
  }

  lemma KeepWords()
    ensures KeepLettersAndSpaces(" great  movie") == " great  movie"
  {
    KeepFixed(" great  movie");
  }

  lemma KeepBangs()
    ensures KeepLettersAndSpaces("!!") == []
  {
  }

  // Step 4

  lemma NormalizeGreatMovie()
    ensures Strip(CollapseSpaces(" great  movie")) == "great movie"
  {
    NormalizeIsJoin(" great  movie");
    WordsGreatMovie();
    JoinGreatMovie();
  }

  lemma JoinGreatMovie()
    ensures Join(["great", "movie"]) == "great movie"
  {
  }

  lemma WordsGreatMovie()
    ensures Words(" great  movie") == ["great", "movie"]
  {
    WordsDropSpaces(" great  movie");
    DropGreat();
    WordsGreat();
  }

  lemma DropGreat()
    ensures DropSpaces(" great  movie") == "great  movie"
  {
  }

  lemma WordsGreat()
    ensures Words("great  movie") == ["great", "movie"]
  {
    GreatPieces();
    WordsMovieTail();
    WordsStep("great  movie", "great", "  movie", ["movie"]);
  }

  lemma GreatPieces()
    ensures "great  movie" == "great" + "  movie"
    ensures forall c {:trigger c in "great"} :: c in "great" ==> !IsSpace(c)
  {
  }

  lemma WordsMovieTail()
    ensures Words("  movie") == ["movie"]
  {
    WordsDropSpaces("  movie");
    DropMovie();
    WordsMovie();
  }

  lemma DropMovie()
    ensures DropSpaces("  movie") == "movie"
  {
  }

  lemma WordsMovie()
    ensures Words("movie") == ["movie"]
  {
    MoviePieces();
    WordsStep("movie", "movie", [], []);
  }

  lemma MoviePieces()
    ensures "movie" == "movie" + []
    ensures forall c {:trigger c in "movie"} :: c in "movie" ==> !IsSpace(c)
  {
  }

  /** A word followed by whitespace or nothing is the first of the words. */
  lemma WordsStep(s: string, w: string, rest: string, ws: seq<string>)
    requires w != [] && forall c {:trigger c in w} :: c in w ==> !IsSpace(c)
    requires rest == [] || IsSpace(rest[0])
    requires s == w + rest && Words(rest) == ws
    ensures Words(s) == [w] + ws
  {
    assert s[0] == w[0] && w[0] in w;
    WordsCons(s);
    FirstWordOf(w, rest);
    assert s[|w|..] == rest;
  }

  /** Both tags of the example act as spaces, so "GREAT" and "movie" are never glued. */
  lemma TagsBecomeSpaces()
    ensures CleanText("<b>GREAT</b> movie!!") == CleanText(" GREAT  movie!!")
  {
    FirstTag();
    SecondTag();
  }

  lemma FirstTag()
    ensures CleanText("<b>GREAT</b> movie!!") == CleanText(" GREAT</b> movie!!")
  {
    var b := "GREAT</b> movie!!";
    FirstTagTagged();
    FirstTagSpaced();
    SettledNoOpen("");
    TagStep([], "b", b, "<b>GREAT</b> movie!!", " GREAT</b> movie!!");
  }

  lemma FirstTagTagged()
    ensures "<b>GREAT</b> movie!!" == [] + ['<'] + "b" + ['>'] + "GREAT</b> movie!!"
  {
  }

  lemma FirstTagSpaced()
    ensures " GREAT</b> movie!!" == [] + [' '] + "GREAT</b> movie!!"
  {
  }

  lemma SecondTag()
    ensures CleanText(" GREAT</b> movie!!") == CleanText(" GREAT  movie!!")
  {
    SecondTagTagged();
    SecondTagSpaced();
    GreatSettled();
    TagStep(" GREAT", "/b", " movie!!", " GREAT</b> movie!!", " GREAT  movie!!");
  }

  lemma GreatSettled()
    ensures Settled(" GREAT")
  {
    SettledNoOpen(" GREAT");
  }

  lemma SecondTagTagged()
    ensures " GREAT</b> movie!!" == " GREAT" + ['<'] + "/b" + ['>'] + " movie!!"
  {
  }

  lemma SecondTagSpaced()
    ensures " GREAT  movie!!" == " GREAT" + [' '] + " movie!!"
  {
  }

  /** TagActsAsSpace with the two texts given whole. */
  lemma TagStep(a: string, t: string, b: string, tagged: string, spaced: string)
    requires Settled(a) && '>' !in t && '\n' !in t
    requires tagged == a + ['<'] + t + ['>'] + b && spaced == a + [' '] + b
    ensures CleanText(tagged) == CleanText(spaced)
  {
    TagActsAsSpace(a, t, b);
  }

  /** The Kelvin sign lower-cases to an ASCII "k", which step 3 keeps. */
  lemma KelvinSignCleansToK()
    ensures CleanText("\U{212A}") == "k"
  {
    KelvinSignPieces();
    CleanChain("\U{212A}", "k", "k", "k");
  }

  lemma KelvinSignPieces()
    ensures Lower("\U{212A}") == "k" && StripTags("k") == "k" && KeepLettersAndSpaces("k") == "k"
    ensures Strip(CollapseSpaces("k")) == "k"
  {
  }

  /** Capital I with dot above lower-cases to "i" and a combining dot, and step 3 drops the dot. */
  lemma CapitalIWithDotCleansToI()
    ensures CleanText("\U{0130}") == "i"
  {
    CapitalIWithDotPieces();
    CleanChain("\U{0130}", "i\U{0307}", "i", "i");
  }

  lemma CapitalIWithDotPieces()
    ensures Lower("\U{0130}") == "i\U{0307}" && StripTags("i\U{0307}") == "i\U{0307}"
    ensures KeepLettersAndSpaces("i\U{0307}") == "i" && Strip(CollapseSpaces("i")) == "i"
  {
  }
}
