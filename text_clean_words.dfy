/**
 * An independent description of step 4 of `clean_text` (app.py:31): in
 * Python's own words, `re.sub(r'\s+', ' ', t).strip()` is `' '.join(t.split())`.
 * Words is `str.split()` with no argument and Join is `' '.join`.
 */
module TextCleanWords {
  import opened TextClean
  import opened TextCleanProofs

  /** A non-empty run of non-whitespace characters. */
  predicate IsWord(w: string)
  {
    w != [] && forall c {:trigger c in w} :: c in w ==> !IsSpace(c)
  }

  /**
   * The longest prefix of s without whitespace: no longer than s, free of
   * whitespace, followed by whitespace or the end, and non-empty when s
   * starts with something else (FirstWordIsPrefix shows that it is a prefix).
   */
  function FirstWord(s: string): (w: string)
    ensures |w| <= |s|
    ensures forall c {:trigger c in w} :: c in w ==> !IsSpace(c)
    ensures s != [] && !IsSpace(s[0]) ==> w != []
  {
    if s == [] || IsSpace(s[0]) then [] else [s[0]] + FirstWord(s[1..])
  }

  /** FirstWord(s) is a prefix of s that whitespace or the end of s follows. */
  lemma {:induction false} FirstWordIsPrefix(s: string)
    ensures s == FirstWord(s) + s[|FirstWord(s)|..]
    ensures |FirstWord(s)| < |s| ==> IsSpace(s[|FirstWord(s)|])
  {
    if s != [] && !IsSpace(s[0]) {
      var t := s[1..];
      FirstWordIsPrefix(t);
      var w := FirstWord(t);
      assert FirstWord(s) == [s[0]] + w;
      PrefixStep(s, t, w);
    } else {
      assert s[0..] == s;
    }
  }

  lemma PrefixStep(s: string, t: string, w: string)
    requires s != [] && t == s[1..] && |w| <= |t| && t == w + t[|w|..]
    ensures s == ([s[0]] + w) + s[|w| + 1..]
    ensures |w| < |t| ==> s[|w| + 1] == t[|w|]
  {
    assert s[|w| + 1..] == t[|w|..];
    assert s == [s[0]] + t;
  }

  /** `s.split()`: the maximal runs of non-whitespace characters of s, in order. */
  function Words(s: string): (ws: seq<string>)
    ensures ws == [] <==> DropSpaces(s) == []
    decreases |s|
  {
    var t := DropSpaces(s);
    if t == [] then []
    else
      var w := FirstWord(t);
      [w] + Words(t[|w|..])
  }

  /** `' '.join(ws)`. */
  function Join(ws: seq<string>): string
  {
    if ws == [] then []
    else if |ws| == 1 then ws[0]
    else ws[0] + [' '] + Join(ws[1..])
  }

  /** Every piece `split()` returns is a word. */
  lemma {:induction false} WordsAreWords(s: string)
    ensures forall i :: 0 <= i < |Words(s)| ==> IsWord(Words(s)[i])
    decreases |s|
  {
    var t := DropSpaces(s);
    if t != [] {
      var w := FirstWord(t);
      var more := Words(t[|w|..]);
      WordsAreWords(t[|w|..]);
      var ws := Words(s);
      assert ws == [w] + more;
      assert w[0] in w;
      forall i | 0 <= i < |ws| ensures IsWord(ws[i]) {
        if i > 0 {
          assert ws[i] == more[i - 1];
        }
      }
    }
  }

  /** Joining words gives a text that neither starts nor ends with whitespace. */
  lemma {:induction false} JoinEdges(ws: seq<string>)
    requires forall i :: 0 <= i < |ws| ==> IsWord(ws[i])
    ensures ws == [] <==> Join(ws) == []
    ensures Join(ws) != [] ==> !IsSpace(Join(ws)[0]) && !IsSpace(Join(ws)[|Join(ws)| - 1])
  {
    if |ws| == 1 {
      assert ws[0][0] in ws[0] && ws[0][|ws[0]| - 1] in ws[0];
    } else if |ws| > 1 {
      var w, r := ws[0], Join(ws[1..]);
      JoinEdges(ws[1..]);
      assert Join(ws) == w + [' '] + r;
      assert w[0] in w;
    }
  }

  /** Leading whitespace does not change the words. */
  lemma WordsDropSpaces(s: string)
    ensures Words(DropSpaces(s)) == Words(s)
  {
    var t := DropSpaces(s);
    assert t == [] || !IsSpace(t[0]);
    assert DropSpaces(t) == t;
  }

  /** Words and Join split and glue at the first word. */
  lemma WordsCons(s: string)
    requires s != [] && !IsSpace(s[0])
    ensures Words(s) == [FirstWord(s)] + Words(s[|FirstWord(s)|..])
  {
    assert DropSpaces(s) == s;
  }

  lemma JoinCons(w: string, ws: seq<string>)
    requires ws != []
    ensures Join([w] + ws) == w + [' '] + Join(ws)
  {
    assert ([w] + ws)[1..] == ws;
  }

  /** `' '` unless s ends with whitespace. */
  function TrailingSpace(s: string): string
  {
    if s != [] && IsSpace(s[|s| - 1]) then " " else ""
  }

  /** A run of whitespace at the front becomes one ' '. */
  lemma CollapseLeadingRun(s: string)
    requires s != [] && IsSpace(s[0])
    ensures CollapseSpaces(s) == [' '] + CollapseSpaces(DropSpaces(s))
  {
  }

  /** A text that does not start with whitespace has nothing for DropSpaces to drop. */
  lemma DropSpacesNone(s: string)
    requires s == [] || !IsSpace(s[0])
    ensures DropSpaces(s) == s
  {
  }

  /** A text whose last character lies in a word does not end with whitespace. */
  lemma TrailingSpaceOfWord(w: string)
    requires IsWord(w)
    ensures TrailingSpace(w) == ""
  {
    assert w[|w| - 1] in w;
  }

  /**
   * On a text that does not start with whitespace, `\s+` -> ' ' gives the
   * words joined by single spaces, plus one space if the text ended in
   * whitespace.
   */
  lemma {:induction false} CollapseIsJoin(s: string)
    requires s == [] || !IsSpace(s[0])
    ensures CollapseSpaces(s) == Join(Words(s)) + TrailingSpace(s)
    decreases |s|
  {
    if s != [] {
      var w := FirstWord(s);
      var rest := s[|w|..];
      FirstWordIsPrefix(s);
      assert w[0] in w;
      CollapseWord(w, rest);
      WordsCons(s);
      if rest == [] {
        CollapseIsJoinLastWord(s, w);
      } else {
        var t := DropSpaces(rest);
        CollapseIsJoin(t);
        CollapseIsJoinMore(s, w, rest, t);
      }
    }
  }

  /** CollapseIsJoin for a text that is a single word. */
  lemma CollapseIsJoinLastWord(s: string, w: string)
    requires IsWord(w) && s == w + []
    requires CollapseSpaces(s) == w + CollapseSpaces([])
    requires Words(s) == [w] + Words([])
    ensures CollapseSpaces(s) == Join(Words(s)) + TrailingSpace(s)
  {
    TrailingSpaceOfWord(w);
    assert Words(s) == [w];
  }

  /** CollapseIsJoin for a word followed by whitespace and more text. */
  lemma CollapseIsJoinMore(s: string, w: string, rest: string, t: string)
    requires s == w + rest && rest != [] && IsSpace(rest[0]) && t == DropSpaces(rest)
    requires CollapseSpaces(s) == w + CollapseSpaces(rest)
    requires Words(s) == [w] + Words(rest)
    requires CollapseSpaces(t) == Join(Words(t)) + TrailingSpace(t)
    ensures CollapseSpaces(s) == Join(Words(s)) + TrailingSpace(s)
  {
    CollapseAfterWord(s, w, rest, t);
    JoinAfterWord(s, w, rest, t);
    if t == [] {
      DropSpacesDropsSpaces(rest);
      TrailingSpaceOfRun(s, w, rest);
      assert Join(Words(t)) == [] && TrailingSpace(t) == [];
    } else {
      DropSpacesDropsSpaces(rest);
      TrailingSpaceOfTail(s, w, rest, t);
    }
  }

  /** The ' ' that replaces the run after the first word. */
  lemma CollapseAfterWord(s: string, w: string, rest: string, t: string)
    requires s == w + rest && rest != [] && IsSpace(rest[0]) && t == DropSpaces(rest)
    requires CollapseSpaces(s) == w + CollapseSpaces(rest)
    requires CollapseSpaces(t) == Join(Words(t)) + TrailingSpace(t)
    ensures CollapseSpaces(s) == w + [' '] + Join(Words(t)) + TrailingSpace(t)
  {
    CollapseLeadingRun(rest);
    Glue(CollapseSpaces(s), w, CollapseSpaces(rest), CollapseSpaces(t), Join(Words(t)), TrailingSpace(t));
  }

  lemma Glue(cs: string, w: string, cr: string, ct: string, j: string, tr: string)
    requires cs == w + cr && cr == [' '] + ct && ct == j + tr
    ensures cs == w + [' '] + j + tr
  {
  }

  /** The first word is joined to the others by one ' ', if there are others. */
  lemma JoinAfterWord(s: string, w: string, rest: string, t: string)
    requires rest != [] && t == DropSpaces(rest)
    requires Words(s) == [w] + Words(rest)
    ensures t != [] ==> Join(Words(s)) == w + [' '] + Join(Words(t))
    ensures t == [] ==> Join(Words(s)) == w
  {
    WordsDropSpaces(rest);
    if t != [] {
      JoinCons(w, Words(t));
    } else {
      assert Words(s) == [w];
    }
  }

  /** A text ends like any non-empty suffix of it. */
  lemma TrailingSpaceOfTail(s: string, w: string, rest: string, t: string)
    requires s == w + rest && t != [] && |t| <= |rest| && t == rest[|rest| - |t|..]
    ensures TrailingSpace(s) == TrailingSpace(t)
  {
    assert s[|s| - 1] == rest[|rest| - 1];
    assert t[|t| - 1] == rest[|rest| - 1];
  }

  /** A text that ends in whitespace after its first word ends with whitespace. */
  lemma TrailingSpaceOfRun(s: string, w: string, rest: string)
    requires s == w + rest && rest != [] && IsSpace(rest[|rest| - 1])
    ensures TrailingSpace(s) == " "
  {
    assert s[|s| - 1] == rest[|rest| - 1];
  }

  /** Stripping the single spaces that `\s+` -> ' ' can leave at the ends. */
  lemma StripAround(lead: string, j: string, trail: string)
    requires lead == [] || lead == " "
    requires trail == [] || trail == " "
    requires j == [] || (!IsSpace(j[0]) && !IsSpace(j[|j| - 1]))
    requires j == [] ==> trail == []
    ensures Strip(lead + j + trail) == j
  {
    var jt := j + trail;
    assert lead + j + trail == lead + jt;
    DropLeadingBlank(lead, jt);
    DropSpacesNone(jt);
    DropTrailingBlank(j, trail);
  }

  lemma DropLeadingBlank(lead: string, x: string)
    requires lead == [] || lead == " "
    ensures DropSpaces(lead + x) == DropSpaces(x)
  {
    if lead == " " {
      assert (lead + x)[1..] == x;
    } else {
      assert lead + x == x;
    }
  }

  lemma DropTrailingBlank(j: string, trail: string)
    requires trail == [] || trail == " "
    requires j == [] || !IsSpace(j[|j| - 1])
    ensures DropTrailingSpaces(j + trail) == j
  {
    if trail == " " {
      assert (j + trail)[..|j|] == j;
    } else {
      assert j + trail == j;
    }
  }

  /** Step 4 of `clean_text` is `' '.join(t.split())`. */
  lemma NormalizeIsJoin(u: string)
    ensures Strip(CollapseSpaces(u)) == Join(Words(u))
  {
    var t := DropSpaces(u);
    WordsDropSpaces(u);
    CollapseIsJoin(t);
    WordsAreWords(t);
    JoinEdges(Words(t));
    DropSpacesNone(t);
    if u != [] && IsSpace(u[0]) {
      CollapseLeadingRun(u);
      StripJoined(CollapseSpaces(u), " ", CollapseSpaces(t), Join(Words(t)), TrailingSpace(t));
    } else {
      DropSpacesNone(u);
      StripJoined(CollapseSpaces(u), [], CollapseSpaces(t), Join(Words(t)), TrailingSpace(t));
    }
  }

  /** The glue of NormalizeIsJoin: an optional ' ', the joined words, an optional ' '. */
  lemma StripJoined(cu: string, lead: string, ct: string, j: string, trail: string)
    requires lead == [] || lead == " "
    requires cu == lead + ct && ct == j + trail
    requires trail == [] || trail == " "
    requires j == [] || (!IsSpace(j[0]) && !IsSpace(j[|j| - 1]))
    requires j == [] ==> trail == []
    ensures Strip(cu) == j
  {
    assert cu == lead + j + trail;
    StripAround(lead, j, trail);
  }

  /**
   * `clean_text(s)` is the words left after lower-casing, tag removal and
   * deleting other characters, joined by single spaces.
   */
  lemma CleanTextIsJoinedWords(s: string)
    ensures CleanText(s) == Join(Words(KeepLettersAndSpaces(StripTags(Lower(s)))))
  {
    NormalizeIsJoin(KeepLettersAndSpaces(StripTags(Lower(s))));
  }

  /** The first word of a word followed by whitespace (or nothing) is that word. */
  lemma {:induction false} FirstWordOf(w: string, x: string)
    requires forall c {:trigger c in w} :: c in w ==> !IsSpace(c)
    requires x == [] || IsSpace(x[0])
    ensures FirstWord(w + x) == w
  {
    if w == [] {
      assert w + x == x;
    } else {
      assert (w + x)[0] == w[0] && w[0] in w;
      assert (w + x)[1..] == w[1..] + x;
      HeadAndTail(w);
      FirstWordOf(w[1..], x);
      assert w == [w[0]] + w[1..];
    }
  }

  /** Splitting what was joined gives the words back: `' '.join(ws).split() == ws`. */
  lemma {:induction false} WordsOfJoin(ws: seq<string>)
    requires forall i :: 0 <= i < |ws| ==> IsWord(ws[i])
    ensures Words(Join(ws)) == ws
  {
    if ws != [] {
      var w := ws[0];
      assert w[0] in w;
      if |ws| == 1 {
        FirstWordOf(w, []);
        assert w + [] == w;
        WordsCons(w);
        assert w[|w|..] == [];
      } else {
        var r := Join(ws[1..]);
        JoinEdges(ws[1..]);
        WordsOfJoin(ws[1..]);
        var s := w + ([' '] + r);
        assert Join(ws) == s;
        FirstWordOf(w, [' '] + r);
        assert s[0] == w[0];
        WordsCons(s);
        assert s[|w|..] == [' '] + r;
        DropLeadingBlank(" ", r);
        DropSpacesNone(r);
        WordsDropSpaces([' '] + r);
      }
    }
  }
}
