/**
 * What `clean_text` (app.py:26-31) promises about its output, proved of the
 * model in module TextClean.
 */
module TextCleanProofs {
  import opened TextClean

  /** The head of s and every character of its tail are characters of s. */
  lemma HeadAndTail(s: string)
    requires s != []
    ensures s[0] in s
    ensures forall c {:trigger c in s[1..]} :: c in s[1..] ==> c in s
  {
  }

  // ---------------------------------------------------------------------
  // Step 1: lower-casing
  // ---------------------------------------------------------------------

  lemma {:induction false} LowerAppend(a: string, b: string)
    ensures Lower(a + b) == Lower(a) + Lower(b)
  {
    if a == [] {
      assert a + b == b;
    } else {
      assert (a + b)[1..] == a[1..] + b;
      LowerAppend(a[1..], b);
    }
  }

  /** Lower-case letters and whitespace are left alone by `lower()`. */
  lemma {:induction false} LowerFixed(s: string)
    requires forall c {:trigger c in s} :: c in s ==> IsAsciiLower(c) || IsSpace(c)
    ensures Lower(s) == s
  {
    if s != [] {
      HeadAndTail(s);
      LowerFixed(s[1..]);
    }
  }

  // ---------------------------------------------------------------------
  // Step 2: tag removal
  // ---------------------------------------------------------------------

  /** ScanTag stops at the first '>' or '\n' from i on, or at the end: it is unique. */
  lemma {:induction false} ScanTagIs(s: string, i: nat, k: nat)
    requires i <= k <= |s|
    requires forall j :: i <= j < k ==> s[j] != '>' && s[j] != '\n'
    requires k < |s| ==> s[k] == '>' || s[k] == '\n'
    ensures ScanTag(s, i) == k
    decreases k - i
  {
    if i < k {
      assert s[i] != '>' && s[i] != '\n';
      ScanTagIs(s, i + 1, k);
    }
  }

  /** A tag is recognised the same way after any prefix. */
  lemma TagAtShift(p: string, x: string, i: nat)
    requires i < |x|
    ensures TagAt(p + x, |p| + i) <==> TagAt(x, i)
  {
    var s := p + x;
    var k := ScanTag(x, i + 1);
    forall j | |p| + i + 1 <= j < |p| + k
      ensures s[j] != '>' && s[j] != '\n'
    {
      assert s[j] == x[j - |p|];
    }
    ScanTagIs(s, |p| + i + 1, |p| + k);
  }

  /** A text without '<' holds no tag and passes step 2 unchanged, whatever follows it. */
  lemma {:induction false} StripTagsNoOpen(a: string, x: string)
    requires '<' !in a
    ensures StripTags(a + x) == a + StripTags(x)
  {
    if a == [] {
      assert a + x == x;
    } else {
      assert (a + x)[0] == a[0];
      assert (a + x)[1..] == a[1..] + x;
      StripTagsNoOpen(a[1..], x);
    }
  }

  /**
   * A text without '>' or '\n' that is followed by a line break (or by
   * nothing) passes step 2 unchanged: any '<' in it is cut off by the
   * line break before it finds a '>'.
   */
  lemma {:induction false} StripTagsUnclosed(p: string, q: string)
    requires forall c {:trigger c in p} :: c in p ==> c != '>' && c != '\n'
    requires q == [] || q[0] == '\n'
    ensures StripTags(p + q) == p + StripTags(q)
  {
    if p == [] {
      assert p + q == q;
    } else {
      var t := p[1..];
      UnclosedHeadCopied(p, q);
      HeadAndTail(p);
      StripTagsUnclosed(t, q);
      ConsAppend(p[0], t, StripTags(q));
      assert p == [p[0]] + t;
    }
  }

  /** A first character that opens no tag is copied by step 2. */
  lemma StripTagsCons(c: char, x: string)
    requires !TagAt([c] + x, 0)
    ensures StripTags([c] + x) == [c] + StripTags(x)
  {
    assert ([c] + x)[1..] == x;
  }

  /** The same text: its first character, even a '<', opens no tag and is copied. */
  lemma UnclosedHeadCopied(p: string, q: string)
    requires forall c {:trigger c in p} :: c in p ==> c != '>' && c != '\n'
    requires q == [] || q[0] == '\n'
    requires p != []
    ensures StripTags(p + q) == [p[0]] + StripTags(p[1..] + q)
  {
    UnclosedHead(p, q);
    assert p + q == [p[0]] + (p[1..] + q);
    StripTagsCons(p[0], p[1..] + q);
  }

  /** The same text: its first character, even a '<', opens no tag. */
  lemma UnclosedHead(p: string, q: string)
    requires forall c {:trigger c in p} :: c in p ==> c != '>' && c != '\n'
    requires q == [] || q[0] == '\n'
    requires p != []
    ensures !TagAt(p + q, 0)
  {
    var s := p + q;
    forall j | 1 <= j < |p| ensures s[j] != '>' && s[j] != '\n' {
      assert s[j] == p[j] && p[j] in p;
    }
    assert |p| < |s| ==> s[|p|] == q[0];
    ScanTagIs(s, 1, |p|);
  }

  /** A complete tag without a line break inside becomes exactly one space. */
  lemma StripTagsClosedTag(t: string, b: string)
    requires '>' !in t && '\n' !in t
    ensures StripTags(['<'] + t + ['>'] + b) == [' '] + StripTags(b)
  {
    var s := ['<'] + t + ['>'] + b;
    forall j | 1 <= j < 1 + |t| ensures s[j] != '>' && s[j] != '\n' {
      assert s[j] == t[j - 1];
    }
    ScanTagIs(s, 1, 1 + |t|);
    assert TagAt(s, 0);
    assert s[2 + |t|..] == b;
  }

  /** After step 2 no match of `<.*?>` is left: `re.sub` removed all of them. */
  lemma {:induction false} StripTagsLeavesNoTags(s: string)
    ensures NoTags(StripTags(s))
    decreases |s|
  {
    if s != [] {
      var rest := if TagAt(s, 0) then s[ScanTag(s, 1) + 1..] else s[1..];
      StripTagsLeavesNoTags(rest);
      var r := StripTags(s);
      assert r == [r[0]] + StripTags(rest);
      if s[0] == '<' && !TagAt(s, 0) {
        UnclosedStaysUnclosed(s);
      }
      NoTagsCons(r[0], StripTags(rest));
    }
  }

  /** One character in front of a text without tags opens a tag or adds none. */
  lemma NoTagsCons(x: char, tail: string)
    requires NoTags(tail)
    requires !TagAt([x] + tail, 0)
    ensures NoTags([x] + tail)
  {
    forall i | 1 <= i < 1 + |tail| ensures !TagAt([x] + tail, i) {
      TagAtShift([x], tail, i - 1);
    }
  }

  /**
   * A '<' that opens no tag is copied by step 2, and still opens none: what
   * follows it up to the line break (or the end) holds no '>' and is copied too.
   */
  lemma UnclosedStaysUnclosed(s: string)
    requires s != [] && s[0] == '<' && !TagAt(s, 0)
    ensures !TagAt(StripTags(s), 0)
  {
    var k := ScanTag(s, 1);
    var p, q := s[1..k], s[k..];
    var lp := ['<'] + p;
    assert s == ['<'] + (p + q);
    forall c {:trigger c in lp} | c in lp ensures c != '>' && c != '\n' {
      var j :| 0 <= j < |lp| && lp[j] == c;
      assert c == s[j];
    }
    HeadAndTail(lp);
    StripTagsCons('<', p + q);
    StripTagsUnclosed(p, q);
    ConsAppend('<', p, StripTags(q));
    StripTagsKeepsNewline(q);
    UnclosedHead(lp, StripTags(q));
  }

  /** A line break at the front survives step 2. */
  lemma StripTagsKeepsNewline(q: string)
    requires q == [] || q[0] == '\n'
    ensures StripTags(q) == [] || StripTags(q)[0] == '\n'
  {
  }

  // ---------------------------------------------------------------------
  // Step 4: whitespace
  // ---------------------------------------------------------------------

  /** Step 4 drops only whitespace at the front, and keeps the rest as it is. */
  lemma {:induction false} DropSpacesDropsSpaces(s: string)
    ensures DropSpaces(s) == s[|s| - |DropSpaces(s)|..]
    ensures forall i :: 0 <= i < |s| - |DropSpaces(s)| ==> IsSpace(s[i])
  {
    if s != [] && IsSpace(s[0]) {
      var t := s[1..];
      DropSpacesDropsSpaces(t);
      var r := DropSpaces(t);
      assert DropSpaces(s) == r;
      assert t[|t| - |r|..] == s[|s| - |r|..];
      forall i | 1 <= i < |s| - |r| ensures IsSpace(s[i]) {
        assert s[i] == t[i - 1];
      }
    }
  }

  /** ... and only whitespace at the back. */
  lemma {:induction false} DropTrailingSpacesDropsSpaces(s: string)
    ensures DropTrailingSpaces(s) == s[..|DropTrailingSpaces(s)|]
    ensures forall i :: |DropTrailingSpaces(s)| <= i < |s| ==> IsSpace(s[i])
  {
    if s != [] && IsSpace(s[|s| - 1]) {
      var t := s[..|s| - 1];
      DropTrailingSpacesDropsSpaces(t);
      var r := DropTrailingSpaces(t);
      assert DropTrailingSpaces(s) == r;
      assert t[..|r|] == s[..|r|];
    }
  }

  /** After `\s+` -> ' ' no two whitespace characters are neighbours. */
  lemma {:induction false} CollapseNoDoubleSpace(s: string)
    ensures NoDoubleSpace(CollapseSpaces(s))
    decreases |s|
  {
    if s != [] {
      var r := CollapseSpaces(s);
      var rest := if IsSpace(s[0]) then DropSpaces(s) else s[1..];
      var tail := CollapseSpaces(rest);
      assert r == [r[0]] + tail;
      CollapseNoDoubleSpace(rest);
      if IsSpace(s[0]) && tail != [] {
        // the run was dropped whole, so what follows the ' ' is not whitespace
        assert tail[0] == rest[0];
      }
      forall i, j | 0 <= i && j == i + 1 < |r| ensures !(IsSpace(r[i]) && IsSpace(r[j])) {
        if 0 < i {
          assert r[i] == tail[i - 1] && r[j] == tail[j - 1];
        }
      }
    }
  }

  /** Stripping keeps a contiguous piece of s and removes only whitespace. */
  lemma StripSlice(s: string) returns (i: nat, j: nat)
    ensures i <= j <= |s| && Strip(s) == s[i..j]
    ensures forall k :: 0 <= k < i ==> IsSpace(s[k])
    ensures forall k :: j <= k < |s| ==> IsSpace(s[k])
    ensures Strip(s) == [] || (!IsSpace(Strip(s)[0]) && !IsSpace(Strip(s)[|Strip(s)| - 1]))
  {
    var t := DropSpaces(s);
    var r := DropTrailingSpaces(t);
    i := |s| - |t|;
    j := i + |r|;
    DropSpacesDropsSpaces(s);
    DropTrailingSpacesDropsSpaces(t);
    SliceOfSuffix(s, t, r, i);
  }

  /** A prefix r of the suffix t of s from i is the slice of s from i to i + |r|. */
  lemma SliceOfSuffix(s: string, t: string, r: string, i: nat)
    requires i <= |s| && t == s[i..] && |r| <= |t| && r == t[..|r|]
    requires forall k :: |r| <= k < |t| ==> IsSpace(t[k])
    ensures r == s[i..i + |r|]
    ensures forall k :: i + |r| <= k < |s| ==> IsSpace(s[k])
  {
    forall k | i + |r| <= k < |s| ensures IsSpace(s[k]) {
      assert s[k] == t[k - i];
    }
  }

  // ---------------------------------------------------------------------
  // The shape of the output
  // ---------------------------------------------------------------------

  /**
   * Every output of `clean_text` is lower-case ASCII letters and single
   * spaces, and neither starts nor ends with a space.
   */
  lemma CleanTextShape(s: string)
    ensures IsCleaned(CleanText(s))
  {
    var untagged := StripTags(Lower(s));
    forall c {:trigger c in untagged} | c in untagged ensures !IsAsciiUpper(c) {
      assert c == ' ' || c in Lower(s);
    }
    NormalizeShape(untagged);
  }

  /** Steps 3 and 4 turn any text without ASCII capitals into a cleaned one. */
  lemma NormalizeShape(u: string)
    requires forall c {:trigger c in u} :: c in u ==> !IsAsciiUpper(c)
    ensures IsCleaned(Strip(CollapseSpaces(KeepLettersAndSpaces(u))))
  {
    var kept := KeepLettersAndSpaces(u);
    var collapsed := CollapseSpaces(kept);
    assert forall c {:trigger c in collapsed} :: c in collapsed ==> IsAsciiLower(c) || c == ' ';
    CollapseNoDoubleSpace(kept);
    StripShape(collapsed);
  }

  /** Stripping a text of lower-case letters and single spaces leaves a cleaned text. */
  lemma StripShape(s: string)
    requires forall c {:trigger c in s} :: c in s ==> IsAsciiLower(c) || c == ' '
    requires NoDoubleSpace(s)
    ensures IsCleaned(Strip(s))
  {
    var r := Strip(s);
    var i, j := StripSlice(s);
    forall c {:trigger c in r} | c in r ensures IsAsciiLower(c) || c == ' ' {
      var k :| 0 <= k < |r| && r[k] == c;
      assert c == s[i + k] && s[i + k] in s;
    }
    NoDoubleSpaceSlice(s, i, j);
  }

  lemma NoDoubleSpaceSlice(s: string, i: nat, j: nat)
    requires i <= j <= |s|
    requires NoDoubleSpace(s)
    ensures NoDoubleSpace(s[i..j])
  {
    var r := s[i..j];
    forall k, l | 0 <= k && l == k + 1 < |r| ensures !(IsSpace(r[k]) && IsSpace(r[l])) {
      assert r[k] == s[i + k] && r[l] == s[i + l];
    }
  }

  // ---------------------------------------------------------------------
  // Idempotence
  // ---------------------------------------------------------------------

  lemma {:induction false} StripTagsFixed(s: string)
    requires '<' !in s
    ensures StripTags(s) == s
  {
    StripTagsNoOpen(s, []);
    assert s + [] == s;
  }

  lemma {:induction false} KeepFixed(s: string)
    requires forall c {:trigger c in s} :: c in s ==> IsAsciiLetter(c) || IsSpace(c)
    ensures KeepLettersAndSpaces(s) == s
  {
    if s != [] {
      HeadAndTail(s);
      KeepFixed(s[1..]);
    }
  }

  /** Single spaces between non-space characters are what `\s+` -> ' ' leaves alone. */
  lemma {:induction false} CollapseFixed(s: string)
    requires forall c {:trigger c in s} :: c in s && IsSpace(c) ==> c == ' '
    requires NoDoubleSpace(s)
    ensures CollapseSpaces(s) == s
  {
    if s != [] {
      var tail := s[1..];
      NoDoubleSpaceSlice(s, 1, |s|);
      forall c {:trigger c in tail} | c in tail && IsSpace(c) ensures c == ' ' {
        assert c in s;
      }
      CollapseFixed(tail);
      HeadAndTail(s);
      if IsSpace(s[0]) {
        assert |s| > 1 ==> !(IsSpace(s[0]) && IsSpace(s[1]));
        DropOneSpace(s);
        assert s[0] == ' ';
      }
      assert s == [s[0]] + tail;
    }
  }

  /** A run without whitespace is copied by `\s+` -> ' ', whatever follows it. */
  lemma {:induction false} CollapseWord(w: string, x: string)
    requires forall c {:trigger c in w} :: c in w ==> !IsSpace(c)
    ensures CollapseSpaces(w + x) == w + CollapseSpaces(x)
  {
    if w == [] {
      assert w + x == x;
    } else {
      var t := w[1..];
      HeadAndTail(w);
      CollapseWord(t, x);
      assert w == [w[0]] + t;
      ConsAppend(w[0], t, x);
      CollapseCons(w[0], t + x);
      ConsAppend(w[0], t, CollapseSpaces(x));
    }
  }

  /** A character that is not whitespace is copied by `\s+` -> ' '. */
  lemma CollapseCons(c: char, x: string)
    requires !IsSpace(c)
    ensures CollapseSpaces([c] + x) == [c] + CollapseSpaces(x)
  {
    assert ([c] + x)[1..] == x;
  }

  lemma ConsAppend(c: char, t: string, x: string)
    ensures [c] + (t + x) == ([c] + t) + x
  {
  }

  lemma DropOneSpace(s: string)
    requires s != [] && IsSpace(s[0])
    requires |s| > 1 ==> !IsSpace(s[1])
    ensures DropSpaces(s) == s[1..]
  {
    assert DropSpaces(s) == DropSpaces(s[1..]);
  }

  /** `clean_text(clean_text(s)) == clean_text(s)`. */
  lemma CleanTextIdempotent(s: string)
    ensures CleanText(CleanText(s)) == CleanText(s)
  {
    CleanTextShape(s);
    CleanedIsFixed(CleanText(s));
  }

  /** Text already in cleaned shape passes all four steps unchanged. */
  lemma CleanedIsFixed(t: string)
    requires IsCleaned(t)
    ensures CleanText(t) == t
  {
    LowerFixed(t);
    assert '<' !in t;
    StripTagsFixed(t);
    KeepFixed(t);
    CollapseFixed(t);
    if t != [] {
      assert t[0] in t && t[|t| - 1] in t;
    }
    StripFixed(t);
  }

  /** `strip()` leaves alone a text that neither starts nor ends with whitespace. */
  lemma StripFixed(t: string)
    requires t == [] || (!IsSpace(t[0]) && !IsSpace(t[|t| - 1]))
    ensures Strip(t) == t
  {
  }

  // ---------------------------------------------------------------------
  // Which letters survive
  // ---------------------------------------------------------------------

  lemma {:induction false} LettersAppend(a: string, b: string)
    ensures Letters(a + b) == Letters(a) + Letters(b)
  {
    if a == [] {
      assert a + b == b;
    } else {
      assert (a + b)[1..] == a[1..] + b;
      LettersAppend(a[1..], b);
    }
  }

  lemma {:induction false} KeepKeepsLetters(s: string)
    ensures Letters(KeepLettersAndSpaces(s)) == Letters(s)
  {
    if s != [] {
      KeepKeepsLetters(s[1..]);
    }
  }

  /** Step 3 keeps letters and whitespace in place: it distributes over concatenation. */
  lemma {:induction false} KeepAppend(a: string, b: string)
    ensures KeepLettersAndSpaces(a + b) == KeepLettersAndSpaces(a) + KeepLettersAndSpaces(b)
  {
    if a == [] {
      assert a + b == b;
    } else {
      assert (a + b)[1..] == a[1..] + b;
      KeepAppend(a[1..], b);
    }
  }

  lemma {:induction false} DropSpacesKeepsLetters(s: string)
    ensures Letters(DropSpaces(s)) == Letters(s)
  {
    if s != [] && IsSpace(s[0]) {
      DropSpacesKeepsLetters(s[1..]);
    }
  }

  lemma {:induction false} DropTrailingSpacesKeepsLetters(s: string)
    ensures Letters(DropTrailingSpaces(s)) == Letters(s)
  {
    if s != [] && IsSpace(s[|s| - 1]) {
      var init := s[..|s| - 1];
      assert s == init + [s[|s| - 1]];
      LettersAppend(init, [s[|s| - 1]]);
      DropTrailingSpacesKeepsLetters(init);
    }
  }

  lemma {:induction false} CollapseKeepsLetters(s: string)
    ensures Letters(CollapseSpaces(s)) == Letters(s)
    decreases |s|
  {
    if s != [] {
      if IsSpace(s[0]) {
        DropSpacesKeepsLetters(s);
        CollapseKeepsLetters(DropSpaces(s));
      } else {
        CollapseKeepsLetters(s[1..]);
      }
    }
  }

  /**
   * The letters of the output are exactly the letters that are left, in
   * their order, once `lower()` has run and the tags are cut out; they are
   * all lower-case.
   */
  lemma CleanTextLetters(s: string)
    ensures Letters(CleanText(s)) == Letters(StripTags(Lower(s)))
    ensures forall c {:trigger c in Letters(CleanText(s))} :: c in Letters(CleanText(s)) ==> IsAsciiLower(c)
  {
    var untagged := StripTags(Lower(s));
    var kept := KeepLettersAndSpaces(untagged);
    var collapsed := CollapseSpaces(kept);
    KeepKeepsLetters(untagged);
    CollapseKeepsLetters(kept);
    DropSpacesKeepsLetters(collapsed);
    DropTrailingSpacesKeepsLetters(DropSpaces(collapsed));
    CleanTextShape(s);
  }

  /** The output is empty exactly when no letter is left outside the tags. */
  lemma CleanTextEmptyIff(s: string)
    ensures CleanText(s) == [] <==> Letters(StripTags(Lower(s))) == []
  {
    CleanTextLetters(s);
    CleanTextShape(s);
    CleanedEmptyIff(CleanText(s));
  }

  /** A cleaned text is empty exactly when it holds no letter. */
  lemma CleanedEmptyIff(r: string)
    requires IsCleaned(r)
    ensures r == [] <==> Letters(r) == []
  {
    if r != [] {
      assert r[0] in r;
      assert r[0] in Letters(r);
    }
  }

  lemma {:induction false} LowerNoLetters(s: string)
    requires forall c {:trigger c in s} :: c in s ==> Letters(LowerChar(c)) == []
    ensures Letters(Lower(s)) == []
  {
    if s != [] {
      HeadAndTail(s);
      LettersAppend(LowerChar(s[0]), Lower(s[1..]));
      LowerNoLetters(s[1..]);
    }
  }

  /**
   * A message none of whose characters lower-cases to an ASCII letter (only
   * digits, punctuation, whitespace, ...) is cleaned to the empty string.
   */
  lemma CleanTextNoLetters(s: string)
    requires forall c {:trigger c in s} :: c in s ==> Letters(LowerChar(c)) == []
    ensures CleanText(s) == []
  {
    var untagged := StripTags(Lower(s));
    LowerNoLetters(s);
    forall c {:trigger c in untagged} | c in untagged ensures !IsAsciiLetter(c) {
      if c != ' ' {
        assert c in Lower(s) && c !in Letters(Lower(s));
      }
    }
    NoLettersAtAll(untagged);
    CleanTextEmptyIff(s);
  }

  lemma {:induction false} NoLettersAtAll(s: string)
    requires forall c {:trigger c in s} :: c in s ==> !IsAsciiLetter(c)
    ensures Letters(s) == []
  {
    if s != [] {
      HeadAndTail(s);
      NoLettersAtAll(s[1..]);
    }
  }

  // ---------------------------------------------------------------------
  // Tags separate words
  // ---------------------------------------------------------------------

  lemma LowerCons(c: char, s: string)
    ensures Lower([c] + s) == LowerChar(c) + Lower(s)
  {
    assert ([c] + s)[1..] == s;
  }

  /** `lower()` leaves a tag a tag: brackets and line breaks neither appear nor vanish. */
  lemma LowerTag(t: string, b: string)
    ensures Lower(['<'] + t + ['>'] + b) == ['<'] + Lower(t) + ['>'] + Lower(b)
  {
    assert ['<'] + t + ['>'] + b == ['<'] + (t + (['>'] + b));
    LowerCons('<', t + (['>'] + b));
    LowerAppend(t, ['>'] + b);
    LowerCons('>', b);
  }

  /**
   * Every '<' of a meets a '>' or a line break later in a, so the scan of
   * `.*?` from each '<' of a ends inside a, whatever follows it.
   */
  predicate Settled(a: string)
    decreases |a|
  {
    a == [] || ((a[0] == '<' ==> '>' in a[1..] || '\n' in a[1..]) && Settled(a[1..]))
  }

  /** Text without '<' is settled. */
  lemma {:induction false} SettledNoOpen(a: string)
    requires '<' !in a
    ensures Settled(a)
    decreases |a|
  {
    if a != [] {
      HeadAndTail(a);
      SettledNoOpen(a[1..]);
    }
  }

  /** Whatever follows a settled text, the texts stay settled together. */
  lemma {:induction false} SettledAppend(p: string, q: string)
    requires Settled(p) && Settled(q)
    ensures Settled(p + q)
    decreases |p|
  {
    if p == [] {
      assert p + q == q;
    } else {
      var s := p + q;
      assert s[0] == p[0];
      assert s[1..] == p[1..] + q;
      forall c | c in p[1..] ensures c in s[1..] {
        var j :| 0 <= j < |p[1..]| && p[1..][j] == c;
        assert s[1..][j] == c;
      }
      SettledAppend(p[1..], q);
    }
  }

  /** A suffix of a settled text is settled. */
  lemma {:induction false} SettledSuffix(a: string, n: nat)
    requires Settled(a) && n <= |a|
    ensures Settled(a[n..])
    decreases n
  {
    if n > 0 {
      SettledSuffix(a[1..], n - 1);
      assert a[1..][n - 1..] == a[n..];
    }
  }

  /** `lower()` keeps '>' and line breaks. */
  lemma {:induction false} LowerKeepsCloser(s: string, c: char)
    requires c in s && (c == '>' || c == '\n')
    ensures c in Lower(s)
    decreases |s|
  {
    LowerCons(s[0], s[1..]);
    assert s == [s[0]] + s[1..];
    if s[0] != c {
      LowerKeepsCloser(s[1..], c);
    }
  }

  /** `lower()` keeps a settled text settled. */
  lemma {:induction false} LowerSettled(a: string)
    requires Settled(a)
    ensures Settled(Lower(a))
    decreases |a|
  {
    if a != [] {
      LowerSettled(a[1..]);
      LowerCons(a[0], a[1..]);
      assert a == [a[0]] + a[1..];
      var head := LowerChar(a[0]);
      if a[0] == '<' {
        var c := if '>' in a[1..] then '>' else '\n';
        LowerKeepsCloser(a[1..], c);
        assert head == ['<'];
        var l := Lower(a);
        assert l[1..] == Lower(a[1..]);
      } else {
        assert '<' !in head;
        SettledNoOpen(head);
        SettledAppend(head, Lower(a[1..]));
      }
    }
  }

  /** A scan that ends inside a ends at the same place whatever follows a. */
  lemma ScanTagPrefix(a: string, x: string, i: nat)
    requires i <= |a| && ScanTag(a, i) < |a|
    ensures ScanTag(a + x, i) == ScanTag(a, i)
  {
    var k := ScanTag(a, i);
    var s := a + x;
    forall j | i <= j < k ensures s[j] != '>' && s[j] != '\n' {
      assert s[j] == a[j];
    }
    assert s[k] == a[k];
    ScanTagIs(s, i, k);
  }

  /** The scan from just after a '<' of a settled text ends inside it. */
  lemma SettledScan(a: string)
    requires a != [] && a[0] == '<' && Settled(a)
    ensures ScanTag(a, 1) < |a|
  {
    var c := if '>' in a[1..] then '>' else '\n';
    var j :| 0 <= j < |a[1..]| && a[1..][j] == c;
    assert a[j + 1] == c;
  }

  /** Step 2 on a settled text followed by anything handles the two parts apart. */
  lemma {:induction false} StripTagsSettled(a: string, x: string)
    requires Settled(a)
    ensures StripTags(a + x) == StripTags(a) + StripTags(x)
    decreases |a|
  {
    if a == [] {
      assert a + x == x;
    } else {
      var h, k := SettledStep(a, x);
      var rest := a[k..];
      SettledSuffix(a, k);
      StripTagsSettled(rest, x);
      ConcatAssoc(h, StripTags(rest), StripTags(x));
    }
  }

  /**
   * The first step of step 2 on a settled text: the first match or character
   * becomes h and the scan resumes at k, the same with or without x after it.
   */
  lemma SettledStep(a: string, x: string) returns (h: string, k: nat)
    requires a != [] && Settled(a)
    ensures 1 <= k <= |a|
    ensures StripTags(a) == h + StripTags(a[k..])
    ensures StripTags(a + x) == h + StripTags(a[k..] + x)
  {
    var s := a + x;
    SettledHead(a, x);
    k := if TagAt(a, 0) then ScanTag(a, 1) + 1 else 1;
    h := StripTagsHead(a, k);
    var h' := StripTagsHead(s, k);
    assert h' == h by { assert s[0] == a[0]; }
    DropOfAppend(a, x, k);
  }

  lemma DropOfAppend(a: string, x: string, k: nat)
    requires k <= |a|
    ensures (a + x)[k..] == a[k..] + x
  {
  }

  /** One step of step 2: what the first match or character becomes, then the rest from k on. */
  lemma StripTagsHead(s: string, k: nat) returns (h: string)
    requires s != [] && k == if TagAt(s, 0) then ScanTag(s, 1) + 1 else 1
    ensures h == if TagAt(s, 0) then [' '] else [s[0]]
    ensures k <= |s| && StripTags(s) == h + StripTags(s[k..])
  {
    h := if TagAt(s, 0) then [' '] else [s[0]];
  }

  lemma ConcatAssoc(h: string, p: string, q: string)
    ensures h + (p + q) == (h + p) + q
  {
  }

  /** A settled text opens a tag at its start exactly as it does with anything after it. */
  lemma SettledHead(a: string, x: string)
    requires a != [] && Settled(a)
    ensures TagAt(a + x, 0) == TagAt(a, 0)
    ensures TagAt(a, 0) ==> ScanTag(a + x, 1) == ScanTag(a, 1)
  {
    var s := a + x;
    assert s[0] == a[0];
    if a[0] == '<' {
      SettledScan(a);
      ScanTagPrefix(a, x, 1);
      assert s[ScanTag(a, 1)] == a[ScanTag(a, 1)];
    }
  }

  /**
   * A complete tag without a line break inside acts exactly as a space
   * after any text whose every '<' is already closed or cut off by a line
   * break: the words on the two sides come out separated, never glued.
   */
  lemma TagActsAsSpace(a: string, t: string, b: string)
    requires Settled(a)
    requires '>' !in t && '\n' !in t
    ensures CleanText(a + ['<'] + t + ['>'] + b) == CleanText(a + [' '] + b)
  {
    TagAsSpaceUntagged(a, t, b);
  }

  /** The same, up to the end of step 2. */
  lemma TagAsSpaceUntagged(a: string, t: string, b: string)
    requires Settled(a)
    requires '>' !in t && '\n' !in t
    ensures StripTags(Lower(a + ['<'] + t + ['>'] + b)) == StripTags(Lower(a + [' '] + b))
  {
    LowerAroundTag(a, t, b);
    LowerSettled(a);
    var lt := Lower(t);
    assert '>' !in lt && '\n' !in lt;
    StripTagsTagOrSpace(Lower(a), lt, Lower(b));
  }

  /** `lower()` on both texts of TagActsAsSpace. */
  lemma LowerAroundTag(a: string, t: string, b: string)
    ensures Lower(a + ['<'] + t + ['>'] + b) == Lower(a) + (['<'] + Lower(t) + ['>'] + Lower(b))
    ensures Lower(a + [' '] + b) == Lower(a) + ([' '] + Lower(b))
  {
    var tagged := ['<'] + t + ['>'] + b;
    var spaced := [' '] + b;
    assert a + ['<'] + t + ['>'] + b == a + tagged;
    assert a + [' '] + b == a + spaced;
    LowerAppend(a, tagged);
    LowerTag(t, b);
    LowerAppend(a, spaced);
    LowerCons(' ', b);
  }

  /** Step 2 on both lower-cased texts of TagActsAsSpace. */
  lemma StripTagsTagOrSpace(a: string, t: string, b: string)
    requires Settled(a)
    requires '>' !in t && '\n' !in t
    ensures StripTags(a + (['<'] + t + ['>'] + b)) == StripTags(a + ([' '] + b))
  {
    StripTagsSettled(a, ['<'] + t + ['>'] + b);
    StripTagsClosedTag(t, b);
    StripTagsSettled(a, [' '] + b);
    assert StripTags([' '] + b) == [' '] + StripTags(b) by {
      assert ([' '] + b)[1..] == b;
    }
  }
}
