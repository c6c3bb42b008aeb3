/** What `splitWords` promises about its output, proved about the
    specification `Words` of the segmenter: nothing but the input's
    letters and digits comes out, in order; no word is empty and each has
    one of three shapes; words longer than one character are lowercase;
    and the output is empty exactly when the input holds no letter or
    digit. */
module SegmenterProps {
  import opened Text
  import opened Segmenter

  // ---------------------------------------------------------------------
  // The letters and digits of the input
  // ---------------------------------------------------------------------

  /** The ASCII letters and digits of `s` from position `i` on, in order. */
  function AlnumsFrom(s: string, i: nat): string
    requires i <= |s|
    decreases |s| - i
  {
    if i == |s| then ""
    else if IsAlnum(s[i]) then [s[i]] + AlnumsFrom(s, i + 1)
    else AlnumsFrom(s, i + 1)
  }

  function Alnums(s: string): string
  {
    AlnumsFrom(s, 0)
  }

  /** A run of letters and digits is kept whole. */
  lemma {:induction false} AlnumsRun(s: string, i: nat, e: nat)
    requires i <= e <= |s|
    requires forall k :: i <= k < e ==> IsAlnum(s[k])
    ensures AlnumsFrom(s, i) == s[i..e] + AlnumsFrom(s, e)
    decreases e - i
  {
    if i < e {
      AlnumsRun(s, i + 1, e);
      assert [s[i]] + s[i + 1..e] == s[i..e];
      AppendAssoc([s[i]], s[i + 1..e], AlnumsFrom(s, e));
    }
  }

  /** Stages 1 and 2 drop the delimiters and nothing else. */
  lemma {:induction false} TokensSpell(s: string, i: nat)
    requires i <= |s|
    ensures Concat(TokensFrom(s, i)) == AlnumsFrom(s, i)
    decreases |s| - i
  {
    if i < |s| {
      if IsAlnum(s[i]) {
        var e := RunEnd(Alnum, s, i);
        TokensSpell(s, e);
        AlnumsRun(s, i, e);
        var ts := TokensFrom(s, i);
        assert ts == [s[i..e]] + TokensFrom(s, e);
        assert ts[1..] == TokensFrom(s, e);
      } else {
        TokensSpell(s, i + 1);
      }
    }
  }

  lemma LowerChars(s: string)
    ensures NoUpper(ToLower(s))
    ensures AllAlnum(s) ==> AllAlnum(ToLower(s))
    ensures ToLower(ToLower(s)) == ToLower(s)
  {
    var l := ToLower(s);
    forall i | 0 <= i < |s|
      ensures !IsUpper(l[i]) && (IsAlnum(s[i]) ==> IsAlnum(l[i])) && ToLower(l)[i] == l[i]
    {
      assert l[i] == LowerChar(s[i]);
      assert ToLower(l)[i] == LowerChar(l[i]);
    }
  }

  /** Stage 3 lowercases some parts and keeps every character. */
  lemma {:induction false} CaseEachSpells(ps: seq<string>)
    ensures ToLower(Concat(CaseEach(ps))) == ToLower(Concat(ps))
    decreases |ps|
  {
    if |ps| > 0 {
      var cs := CaseEach(ps);
      assert cs[1..] == CaseEach(ps[1..]);
      CaseEachSpells(ps[1..]);
      MapCharsAppend(LowerChar, cs[0], Concat(cs[1..]));
      MapCharsAppend(LowerChar, ps[0], Concat(ps[1..]));
      LowerChars(ps[0]);
    }
  }

  /** The parts of a token are made of its characters. */
  lemma PartsAlnum(t: string)
    requires AllAlnum(t)
    ensures forall m :: 0 <= m < |CaseParts(t)| ==> |CaseParts(t)[m]| > 0 && AllAlnum(CaseParts(t)[m])
  {
    PartsCover(t, 0);
    assert t[0..] == t;
    ConcatAlnum(CaseParts(t));
  }

  lemma CaseEachAlnum(ps: seq<string>)
    requires forall m :: 0 <= m < |ps| ==> |ps[m]| > 0 && AllAlnum(ps[m])
    ensures forall m :: 0 <= m < |CaseEach(ps)| ==> |CaseEach(ps)[m]| > 0 && AllAlnum(CaseEach(ps)[m])
  {
    forall m | 0 <= m < |ps| {
      LowerChars(ps[m]);
    }
  }

  /** Stage 3 turns tokens into non-empty words of letters and digits. */
  lemma {:induction false} StageThreeAlnum(ts: seq<string>)
    requires forall k :: 0 <= k < |ts| ==> AllAlnum(ts[k])
    ensures forall m :: 0 <= m < |StageThree(ts)| ==> |StageThree(ts)[m]| > 0 && AllAlnum(StageThree(ts)[m])
    decreases |ts|
  {
    if |ts| > 0 {
      var first, rest := CaseEach(CaseParts(ts[0])), StageThree(ts[1..]);
      PartsAlnum(ts[0]);
      CaseEachAlnum(CaseParts(ts[0]));
      StageThreeAlnum(ts[1..]);
      assert StageThree(ts) == first + rest;
      forall m | 0 <= m < |first + rest|
        ensures |(first + rest)[m]| > 0 && AllAlnum((first + rest)[m])
      {
        if m >= |first| {
          assert (first + rest)[m] == rest[m - |first|];
        }
      }
    }
  }

  /** Stage 3 keeps every character of every token, up to case. */
  lemma {:induction false} StageThreeSpells(ts: seq<string>)
    requires forall k :: 0 <= k < |ts| ==> AllAlnum(ts[k])
    ensures ToLower(Concat(StageThree(ts))) == ToLower(Concat(ts))
    decreases |ts|
  {
    if |ts| > 0 {
      var first, rest := CaseEach(CaseParts(ts[0])), StageThree(ts[1..]);
      assert StageThree(ts) == first + rest;
      ConcatAppend(first, rest);
      MapCharsAppend(LowerChar, Concat(first), Concat(rest));
      CaseEachSpells(CaseParts(ts[0]));
      PartsCover(ts[0], 0);
      assert ts[0][0..] == ts[0];
      StageThreeSpells(ts[1..]);
      MapCharsAppend(LowerChar, ts[0], Concat(ts[1..]));
    }
  }

  /** The runs of letters and of digits of a word of letters and digits
      spell it. */
  lemma {:induction false} RunsSpell(w: string, i: nat)
    requires AllAlnum(w) && i <= |w|
    ensures Concat(RunsFrom(w, i)) == w[i..]
    decreases |w| - i
  {
    if i < |w| {
      assert IsAlnum(w[i]);
      var e := if IsLetter(w[i]) then RunEnd(Letter, w, i) else RunEnd(Digit, w, i);
      var rs := RunsFrom(w, i);
      assert rs == [w[i..e]] + RunsFrom(w, e);
      assert rs[1..] == RunsFrom(w, e);
      RunsSpell(w, e);
      assert w[i..e] + w[e..] == w[i..];
    } else {
      assert w[i..] == [];
    }
  }

  lemma RefineSpells(w: string)
    requires AllAlnum(w)
    ensures Concat(Refine(w)) == w
  {
    ConcatTwo(w, []);
    RunsSpell(w, 0);
    assert w[0..] == w;
  }

  /** Stage 4 only cuts words: it keeps every character in place. */
  lemma {:induction false} StageFourSpells(ws: seq<string>)
    requires forall k :: 0 <= k < |ws| ==> AllAlnum(ws[k])
    ensures Concat(StageFour(ws)) == Concat(ws)
    decreases |ws|
  {
    if |ws| > 0 {
      assert StageFour(ws) == Refine(ws[0]) + StageFour(ws[1..]);
      ConcatAppend(Refine(ws[0]), StageFour(ws[1..]));
      RefineSpells(ws[0]);
      StageFourSpells(ws[1..]);
    }
  }

  /** Run together and lowercased, the words of `s` are its letters and
      digits, lowercased: nothing is dropped, reordered or invented. */
  lemma WordsSpell(s: string)
    ensures ToLower(Concat(Words(s))) == ToLower(Alnums(s))
  {
    var ts := Tokens(s);
    TokensSpell(s, 0);
    StageThreeAlnum(ts);
    StageFourSpells(StageThree(ts));
    StageThreeSpells(ts);
  }

  // ---------------------------------------------------------------------
  // Empty output
  // ---------------------------------------------------------------------

  lemma {:induction false} NoTokens(s: string, i: nat)
    requires i <= |s|
    requires forall k :: i <= k < |s| ==> !IsAlnum(s[k])
    ensures |TokensFrom(s, i)| == 0
    decreases |s| - i
  {
    if i < |s| {
      NoTokens(s, i + 1);
    }
  }

  lemma {:induction false} SomeAlnum(s: string, i: nat, k: nat)
    requires i <= k < |s| && IsAlnum(s[k])
    ensures |AlnumsFrom(s, i)| > 0
    decreases k - i
  {
    if i < k && !IsAlnum(s[i]) {
      SomeAlnum(s, i + 1, k);
    }
  }

  /** `splitWords` returns no word exactly when the input holds no ASCII
      letter or digit: the empty string, or only delimiters and
      punctuation. */
  lemma WordsEmpty(s: string)
    ensures |Words(s)| == 0 <==> forall k :: 0 <= k < |s| ==> !IsAlnum(s[k])
  {
    if forall k :: 0 <= k < |s| ==> !IsAlnum(s[k]) {
      NoTokens(s, 0);
      assert StageThree(Tokens(s)) == [];
    } else {
      var k :| 0 <= k < |s| && IsAlnum(s[k]);
      SomeAlnum(s, 0, k);
      WordsSpell(s);
      assert |Concat(Words(s))| > 0;
    }
  }

  // ---------------------------------------------------------------------
  // The shape of a word
  // ---------------------------------------------------------------------

  /** The three shapes stage 4 keeps whole: `/^[a-zA-Z]+$/`,
      `/^[0-9]+$/` and `/^[a-zA-Z]+[0-9]+$/`. */
  predicate WordShape(w: string)
  {
    LettersOnly(w) || DigitsOnly(w) || LettersThenDigits(w)
  }

  /** A word of one of the three shapes is a non-empty word of letters and
      digits in which no letter follows a digit. */
  lemma ShapeFacts(w: string)
    requires WordShape(w)
    ensures |w| > 0 && AllAlnum(w)
    ensures forall i, j :: 0 <= i < j < |w| && IsDigit(w[i]) ==> IsDigit(w[j])
  {
    if LettersThenDigits(w) {
      var a := RunEnd(Letter, w, 0);
      assert forall i :: 0 <= i < a ==> IsLetter(w[i]) by {
        forall i | 0 <= i < a ensures IsLetter(w[i]) {
          assert InClass(w[i], Letter);
        }
      }
    }
  }

  /** The words stage 4 makes of one word have one of the three shapes. */
  lemma RefineShapes(w: string)
    ensures forall m :: 0 <= m < |Refine(w)| ==> WordShape(Refine(w)[m])
  {
    if !(LettersThenDigits(w) || DigitsOnly(w) || LettersOnly(w)) {
      var rs := Runs(w);
      assert forall m :: 0 <= m < |rs| ==> LettersOnly(rs[m]) || DigitsOnly(rs[m]);
    }
  }

  /** Every word stage 4 pushes has one of the three shapes, whatever it
      is given. */
  lemma {:induction false} StageFourShapes(ws: seq<string>)
    ensures forall m :: 0 <= m < |StageFour(ws)| ==> WordShape(StageFour(ws)[m])
    decreases |ws|
  {
    if |ws| > 0 {
      var first, rest := Refine(ws[0]), StageFour(ws[1..]);
      RefineShapes(ws[0]);
      StageFourShapes(ws[1..]);
      assert StageFour(ws) == first + rest;
      forall m | 0 <= m < |first + rest| ensures WordShape((first + rest)[m]) {
        if m >= |first| {
          assert (first + rest)[m] == rest[m - |first|];
        }
      }
    }
  }

  /** Stage 4 leaves words of the three shapes alone, so running it on
      its own output changes nothing. */
  lemma {:induction false} StageFourKeeps(ws: seq<string>)
    requires forall m :: 0 <= m < |ws| ==> WordShape(ws[m])
    ensures StageFour(ws) == ws
    decreases |ws|
  {
    if |ws| > 0 {
      StageFourKeeps(ws[1..]);
      assert [ws[0]] + ws[1..] == ws;
    }
  }

  lemma StageFourIdempotent(ws: seq<string>)
    ensures StageFour(StageFour(ws)) == StageFour(ws)
  {
    StageFourShapes(ws);
    StageFourKeeps(StageFour(ws));
  }

  /** Every word is non-empty, made of letters and digits, and is letters,
      digits, or letters followed by digits; none starts with digits
      followed by letters and none alternates. */
  lemma WordsShape(s: string)
    ensures forall m :: 0 <= m < |Words(s)| ==> WordShape(Words(s)[m])
    ensures forall m :: 0 <= m < |Words(s)| ==> |Words(s)[m]| > 0 && AllAlnum(Words(s)[m])
    ensures forall m, i, j :: 0 <= m < |Words(s)| && 0 <= i < j < |Words(s)[m]| && IsDigit(Words(s)[m][i])
              ==> IsDigit(Words(s)[m][j])
  {
    StageFourShapes(StageThree(Tokens(s)));
    forall m | 0 <= m < |Words(s)|
      ensures |Words(s)[m]| > 0 && AllAlnum(Words(s)[m])
      ensures forall i, j :: 0 <= i < j < |Words(s)[m]| && IsDigit(Words(s)[m][i]) ==> IsDigit(Words(s)[m][j])
    {
      ShapeFacts(Words(s)[m]);
    }
  }

  // ---------------------------------------------------------------------
  // Case
  // ---------------------------------------------------------------------

  /** A word longer than one character holds no capital. */
  predicate LowerIfLong(w: string)
  {
    |w| > 1 ==> NoUpper(w)
  }

  lemma CaseEachLower(ps: seq<string>)
    ensures forall m :: 0 <= m < |CaseEach(ps)| ==> LowerIfLong(CaseEach(ps)[m])
  {
    forall m | 0 <= m < |ps| {
      LowerChars(ps[m]);
    }
  }

  lemma {:induction false} StageThreeLower(ts: seq<string>)
    requires forall k :: 0 <= k < |ts| ==> AllAlnum(ts[k])
    ensures forall m :: 0 <= m < |StageThree(ts)| ==> LowerIfLong(StageThree(ts)[m])
    decreases |ts|
  {
    if |ts| > 0 {
      var first, rest := CaseEach(CaseParts(ts[0])), StageThree(ts[1..]);
      CaseEachLower(CaseParts(ts[0]));
      StageThreeLower(ts[1..]);
      assert StageThree(ts) == first + rest;
      forall m | 0 <= m < |first + rest| ensures LowerIfLong((first + rest)[m]) {
        if m >= |first| {
          assert (first + rest)[m] == rest[m - |first|];
        }
      }
    }
  }

  /** The runs of a word are no longer than the word, and have no capital
      when the word has none. */
  lemma {:induction false} RunsWithin(w: string, i: nat)
    requires i <= |w|
    ensures forall m :: 0 <= m < |RunsFrom(w, i)| ==>
      |RunsFrom(w, i)[m]| <= |w| && (NoUpper(w) ==> NoUpper(RunsFrom(w, i)[m]))
    decreases |w| - i
  {
    if i < |w| {
      var rs := RunsFrom(w, i);
      if IsLetter(w[i]) || IsDigit(w[i]) {
        var e := if IsLetter(w[i]) then RunEnd(Letter, w, i) else RunEnd(Digit, w, i);
        assert rs == [w[i..e]] + RunsFrom(w, e);
        RunsWithin(w, e);
        forall m | 0 <= m < |rs|
          ensures |rs[m]| <= |w| && (NoUpper(w) ==> NoUpper(rs[m]))
        {
          if m > 0 {
            assert rs[m] == RunsFrom(w, e)[m - 1];
          }
        }
      } else {
        RunsWithin(w, i + 1);
      }
    }
  }

  lemma {:induction false} StageFourLower(ws: seq<string>)
    requires forall k :: 0 <= k < |ws| ==> LowerIfLong(ws[k])
    ensures forall m :: 0 <= m < |StageFour(ws)| ==> LowerIfLong(StageFour(ws)[m])
    decreases |ws|
  {
    if |ws| > 0 {
      var first, rest := Refine(ws[0]), StageFour(ws[1..]);
      RunsWithin(ws[0], 0);
      StageFourLower(ws[1..]);
      assert StageFour(ws) == first + rest;
      forall m | 0 <= m < |first + rest| ensures LowerIfLong((first + rest)[m]) {
        if m >= |first| {
          assert (first + rest)[m] == rest[m - |first|];
        }
      }
    }
  }

  /** Every word of two or more characters is entirely lowercase. */
  lemma WordsLower(s: string)
    ensures forall m :: 0 <= m < |Words(s)| ==> LowerIfLong(Words(s)[m])
  {
    StageThreeLower(Tokens(s));
    StageFourLower(StageThree(Tokens(s)));
  }

  // ---------------------------------------------------------------------
  // Delimiters
  // ---------------------------------------------------------------------

  /** The tokens left of a delimiter stop at it. */
  lemma {:induction false} TokensBefore(a: string, d: char, b: string, i: nat)
    requires !IsAlnum(d) && i <= |a|
    ensures TokensFrom(a + [d] + b, i) == TokensFrom(a, i) + TokensFrom(a + [d] + b, |a| + 1)
    decreases |a| - i
  {
    var s := a + [d] + b;
    if i == |a| {
      assert s[i] == d;
    } else if !IsAlnum(a[i]) {
      assert s[i] == a[i];
      TokensBefore(a, d, b, i + 1);
    } else {
      var e := RunEnd(Alnum, a, i);
      assert forall j :: i <= j < e ==> s[j] == a[j] && InClass(a[j], Alnum);
      assert s[e] == if e < |a| then a[e] else d;
      RunEndIs(Alnum, s, i, e);
      assert s[i..e] == a[i..e];
      TokensBefore(a, d, b, e);
      AppendAssoc([a[i..e]], TokensFrom(a, e), TokensFrom(s, |a| + 1));
    }
  }

  /** The tokens right of position `|p|` are the tokens of what follows. */
  lemma {:induction false} TokensAfter(p: string, b: string, j: nat)
    requires j <= |b|
    ensures TokensFrom(p + b, |p| + j) == TokensFrom(b, j)
    decreases |b| - j
  {
    var s, o := p + b, |p|;
    if j < |b| {
      assert s[o + j] == b[j];
      if IsAlnum(b[j]) {
        var e := RunEnd(Alnum, b, j);
        RunShift(p, b, j);
        TokensAfter(p, b, e);
      } else {
        TokensAfter(p, b, j + 1);
      }
    }
  }

  /** A run in `b` is the same run in `p + b`, shifted by `|p|`. */
  lemma RunShift(p: string, b: string, j: nat)
    requires j <= |b|
    ensures RunEnd(Alnum, p + b, |p| + j) == |p| + RunEnd(Alnum, b, j)
    ensures (p + b)[|p| + j..|p| + RunEnd(Alnum, b, j)] == b[j..RunEnd(Alnum, b, j)]
  {
    var s, o, e := p + b, |p|, RunEnd(Alnum, b, j);
    forall k | o + j <= k < o + e ensures InClass(s[k], Alnum) {
      assert s[k] == b[k - o] && InClass(b[k - o], Alnum);
    }
    if o + e < |s| {
      assert s[o + e] == b[e];
    }
    RunEndIs(Alnum, s, o + j, o + e);
    SliceShift(p, b, j, e);
  }

  /** A delimiter always separates words: no word spans it, and the words
      on either side are those of each side alone. */
  lemma DelimiterSplits(a: string, d: char, b: string)
    requires !IsAlnum(d)
    ensures Words(a + [d] + b) == Words(a) + Words(b)
  {
    var ta, tb := Tokens(a), Tokens(b);
    TokensBefore(a, d, b, 0);
    TokensAfter(a + [d], b, 0);
    assert Tokens(a + [d] + b) == ta + tb;
    StageThreeAppend(ta, tb);
    StageFourAppend(StageThree(ta), StageThree(tb));
  }
  /** Delimiters before the input add no words: the leading part of the
      trim on line 13. */
  lemma DelimitersBefore(g: string, b: string)
    requires forall i :: 0 <= i < |g| ==> !IsAlnum(g[i])
    ensures Words(g + b) == Words(b)
  {
    if |g| > 0 {
      var n := |g| - 1;
      assert g + b == g[..n] + [g[n]] + b;
      DelimiterSplits(g[..n], g[n], b);
      WordsEmpty(g[..n]);
    } else {
      assert g + b == b;
    }
  }

  /** Delimiters after the input add no words: the trailing part of the
      trim on line 13. */
  lemma DelimitersAfter(a: string, g: string)
    requires forall i :: 0 <= i < |g| ==> !IsAlnum(g[i])
    ensures Words(a + g) == Words(a)
  {
    if |g| > 0 {
      assert a + g == a + [g[0]] + g[1..];
      DelimiterSplits(a, g[0], g[1..]);
      WordsEmpty(g[1..]);
    } else {
      assert a + g == a;
    }
  }

  /** A run of delimiters splits the input like a single one: the `+` of
      the patterns on lines 11-12. */
  lemma DelimitersBetween(a: string, g: string, b: string)
    requires |g| > 0 && forall i :: 0 <= i < |g| ==> !IsAlnum(g[i])
    ensures Words(a + g + b) == Words(a) + Words(b)
  {
    assert a + g + b == a + [g[0]] + (g[1..] + b);
    DelimiterSplits(a, g[0], g[1..] + b);
    DelimitersBefore(g[1..], b);
  }
}
