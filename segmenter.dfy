/** The word segmenter `splitWords` of src/utils.ts.

    Each stage is given twice: as a function that says what the stage
    produces, and, where the stage is a loop or a character scan, as a
    method proved to produce exactly that.  The regular expressions of the
    source are modelled by their effect on ASCII character classes. */
module Segmenter {
  import opened Text

  // ---------------------------------------------------------------------
  // Stages 1 and 2: delimiters become spaces, the result is trimmed and
  // split on spaces.  Every character that is not an ASCII letter or digit
  // is a delimiter, so the tokens are the maximal alphanumeric runs.
  // ---------------------------------------------------------------------

  /** The tokens of `s` from position `i` on: its maximal runs of ASCII
      letters and digits, left to right. */
  function TokensFrom(s: string, i: nat): (ts: seq<string>)
    requires i <= |s|
    ensures forall k :: 0 <= k < |ts| ==> |ts[k]| > 0 && AllAlnum(ts[k])
    decreases |s| - i
  {
    if i == |s| then []
    else if !IsAlnum(s[i]) then TokensFrom(s, i + 1)
    else
      var e := RunEnd(Alnum, s, i);
      assert AllAlnum(s[i..e]) by {
        forall k | 0 <= k < e - i ensures IsAlnum(s[i..e][k]) {
          assert InClass(s[i + k], Alnum);
        }
      }
      [s[i..e]] + TokensFrom(s, e)
  }

  /** The words stages 1 and 2 leave: `processed.split(/\s+/)`. */
  function Tokens(s: string): seq<string>
  {
    TokensFrom(s, 0)
  }

  /** Stages 1 and 2 as one left-to-right scan: skip delimiters, take each
      alphanumeric run whole. */
  method SplitOnDelimiters(s: string) returns (tokens: seq<string>)
    ensures tokens == Tokens(s)
  {
    tokens := [];
    var i := 0;
    while i < |s|
      invariant 0 <= i <= |s|
      invariant tokens + TokensFrom(s, i) == Tokens(s)
    {
      if IsAlnum(s[i]) {
        var j := i + 1;
        while j < |s| && IsAlnum(s[j])
          invariant i < j <= |s|
          invariant forall k :: i <= k < j ==> IsAlnum(s[k])
        {
          j := j + 1;
        }
        RunEndIs(Alnum, s, i, j);
        tokens := tokens + [s[i..j]];
        i := j;
      } else {
        i := i + 1;
      }
    }
  }

  // ---------------------------------------------------------------------
  // Stage 3: two passes cut a token at case transitions, then each part
  // longer than one character is lowercased.
  // ---------------------------------------------------------------------

  /** Pass one (`/([a-z0-9])([A-Z])/g`): once a space stands between every
      `[a-z0-9]` and a following capital, the segment that starts at `i`
      is its run of capitals followed by its run of `[a-z0-9]`. */
  function SegmentEnd(t: string, i: nat): (n: nat)
    requires i <= |t|
    ensures i <= n <= |t|
  {
    RunEnd(Tail, t, RunEnd(Upper, t, i))
  }

  /** Pass two (`/([A-Z]+)([A-Z][a-z0-9]+)/g`) on the segment `t[i..n]`:
      two or more capitals followed by `[a-z0-9]` give their last capital
      to what follows; every other segment stays whole. */
  function AcronymPieces(t: string, i: nat, n: nat): seq<string>
    requires i <= n <= |t|
  {
    var k := RunEnd(Upper, t, i);
    if i + 2 <= k < n then [t[i..k - 1], t[k - 1..n]] else [t[i..n]]
  }

  /** The parts of the token `t` from position `i` on: the pass-two pieces
      of each pass-one segment, left to right, as `split(' ')` returns
      them. */
  function PartsFrom(t: string, i: nat): seq<string>
    requires AllAlnum(t) && i <= |t|
    decreases |t| - i
  {
    if i == |t| then []
    else
      var n := SegmentEnd(t, i);
      assert i < n by {
        assert IsAlnum(t[i]);
        if RunEnd(Upper, t, i) == i {
          assert InClass(t[i], Tail);
        }
      }
      AcronymPieces(t, i, n) + PartsFrom(t, n)
  }

  function CaseParts(t: string): seq<string>
    requires AllAlnum(t)
  {
    PartsFrom(t, 0)
  }

  /** The parts of a token are non-empty and, run together, give the
      token back. */
  lemma {:induction false} PartsCover(t: string, i: nat)
    requires AllAlnum(t) && i <= |t|
    ensures Concat(PartsFrom(t, i)) == t[i..]
    ensures forall m :: 0 <= m < |PartsFrom(t, i)| ==> |PartsFrom(t, i)[m]| > 0
    decreases |t| - i
  {
    if i < |t| {
      var n := SegmentEnd(t, i);
      var first, rest := AcronymPieces(t, i, n), PartsFrom(t, n);
      PartsCover(t, n);
      PiecesCover(t, i, n);
      ConcatAppend(first, rest);
      assert t[i..n] + t[n..] == t[i..];
      forall m | 0 <= m < |first + rest| ensures |(first + rest)[m]| > 0 {
        if m >= |first| {
          assert (first + rest)[m] == rest[m - |first|];
        }
      }
    } else {
      assert t[i..] == [];
    }
  }

  lemma PiecesCover(t: string, i: nat, n: nat)
    requires i < n <= |t|
    ensures Concat(AcronymPieces(t, i, n)) == t[i..n]
    ensures forall m :: 0 <= m < |AcronymPieces(t, i, n)| ==> |AcronymPieces(t, i, n)[m]| > 0
  {
    var k := RunEnd(Upper, t, i);
    if i + 2 <= k < n {
      ConcatTwo(t[i..k - 1], t[k - 1..n]);
      assert t[i..k - 1] + t[k - 1..n] == t[i..n];
    } else {
      ConcatTwo(t[i..n], []);
    }
  }

  lemma ConcatTwo(a: string, b: string)
    ensures Concat([a, b]) == a + b
    ensures Concat([a]) == a
  {
    assert [a][1..] == [];
    assert Concat([a]) == a + Concat([]);
    assert [a, b][1..] == [b];
    assert Concat([a, b]) == a + Concat([b]);
    assert Concat([b]) == b + Concat([]);
  }

  /** The local test of the single scan: pass one cuts before a capital
      that follows `[a-z0-9]`; pass two cuts before the last capital of a
      run of capitals when `[a-z0-9]` follows it. */
  predicate IsCaseBoundary(t: string, j: int)
    requires 0 < j < |t|
  {
    || (IsTail(t[j - 1]) && IsUpper(t[j]))
    || (IsUpper(t[j - 1]) && IsUpper(t[j]) && j + 1 < |t| && IsTail(t[j + 1]))
  }

  /** A part starting at `i` runs up to the next case boundary `p`, or to
      the end of the token: the two passes cut exactly where the single
      test says. */
  lemma FirstCasePart(t: string, i: nat, p: nat)
    requires AllAlnum(t) && i < p <= |t|
    requires forall j :: i < j < p ==> !IsCaseBoundary(t, j)
    requires p < |t| ==> IsCaseBoundary(t, p)
    ensures PartsFrom(t, i) == [t[i..p]] + PartsFrom(t, p)
  {
    var k := RunEnd(Upper, t, i);
    var n := SegmentEnd(t, i);
    if i + 2 <= k < n {
      AcronymCut(t, i, k, n, p);
      AcronymParts(t, i, k, n, p);
    } else {
      SegmentCut(t, i, k, n, p);
      WholeSegment(t, i, k, p);
    }
  }

  /** Every other segment is one part. */
  lemma WholeSegment(t: string, i: nat, k: nat, n: nat)
    requires AllAlnum(t) && i < |t|
    requires k == RunEnd(Upper, t, i) && n == SegmentEnd(t, i)
    requires !(i + 2 <= k < n)
    ensures PartsFrom(t, i) == [t[i..n]] + PartsFrom(t, n)
  {
  }

  /** Pass two gives the last capital of an acronym to the rest of the
      segment, which pass two then leaves whole. */
  lemma AcronymParts(t: string, i: nat, k: nat, n: nat, p: nat)
    requires AllAlnum(t) && i <= |t|
    requires k == RunEnd(Upper, t, i) && n == SegmentEnd(t, i)
    requires i + 2 <= k < n && p == k - 1
    ensures PartsFrom(t, i) == [t[i..p]] + PartsFrom(t, p)
  {
    assert AcronymPieces(t, i, n) == [t[i..p]] + [t[p..n]];
    assert PartsFrom(t, i) == ([t[i..p]] + [t[p..n]]) + PartsFrom(t, n);
    RunEndIs(Upper, t, p, k);
    WholeSegment(t, p, k, n);
    AppendAssoc([t[i..p]], [t[p..n]], PartsFrom(t, n));
  }

  /** Where pass two splits the segment, the first case boundary is before
      the last capital of the acronym. */
  lemma AcronymCut(t: string, i: nat, k: nat, n: nat, p: nat)
    requires AllAlnum(t) && i < p <= |t|
    requires forall j :: i < j < p ==> !IsCaseBoundary(t, j)
    requires p < |t| ==> IsCaseBoundary(t, p)
    requires k == RunEnd(Upper, t, i) && n == SegmentEnd(t, i)
    requires i + 2 <= k < n
    ensures p == k - 1
  {
    assert IsTail(t[k]) && IsUpper(t[k - 1]) && IsUpper(t[k - 2]);
    assert IsCaseBoundary(t, k - 1);
    assert forall j :: i < j < k - 1 ==> !IsCaseBoundary(t, j) by {
      forall j | i < j < k - 1 ensures !IsCaseBoundary(t, j) {
        assert IsUpper(t[j - 1]) && IsUpper(t[j + 1]);
      }
    }
  }

  /** Where pass two leaves the segment whole, the first case boundary is
      the end of the segment. */
  lemma SegmentCut(t: string, i: nat, k: nat, n: nat, p: nat)
    requires AllAlnum(t) && i < p <= |t|
    requires forall j :: i < j < p ==> !IsCaseBoundary(t, j)
    requires p < |t| ==> IsCaseBoundary(t, p)
    requires k == RunEnd(Upper, t, i) && n == SegmentEnd(t, i)
    requires !(i + 2 <= k < n)
    ensures p == n
  {
    assert forall j :: i < j < n ==> !IsCaseBoundary(t, j) by {
      forall j | i < j < n ensures !IsCaseBoundary(t, j) {
        if j < k {
          assert IsUpper(t[j - 1]);
        } else {
          assert IsTail(t[j]);
        }
      }
    }
    if n < |t| {
      assert IsAlnum(t[n]) && IsTail(t[n - 1]);
      assert IsCaseBoundary(t, n);
    }
  }

  lemma LastCasePart(t: string, i: nat)
    requires AllAlnum(t) && i < |t|
    requires forall j :: i < j < |t| ==> !IsCaseBoundary(t, j)
    ensures PartsFrom(t, i) == [t[i..]]
  {
    FirstCasePart(t, i, |t|);
    assert PartsFrom(t, |t|) == [];
    assert t[i..|t|] == t[i..];
  }

  /** The parts the single scan finds from `start` on, when it has
      checked every position before `j` and found no case boundary after
      `start`. */
  function ScanParts(t: string, start: nat, j: nat): seq<string>
    requires start < j <= |t|
    decreases |t| - j
  {
    if j == |t| then [t[start..]]
    else if IsCaseBoundary(t, j) then [t[start..j]] + ScanParts(t, j, j + 1)
    else ScanParts(t, start, j + 1)
  }

  /** The single scan cuts a token exactly as the two passes do. */
  lemma {:induction false} ScanIsTwoPass(t: string, start: nat, j: nat)
    requires AllAlnum(t) && start < j <= |t|
    requires forall i :: start < i < j ==> !IsCaseBoundary(t, i)
    ensures ScanParts(t, start, j) == PartsFrom(t, start)
    decreases |t| - j, 1
  {
    if j == |t| {
      LastCasePart(t, start);
    } else if IsCaseBoundary(t, j) {
      ScanBoundaryStep(t, start, j);
    } else {
      assert forall i :: start < i < j + 1 ==> !IsCaseBoundary(t, i);
      ScanIsTwoPass(t, start, j + 1);
    }
  }

  lemma ScanBoundaryStep(t: string, start: nat, j: nat)
    requires AllAlnum(t) && start < j < |t|
    requires forall i :: start < i < j ==> !IsCaseBoundary(t, i)
    requires IsCaseBoundary(t, j)
    ensures ScanParts(t, start, j) == PartsFrom(t, start)
    decreases |t| - j, 0
  {
    ScanIsTwoPass(t, j, j + 1);
    FirstCasePart(t, start, j);
  }

  /** Pass one and pass two as one left-to-right scan that cuts wherever
      `IsCaseBoundary` holds. */
  method CutCaseBoundaries(t: string) returns (parts: seq<string>)
    requires AllAlnum(t)
    ensures parts == CaseParts(t)
  {
    parts := [];
    if |t| == 0 {
      assert CaseParts(t) == [];
      return;
    }
    ScanIsTwoPass(t, 0, 1);
    var start, j := 0, 1;
    while j < |t|
      invariant 0 <= start < j <= |t|
      invariant parts + ScanParts(t, start, j) == CaseParts(t)
    {
      if IsCaseBoundary(t, j) {
        AppendAssoc(parts, [t[start..j]], ScanParts(t, j, j + 1));
        parts := parts + [t[start..j]];
        start := j;
      }
      j := j + 1;
    }
    parts := parts + [t[start..]];
  }

  /** Lines 28-32: a part longer than one character is lowercased; a
      single character keeps its case. */
  function CaseWord(p: string): string
  {
    if |p| > 1 then ToLower(p) else p
  }

  /** Lines 26-33 over the parts of one token. */
  function CaseEach(ps: seq<string>): seq<string>
  {
    seq(|ps|, i requires 0 <= i < |ps| => CaseWord(ps[i]))
  }

  /** Stage 3 casing is `parts.map` of the casing of one part. */
  lemma CaseEachIsMap(ps: seq<string>)
    ensures CaseEach(ps) == MapWords(CaseWord, ps)
  {
  }

  /** The accumulator `result` after stage 3 has run over the tokens `ts`. */
  function StageThree(ts: seq<string>): seq<string>
    requires forall i :: 0 <= i < |ts| ==> AllAlnum(ts[i])
    decreases |ts|
  {
    if |ts| == 0 then [] else CaseEach(CaseParts(ts[0])) + StageThree(ts[1..])
  }

  lemma {:induction false} StageThreeAppend(a: seq<string>, b: seq<string>)
    requires forall i :: 0 <= i < |a| ==> AllAlnum(a[i])
    requires forall i :: 0 <= i < |b| ==> AllAlnum(b[i])
    ensures StageThree(a + b) == StageThree(a) + StageThree(b)
    decreases |a|
  {
    if |a| == 0 {
      assert a + b == b;
    } else {
      assert (a + b)[1..] == a[1..] + b;
      StageThreeAppend(a[1..], b);
    }
  }

  // ---------------------------------------------------------------------
  // Stage 4: letters, digits, and letters followed by digits stay whole;
  // anything else is split into its runs of letters and of digits.
  // ---------------------------------------------------------------------

  /** `/^[a-zA-Z]+[0-9]+$/` */
  predicate LettersThenDigits(w: string)
  {
    var a := RunEnd(Letter, w, 0);
    0 < a < |w| && forall i :: a <= i < |w| ==> IsDigit(w[i])
  }

  /** `/^[0-9]+$/` */
  predicate DigitsOnly(w: string)
  {
    |w| > 0 && forall i :: 0 <= i < |w| ==> IsDigit(w[i])
  }

  /** `/^[a-zA-Z]+$/` */
  predicate LettersOnly(w: string)
  {
    |w| > 0 && forall i :: 0 <= i < |w| ==> IsLetter(w[i])
  }

  /** `w.match(/[a-zA-Z]+|[0-9]+/g)` from position `i` on: the maximal
      runs of letters and of digits of `w`, left to right; other characters
      are skipped, and no match at all pushes nothing. */
  function RunsFrom(w: string, i: nat): (rs: seq<string>)
    requires i <= |w|
    ensures forall m :: 0 <= m < |rs| ==> LettersOnly(rs[m]) || DigitsOnly(rs[m])
    decreases |w| - i
  {
    if i == |w| then []
    else if IsLetter(w[i]) then
      var e := RunEnd(Letter, w, i);
      assert LettersOnly(w[i..e]) by {
        forall m | 0 <= m < e - i ensures IsLetter(w[i..e][m]) {
          assert InClass(w[i + m], Letter);
        }
      }
      [w[i..e]] + RunsFrom(w, e)
    else if IsDigit(w[i]) then
      var e := RunEnd(Digit, w, i);
      assert DigitsOnly(w[i..e]) by {
        forall m | 0 <= m < e - i ensures IsDigit(w[i..e][m]) {
          assert InClass(w[i + m], Digit);
        }
      }
      [w[i..e]] + RunsFrom(w, e)
    else RunsFrom(w, i + 1)
  }

  function Runs(w: string): seq<string>
  {
    RunsFrom(w, 0)
  }

  /** Lines 40-47 for one word of stage 3. */
  function Refine(w: string): seq<string>
  {
    if LettersThenDigits(w) || DigitsOnly(w) then [w]
    else if LettersOnly(w) then [w]
    else Runs(w)
  }

  /** The accumulator `final` after stage 4 has run over `ws`. */
  function StageFour(ws: seq<string>): seq<string>
    decreases |ws|
  {
    if |ws| == 0 then [] else Refine(ws[0]) + StageFour(ws[1..])
  }

  lemma {:induction false} StageFourAppend(a: seq<string>, b: seq<string>)
    ensures StageFour(a + b) == StageFour(a) + StageFour(b)
    decreases |a|
  {
    if |a| == 0 {
      assert a + b == b;
    } else {
      assert (a + b)[1..] == a[1..] + b;
      StageFourAppend(a[1..], b);
    }
  }

  /** The words `splitWords(input)` returns. */
  function Words(input: string): seq<string>
  {
    StageFour(StageThree(Tokens(input)))
  }

  lemma StageThreeStep(ws: seq<string>, i: nat)
    requires i < |ws|
    requires forall k :: 0 <= k < |ws| ==> AllAlnum(ws[k])
    ensures StageThree(ws[..i + 1]) == StageThree(ws[..i]) + CaseEach(CaseParts(ws[i]))
  {
    assert ws[..i + 1] == ws[..i] + [ws[i]];
    StageThreeAppend(ws[..i], [ws[i]]);
    assert StageThree([ws[i]]) == CaseEach(CaseParts(ws[i])) + StageThree([]);
  }

  lemma CaseEachStep(ps: seq<string>, j: nat)
    requires j < |ps|
    ensures CaseEach(ps[..j + 1]) == CaseEach(ps[..j]) + [CaseWord(ps[j])]
  {
  }

  lemma StageFourStep(ws: seq<string>, i: nat)
    requires i < |ws|
    ensures StageFour(ws[..i + 1]) == StageFour(ws[..i]) + Refine(ws[i])
  {
    assert ws[..i + 1] == ws[..i] + [ws[i]];
    StageFourAppend(ws[..i], [ws[i]]);
    assert StageFour([ws[i]]) == Refine(ws[i]) + StageFour([]);
  }

  /** Lines 19-34: the loop over the tokens that cuts each one into parts
      and pushes them, cased, into `result`. */
  method CaseTokens(words: seq<string>) returns (result: seq<string>)
    requires forall k :: 0 <= k < |words| ==> AllAlnum(words[k])
    ensures result == StageThree(words)
  {
    result := [];
    for i := 0 to |words|
      invariant result == StageThree(words[..i])
    {
      var parts := CutCaseBoundaries(words[i]);
      ghost var before := result;
      for j := 0 to |parts|
        invariant result == before + CaseEach(parts[..j])
      {
        CaseEachStep(parts, j);
        AppendAssoc(before, CaseEach(parts[..j]), [CaseWord(parts[j])]);
        if |parts[j]| > 1 {
          result := result + [ToLower(parts[j])];
        } else {
          result := result + [parts[j]];
        }
      }
      assert parts[..|parts|] == parts;
      StageThreeStep(words, i);
    }
    assert words[..|words|] == words;
  }

  /** Lines 37-49: the loop over `result` that pushes each word, or its
      runs of letters and of digits, into `final`. */
  method RefineWords(result: seq<string>) returns (final: seq<string>)
    ensures final == StageFour(result)
  {
    final := [];
    for i := 0 to |result|
      invariant final == StageFour(result[..i])
    {
      var w := result[i];
      StageFourStep(result, i);
      if LettersThenDigits(w) || DigitsOnly(w) {
        final := final + [w];
      } else if LettersOnly(w) {
        final := final + [w];
      } else {
        final := final + Runs(w);
      }
    }
    assert result[..|result|] == result;
  }

  /** `splitWords` (lines 7-52): stages 1 and 2, then the two loops. */
  method SplitWords(input: string) returns (final: seq<string>)
    ensures final == Words(input)
  {
    var words := SplitOnDelimiters(input);
    var result := CaseTokens(words);
    final := RefineWords(result);
  }
}
