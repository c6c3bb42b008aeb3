/** The five converters of src/index.ts: each returns "" for "" and for an
    input with no words, and otherwise joins the words of `splitWords`,
    mapped word by word. */
module CaseConvert {
  import opened Text
  import opened Segmenter
  import opened SegmenterProps
  import opened WordCase

  /** There are no letters or digits in `input`: every converter returns
      "" for it, and for nothing else. */
  predicate NoAlnum(input: string)
  {
    forall k :: 0 <= k < |input| ==> !IsAlnum(input[k])
  }

  /** A joined list of words starts with its first word. */
  lemma JoinFirst(ws: seq<string>, sep: string)
    requires |ws| > 0
    ensures Join(ws, sep) == ws[0] + (if |ws| == 1 then "" else sep + Join(ws[1..], sep))
  {
    if |ws| > 1 {
      AppendAssoc(ws[0], sep, Join(ws[1..], sep));
    }
  }

  /** A join whose first item is non-empty is non-empty. */
  lemma JoinNonEmpty(ws: seq<string>, sep: string)
    requires |ws| > 0 && |ws[0]| > 0
    ensures |Join(ws, sep)| > 0
  {
    JoinFirst(ws, sep);
  }

  /** The words of an input with a letter or digit: at least one, and the
      first is not empty. */
  lemma SomeWord(input: string)
    ensures |Words(input)| == 0 <==> NoAlnum(input)
    ensures |Words(input)| > 0 ==> |Words(input)[0]| > 0
  {
    WordsEmpty(input);
    if |Words(input)| > 0 {
      WordsShape(input);
    }
  }

  /** `toCamelCase`. The early return on "" agrees with the general path,
      since "" has no letter or digit. */
  function CamelCase(input: string): (r: string)
    ensures |r| == 0 <==> NoAlnum(input)
  {
    SomeWord(input);
    if |input| == 0 then ""
    else
      var words := Words(input);
      if |words| == 0 then ""
      else
        var ms := [LowerFirst(words[0])] + MapWords(Capitalize, words[1..]);
        JoinNonEmpty(ms, "");
        Join(ms, "")
  }

  /** `toPascalCase` */
  function PascalCase(input: string): (r: string)
    ensures |r| == 0 <==> NoAlnum(input)
  {
    SomeWord(input);
    if |input| == 0 then ""
    else
      var words := Words(input);
      if |words| == 0 then ""
      else
        JoinNonEmpty(MapWords(Capitalize, words), "");
        Join(MapWords(Capitalize, words), "")
  }

  /** `toSnakeCase` */
  function SnakeCase(input: string): (r: string)
    ensures |r| == 0 <==> NoAlnum(input)
  {
    SomeWord(input);
    if |input| == 0 then ""
    else
      var words := Words(input);
      if |words| == 0 then ""
      else
        JoinNonEmpty(MapWords(ToLower, words), "_");
        Join(MapWords(ToLower, words), "_")
  }

  /** `toKebabCase` */
  function KebabCase(input: string): (r: string)
    ensures |r| == 0 <==> NoAlnum(input)
  {
    SomeWord(input);
    if |input| == 0 then ""
    else
      var words := Words(input);
      if |words| == 0 then ""
      else
        JoinNonEmpty(MapWords(ToLower, words), "-");
        Join(MapWords(ToLower, words), "-")
  }

  /** `toConstantCase` */
  function ConstantCase(input: string): (r: string)
    ensures |r| == 0 <==> NoAlnum(input)
  {
    SomeWord(input);
    if |input| == 0 then ""
    else
      var words := Words(input);
      if |words| == 0 then ""
      else
        JoinNonEmpty(MapWords(ToUpper, words), "_");
        Join(MapWords(ToUpper, words), "_")
  }

  // ---------------------------------------------------------------------
  // snake_case
  // ---------------------------------------------------------------------

  /** The number of occurrences of `c` in `s`. */
  function Count(c: char, s: string): nat
    decreases |s|
  {
    if |s| == 0 then 0 else (if s[0] == c then 1 else 0) + Count(c, s[1..])
  }

  lemma {:induction false} CountAppend(c: char, a: string, b: string)
    ensures Count(c, a + b) == Count(c, a) + Count(c, b)
    decreases |a|
  {
    if |a| > 0 {
      assert (a + b)[1..] == a[1..] + b;
      CountAppend(c, a[1..], b);
    } else {
      assert a + b == b;
    }
  }

  lemma {:induction false} CountAbsent(c: char, s: string)
    requires forall k :: 0 <= k < |s| ==> s[k] != c
    ensures Count(c, s) == 0
    decreases |s|
  {
    if |s| > 0 {
      CountAbsent(c, s[1..]);
    }
  }

  /** A non-empty word of `[a-z0-9]`. */
  predicate TailWord(w: string)
  {
    |w| > 0 && forall k :: 0 <= k < |w| ==> IsTail(w[k])
  }

  /** What joining non-empty words of `[a-z0-9]` with a separator outside
      that class gives: only word characters and separators, no separator
      at either end, never two separators in a row, and one separator
      fewer than there are words. */
  predicate Separated(r: string, d: char, n: nat)
  {
    && |r| > 0
    && (forall k :: 0 <= k < |r| ==> IsTail(r[k]) || r[k] == d)
    && r[0] != d && r[|r| - 1] != d
    && (forall k :: 0 <= k < |r| - 1 ==> r[k] != d || r[k + 1] != d)
    && Count(d, r) + 1 == n
  }

  lemma {:induction false} JoinSeparated(ws: seq<string>, d: char)
    requires |ws| > 0 && !IsTail(d)
    requires forall m :: 0 <= m < |ws| ==> TailWord(ws[m])
    ensures Separated(Join(ws, [d]), d, |ws|)
    decreases |ws|
  {
    if |ws| == 1 {
      CountAbsent(d, ws[0]);
    } else {
      JoinSeparated(ws[1..], d);
      Glue(ws[0], d, Join(ws[1..], [d]), |ws| - 1);
    }
  }

  /** A word, a separator and a separated string glue into a separated
      string with one more word. */
  lemma Glue(a: string, d: char, b: string, n: nat)
    requires TailWord(a) && !IsTail(d) && Separated(b, d, n)
    ensures Separated(a + [d] + b, d, n + 1)
  {
    var r := a + [d] + b;
    forall k | 0 <= k < |r| ensures IsTail(r[k]) || r[k] == d {
      if k > |a| {
        assert r[k] == b[k - |a| - 1];
      }
    }
    assert r[|r| - 1] == b[|b| - 1];
    forall k | 0 <= k < |r| - 1 ensures r[k] != d || r[k + 1] != d {
      if k == |a| {
        assert r[k + 1] == b[0];
      } else if k > |a| {
        assert r[k] == b[k - |a| - 1] && r[k + 1] == b[k - |a|];
      }
    }
    CountAbsent(d, a);
    CountAppend(d, a, [d]);
    CountAppend(d, a + [d], b);
  }

  /** The words of `splitWords`, lowercased, are non-empty words of
      `[a-z0-9]`. */
  lemma LowerWords(input: string)
    ensures forall m :: 0 <= m < |Words(input)| ==> TailWord(MapWords(ToLower, Words(input))[m])
  {
    var ws := Words(input);
    WordsShape(input);
    forall m | 0 <= m < |ws| ensures TailWord(MapWords(ToLower, ws)[m]) {
      LowerChars(ws[m]);
    }
  }

  /** snake_case output holds only `[a-z0-9_]`, neither starts nor ends
      with `_`, never holds `__`, and has one `_` fewer than there are
      words; kebab-case output is the same with `-`. */
  lemma SnakeShape(input: string)
    ensures |Words(input)| == 0 ==> |SnakeCase(input)| == 0 && |KebabCase(input)| == 0
    ensures |Words(input)| > 0 ==> Separated(SnakeCase(input), '_', |Words(input)|)
    ensures |Words(input)| > 0 ==> Separated(KebabCase(input), '-', |Words(input)|)
  {
    WordsEmpty("");
    if |Words(input)| > 0 {
      LowerWords(input);
      JoinSeparated(MapWords(ToLower, Words(input)), '_');
      JoinSeparated(MapWords(ToLower, Words(input)), '-');
    }
  }

  // ---------------------------------------------------------------------
  // How the five outputs relate
  // ---------------------------------------------------------------------

  /** `-` in place of `_`; every other character unchanged. */
  function DashForUnderscore(c: char): char
  {
    if c == '_' then '-' else c
  }

  /** kebab-case output is snake_case output with every `_` replaced by
      `-`. */
  lemma KebabIsSnake(input: string)
    ensures KebabCase(input) == MapChars(DashForUnderscore, SnakeCase(input))
  {
    if |input| > 0 && |Words(input)| > 0 {
      var ls := MapWords(ToLower, Words(input));
      LowerWords(input);
      forall m | 0 <= m < |ls| ensures ls[m] == MapChars(DashForUnderscore, ls[m]) {
        assert TailWord(ls[m]);
        var w := MapChars(DashForUnderscore, ls[m]);
        forall k | 0 <= k < |w| ensures w[k] == ls[m][k] {
          assert IsTail(ls[m][k]);
        }
      }
      MapCharsJoin(DashForUnderscore, ls, ls, "_");
      assert MapChars(DashForUnderscore, "_") == "-";
    } else {
      assert MapChars(DashForUnderscore, "") == "";
    }
  }

  /** Uppercasing a lowercased word is uppercasing the word. */
  lemma UpperOfLower(w: string)
    ensures MapChars(UpperChar, ToLower(w)) == ToUpper(w)
  {
    var a, b := MapChars(UpperChar, ToLower(w)), ToUpper(w);
    forall k | 0 <= k < |w| ensures a[k] == b[k] {
      CaseRoundTrips(w[k]);
    }
  }

  lemma UpperUnderscore()
    ensures MapChars(UpperChar, "_") == "_"
  {
    var u := MapChars(UpperChar, "_");
    assert u[0] == UpperChar('_');
  }

  /** CONSTANT_CASE output is snake_case output uppercased. */
  lemma ConstantIsUpperSnake(input: string)
    ensures ConstantCase(input) == ToUpper(SnakeCase(input))
  {
    if |input| > 0 && |Words(input)| > 0 {
      var ws := Words(input);
      var ls, us := MapWords(ToLower, ws), MapWords(ToUpper, ws);
      forall m | 0 <= m < |ws| ensures us[m] == MapChars(UpperChar, ls[m]) {
        UpperOfLower(ws[m]);
      }
      MapCharsJoin(UpperChar, ls, us, "_");
      UpperUnderscore();
    } else {
      assert ToUpper("") == "";
    }
  }

  /** camelCase output is PascalCase output with only its first character
      lowercased.  This holds because every word after the first
      character of the first word is already lowercase. */
  lemma CamelIsLowerFirstPascal(input: string)
    ensures CamelCase(input) == LowerFirst(PascalCase(input))
  {
    if |input| > 0 && |Words(input)| > 0 {
      var ws := Words(input);
      var cs := MapWords(Capitalize, ws);
      var camel := [LowerFirst(ws[0])] + MapWords(Capitalize, ws[1..]);
      WordsShape(input);
      WordsLower(input);
      assert LowerIfLong(ws[0]);
      LowerFirstCapitalize(ws[0]);
      JoinFirst(cs, "");
      JoinFirst(camel, "");
      assert camel[1..] == cs[1..];
      var rest := if |ws| == 1 then "" else "" + Join(cs[1..], "");
      LowerFirstAppend(cs[0], rest);
    } else {
      assert LowerFirst("") == "";
    }
  }

  /** `s` with every `c` removed. */
  function Without(c: char, s: string): string
    decreases |s|
  {
    if |s| == 0 then "" else (if s[0] == c then "" else [s[0]]) + Without(c, s[1..])
  }

  lemma {:induction false} WithoutAppend(c: char, a: string, b: string)
    ensures Without(c, a + b) == Without(c, a) + Without(c, b)
    decreases |a|
  {
    if |a| > 0 {
      assert (a + b)[1..] == a[1..] + b;
      WithoutAppend(c, a[1..], b);
      AppendAssoc(if a[0] == c then "" else [a[0]], Without(c, a[1..]), Without(c, b));
    } else {
      assert a + b == b;
    }
  }

  lemma {:induction false} WithoutAbsent(c: char, s: string)
    requires forall k :: 0 <= k < |s| ==> s[k] != c
    ensures Without(c, s) == s
    decreases |s|
  {
    if |s| > 0 {
      WithoutAbsent(c, s[1..]);
      assert [s[0]] + s[1..] == s;
    }
  }

  /** Dropping the separator from words joined by it runs them together. */
  lemma {:induction false} WithoutJoin(ws: seq<string>, d: char)
    requires forall m :: 0 <= m < |ws| ==> forall k :: 0 <= k < |ws[m]| ==> ws[m][k] != d
    ensures Without(d, Join(ws, [d])) == Join(ws, "")
    decreases |ws|
  {
    if |ws| == 1 {
      WithoutAbsent(d, ws[0]);
    } else if |ws| > 1 {
      WithoutJoin(ws[1..], d);
      WithoutAppend(d, ws[0] + [d], Join(ws[1..], [d]));
      WithoutAppend(d, ws[0], [d]);
      WithoutAbsent(d, ws[0]);
      assert Without(d, [d]) == "";
    }
  }

  /** PascalCase output, lowercased, is snake_case output without its
      underscores. */
  lemma PascalIsSnakeJoined(input: string)
    ensures ToLower(PascalCase(input)) == Without('_', SnakeCase(input))
  {
    if |input| > 0 && |Words(input)| > 0 {
      var ws := Words(input);
      var cs, ls := MapWords(Capitalize, ws), MapWords(ToLower, ws);
      forall m | 0 <= m < |ws| ensures ls[m] == MapChars(LowerChar, cs[m]) {
        LowerCapitalize(ws[m]);
      }
      MapCharsJoin(LowerChar, cs, ls, "");
      assert MapChars(LowerChar, "") == "";
      LowerWords(input);
      forall m | 0 <= m < |ls| ensures forall k :: 0 <= k < |ls[m]| ==> ls[m][k] != '_' {
        assert TailWord(ls[m]);
      }
      WithoutJoin(ls, '_');
    } else {
      assert ToLower("") == "";
    }
  }
}
