/** Inputs of the library's test table, worked through the model. */
module Scenarios {
  import opened Text
  import opened Segmenter
  import opened SegmenterProps
  import opened WordCase
  import opened CaseConvert

  // ---------------------------------------------------------------------
  // Pointwise descriptions of the case mappings, so that a concrete word is
  // checked character by character.
  // ---------------------------------------------------------------------

  /** A string whose every character is `f` of the matching character of
      `w` is `MapChars(f, w)`. */
  lemma MapsTo(f: char -> char, w: string, r: string)
    requires |r| == |w|
    requires forall i :: 0 <= i < |w| ==> r[i] == f(w[i])
    ensures MapChars(f, w) == r
  {
  }

  /** Stage 3 casing of a part longer than one character, character by
      character. */
  lemma LowerCased(p: string, w: string)
    requires |p| > 1 && |w| == |p|
    requires forall i :: 0 <= i < |p| ==> w[i] == LowerChar(p[i])
    ensures CaseWord(p) == w
  {
    MapsTo(LowerChar, p, w);
  }

  lemma CapitalizeIs(w: string, r: string)
    requires |r| == |w| > 0 && r[0] == UpperChar(w[0])
    requires forall i :: 1 <= i < |w| ==> r[i] == LowerChar(w[i])
    ensures Capitalize(w) == r
  {
  }

  lemma LowerFirstIs(w: string, r: string)
    requires |r| == |w| > 0 && r[0] == LowerChar(w[0])
    requires forall i :: 1 <= i < |w| ==> r[i] == w[i]
    ensures LowerFirst(w) == r
  {
  }

  /** The four case forms of a word with no capital, from its uppercase
      and capitalized spellings. */
  lemma WordForms(w: string, upper: string, capital: string)
    requires |w| > 0 && forall i :: 0 <= i < |w| ==> !IsUpper(w[i])
    requires |upper| == |w| && forall i :: 0 <= i < |w| ==> upper[i] == UpperChar(w[i])
    requires |capital| == |w| && capital[0] == UpperChar(w[0])
    requires forall i :: 1 <= i < |w| ==> capital[i] == w[i]
    ensures ToLower(w) == w && ToUpper(w) == upper
    ensures Capitalize(w) == capital && LowerFirst(w) == w
  {
    MapsTo(LowerChar, w, w);
    MapsTo(UpperChar, w, upper);
    CapitalizeIs(w, capital);
    LowerFirstIs(w, w);
  }

  // ---------------------------------------------------------------------
  // Composition: the words of a single token are its scanned parts, cased
  // and refined.
  // ---------------------------------------------------------------------

  lemma TokenWords(t: string, ps: seq<string>, ws: seq<string>)
    requires |t| > 0 && AllAlnum(t)
    requires ScanParts(t, 0, 1) == ps
    requires StageFour(CaseEach(ps)) == ws
    ensures Words(t) == ws
  {
    RunEndIs(Alnum, t, 0, |t|);
    assert IsAlnum(t[0]);
    assert TokensFrom(t, |t|) == [];
    assert TokensFrom(t, 0) == [t[0..|t|]] + TokensFrom(t, |t|);
    assert t[0..|t|] == t;
    var ts := Tokens(t);
    assert ts == [t];
    ScanIsTwoPass(t, 0, 1);
    assert CaseParts(t) == ps;
    assert [t][1..] == [];
    assert StageThree(ts) == CaseEach(ps) + StageThree([]);
    assert StageThree(ts) == CaseEach(ps);
    assert Words(t) == StageFour(StageThree(ts));
  }

  lemma CaseEachTwo(a: string, b: string)
    ensures CaseEach([a, b]) == [CaseWord(a), CaseWord(b)]
  {
  }

  lemma CaseEachThree(a: string, b: string, c: string)
    ensures CaseEach([a, b, c]) == [CaseWord(a), CaseWord(b), CaseWord(c)]
  {
  }

  lemma KeepsLetters(w: string)
    requires LettersOnly(w)
    ensures Refine(w) == [w]
  {
  }

  lemma KeepsTwo(a: string, b: string)
    requires Refine(a) == [a] && Refine(b) == [b]
    ensures StageFour([a, b]) == [a, b]
  {
    assert StageFour([b]) == [b];
    assert [a, b][1..] == [b];
  }

  lemma KeepsThree(a: string, b: string, c: string)
    requires Refine(a) == [a] && Refine(b) == [b] && Refine(c) == [c]
    ensures StageFour([a, b, c]) == [a, b, c]
  {
    KeepsTwo(b, c);
    assert [a, b, c][1..] == [b, c];
  }

  /** A token the scan cuts in two parts of letters. */
  lemma TwoWords(t: string, p1: string, p2: string, w1: string, w2: string)
    requires |t| > 0 && AllAlnum(t)
    requires ScanParts(t, 0, 1) == [p1, p2]
    requires CaseWord(p1) == w1 && CaseWord(p2) == w2
    requires LettersOnly(w1) && LettersOnly(w2)
    ensures Words(t) == [w1, w2]
  {
    CaseEachTwo(p1, p2);
    KeepsLetters(w1);
    KeepsLetters(w2);
    KeepsTwo(w1, w2);
    TokenWords(t, [p1, p2], [w1, w2]);
  }

  /** A token the scan cuts in three parts of letters. */
  lemma ThreeWords(t: string, p1: string, p2: string, p3: string, w1: string, w2: string, w3: string)
    requires |t| > 0 && AllAlnum(t)
    requires ScanParts(t, 0, 1) == [p1, p2, p3]
    requires CaseWord(p1) == w1 && CaseWord(p2) == w2 && CaseWord(p3) == w3
    requires LettersOnly(w1) && LettersOnly(w2) && LettersOnly(w3)
    ensures Words(t) == [w1, w2, w3]
  {
    CaseEachThree(p1, p2, p3);
    KeepsLetters(w1);
    KeepsLetters(w2);
    KeepsLetters(w3);
    KeepsThree(w1, w2, w3);
    TokenWords(t, [p1, p2, p3], [w1, w2, w3]);
  }

  // ---------------------------------------------------------------------
  // HTMLParser, APIResponse, XMLHttpRequest, myNASAProject: an acronym
  // gives up its last capital to the word that follows it.
  // ---------------------------------------------------------------------

  lemma HtmlParts()
    ensures ScanParts("HTMLParser", 0, 1) == ["HTML", "Parser"]
    ensures AllAlnum("HTMLParser")
  {
    var t := "HTMLParser";
    assert t[0..4] == "HTML";
    assert ScanParts(t, 4, 5) == ["Parser"];
  }

  lemma HtmlParser()
    ensures Words("HTMLParser") == ["html", "parser"]
  {
    HtmlParts();
    LowerCased("HTML", "html");
    LowerCased("Parser", "parser");
    TwoWords("HTMLParser", "HTML", "Parser", "html", "parser");
  }

  lemma ApiParts()
    ensures ScanParts("APIResponse", 0, 1) == ["API", "Response"]
    ensures AllAlnum("APIResponse")
  {
    var t := "APIResponse";
    assert t[0..3] == "API";
    assert ScanParts(t, 3, 4) == ["Response"];
  }

  lemma ApiResponse()
    ensures Words("APIResponse") == ["api", "response"]
  {
    ApiParts();
    LowerCased("API", "api");
    LowerCased("Response", "response");
    TwoWords("APIResponse", "API", "Response", "api", "response");
  }

  lemma XmlParts()
    ensures ScanParts("XMLHttpRequest", 0, 1) == ["XML", "Http", "Request"]
    ensures AllAlnum("XMLHttpRequest")
  {
    var t := "XMLHttpRequest";
    assert t[0..3] == "XML";
    assert t[3..7] == "Http";
    assert ScanParts(t, 7, 8) == ["Request"];
    assert ScanParts(t, 3, 4) == ["Http", "Request"];
  }

  lemma XmlHttpRequest()
    ensures Words("XMLHttpRequest") == ["xml", "http", "request"]
  {
    XmlParts();
    LowerCased("XML", "xml");
    LowerCased("Http", "http");
    LowerCased("Request", "request");
    ThreeWords("XMLHttpRequest", "XML", "Http", "Request", "xml", "http", "request");
  }

  lemma NasaParts()
    ensures ScanParts("myNASAProject", 0, 1) == ["my", "NASA", "Project"]
    ensures AllAlnum("myNASAProject")
  {
    var t := "myNASAProject";
    assert t[0..2] == "my";
    assert t[2..6] == "NASA";
    assert ScanParts(t, 6, 7) == ["Project"];
    assert ScanParts(t, 2, 3) == ["NASA", "Project"];
  }

  lemma MyNasaProject()
    ensures Words("myNASAProject") == ["my", "nasa", "project"]
  {
    NasaParts();
    LowerCased("my", "my");
    LowerCased("NASA", "nasa");
    LowerCased("Project", "project");
    ThreeWords("myNASAProject", "my", "NASA", "Project", "my", "nasa", "project");
  }

  // ---------------------------------------------------------------------
  // item007, foo123bar, A1b: one part each; stage 4 keeps letters followed
  // by digits and cuts anything else into its runs.
  // ---------------------------------------------------------------------

  lemma CaseEachOne(a: string)
    ensures CaseEach([a]) == [CaseWord(a)]
  {
  }

  /** A token the scan leaves whole. */
  lemma WholeToken(t: string, w: string, ws: seq<string>)
    requires |t| > 0 && AllAlnum(t)
    requires ScanParts(t, 0, 1) == [t]
    requires CaseWord(t) == w && Refine(w) == ws
    ensures Words(t) == ws
  {
    CaseEachOne(t);
    assert StageFour([w]) == Refine(w) + StageFour([]);
    TokenWords(t, [t], ws);
  }

  /** With no case boundary from `j` on, the scan keeps the rest of the
      token as one part. */
  lemma {:induction false} NoCut(t: string, start: nat, j: nat)
    requires start < j <= |t|
    requires forall i :: j <= i < |t| ==> !IsCaseBoundary(t, i)
    ensures ScanParts(t, start, j) == [t[start..]]
    decreases |t| - j
  {
    if j < |t| {
      NoCut(t, start, j + 1);
    }
  }

  /** A token with no case boundary is one part, lowercased whole, and
      stage 4 then refines it. */
  lemma SinglePart(t: string, w: string)
    requires |t| > 1 && AllAlnum(t)
    requires forall i :: 1 <= i < |t| ==> !IsCaseBoundary(t, i)
    requires |w| == |t| && forall i :: 0 <= i < |t| ==> w[i] == LowerChar(t[i])
    ensures Words(t) == Refine(w)
  {
    NoCut(t, 0, 1);
    assert t[0..] == t;
    LowerCased(t, w);
    WholeToken(t, w, Refine(w));
  }

  lemma ItemStages()
    ensures ScanParts("item007", 0, 1) == ["item007"]
    ensures CaseWord("item007") == "item007"
    ensures Refine("item007") == ["item007"]
    ensures AllAlnum("item007")
  {
    LowerCased("item007", "item007");
    var t := "item007";
    assert RunEnd(Letter, t, 0) == 4;
    assert LettersThenDigits(t);
  }

  lemma Item007()
    ensures Words("item007") == ["item007"]
  {
    ItemStages();
    WholeToken("item007", "item007", ["item007"]);
  }

  lemma FooBarRuns()
    ensures Runs("foo123bar") == ["foo", "123", "bar"]
  {
    var t := "foo123bar";
    assert RunEnd(Letter, t, 6) == 9;
    assert t[6..9] == "bar";
    assert RunsFrom(t, 9) == [];
    assert RunsFrom(t, 6) == ["bar"];
    assert RunEnd(Digit, t, 3) == 6;
    assert t[3..6] == "123";
    assert RunsFrom(t, 3) == ["123", "bar"];
    assert RunEnd(Letter, t, 0) == 3;
    assert t[0..3] == "foo";
  }

  lemma FooBarRefine()
    ensures Refine("foo123bar") == ["foo", "123", "bar"]
  {
    var t := "foo123bar";
    assert RunEnd(Letter, t, 0) == 3;
    assert !IsDigit(t[6]) && !IsLetter(t[3]);
    assert !LettersThenDigits(t) && !DigitsOnly(t) && !LettersOnly(t);
    FooBarRuns();
  }

  lemma Foo123Bar()
    ensures Words("foo123bar") == ["foo", "123", "bar"]
  {
    SinglePart("foo123bar", "foo123bar");
    FooBarRefine();
  }

  lemma MixedRuns()
    ensures Runs("a1b") == ["a", "1", "b"]
  {
    var w := "a1b";
    assert RunEnd(Letter, w, 2) == 3;
    assert w[2..3] == "b";
    assert RunsFrom(w, 3) == [];
    assert RunsFrom(w, 2) == ["b"];
    assert RunEnd(Digit, w, 1) == 2;
    assert w[1..2] == "1";
    assert RunsFrom(w, 1) == ["1", "b"];
    assert RunEnd(Letter, w, 0) == 1;
    assert w[0..1] == "a";
  }

  lemma MixedRefine()
    ensures Refine("a1b") == ["a", "1", "b"]
  {
    var w := "a1b";
    assert RunEnd(Letter, w, 0) == 1;
    assert !IsDigit(w[2]) && !IsDigit(w[0]) && !IsLetter(w[1]);
    assert !LettersThenDigits(w) && !DigitsOnly(w) && !LettersOnly(w);
    MixedRuns();
  }

  /** A capital alone inside a mixed token does not keep its case: the
      token is lowercased whole before stage 4 cuts it up. */
  lemma SingleCapitalInMixedToken()
    ensures Words("A1b") == ["a", "1", "b"]
  {
    SinglePart("A1b", "a1b");
    MixedRefine();
  }

  // ---------------------------------------------------------------------
  // A B C, version1_2_3: delimiters separate words; a single character
  // keeps its case.
  // ---------------------------------------------------------------------

  /** A token of one character is one word, in its own case. */
  lemma SingleCharacter(c: char)
    requires IsAlnum(c)
    ensures Words([c]) == [[c]]
  {
    var t := [c];
    assert ScanParts(t, 0, 1) == [t];
    CaseEachOne(t);
    if IsDigit(c) {
      assert DigitsOnly(t);
    } else {
      assert LettersOnly(t);
    }
    assert StageFour([t]) == [t];
    TokenWords(t, [t], [t]);
  }

  /** Two single characters around a delimiter are two words, each in
      its own case. */
  lemma CharacterPair(x: char, d: char, y: char)
    requires IsAlnum(x) && IsAlnum(y) && !IsAlnum(d)
    ensures Words([x, d, y]) == [[x], [y]]
  {
    SingleCharacter(x);
    SingleCharacter(y);
    assert [x, d, y] == [x] + [d] + [y];
    DelimiterSplits([x], d, [y]);
  }

  /** A word, a delimiter, and two delimited characters. */
  lemma TrailingCharacters(w: string, d: char, x: char, y: char)
    requires Words(w) == [w] && IsAlnum(x) && IsAlnum(y) && !IsAlnum(d)
    ensures Words(w + [d, x, d, y]) == [w, [x], [y]]
  {
    CharacterPair(x, d, y);
    assert w + [d, x, d, y] == w + [d] + [x, d, y];
    DelimiterSplits(w, d, [x, d, y]);
  }

  lemma SpacedCapitals()
    ensures Words("A B C") == ["A", "B", "C"]
  {
    SingleCharacter('A');
    TrailingCharacters("A", ' ', 'B', 'C');
    SpacedSpelling();
  }

  lemma SpacedSpelling()
    ensures "A" + [' ', 'B', ' ', 'C'] == "A B C"
  {
  }

  lemma VersionStages()
    ensures ScanParts("version1", 0, 1) == ["version1"]
    ensures CaseWord("version1") == "version1"
    ensures Refine("version1") == ["version1"]
    ensures AllAlnum("version1")
  {
    LowerCased("version1", "version1");
    var t := "version1";
    assert RunEnd(Letter, t, 0) == 7;
    assert LettersThenDigits(t);
  }

  lemma VersionSpelling()
    ensures "version1" + ['_', '2', '_', '3'] == "version1_2_3"
  {
  }

  lemma VersionNumbers()
    ensures Words("version1_2_3") == ["version1", "2", "3"]
  {
    VersionStages();
    WholeToken("version1", "version1", ["version1"]);
    TrailingCharacters("version1", '_', '2', '3');
    VersionSpelling();
  }
  // ---------------------------------------------------------------------
  // The five converters on the inputs of the test table.
  // ---------------------------------------------------------------------

  /** The five converters on an input with words, unfolded once. */
  lemma Converted(input: string, ws: seq<string>)
    requires |input| > 0 && Words(input) == ws && |ws| > 0
    ensures CamelCase(input) == Join([LowerFirst(ws[0])] + MapWords(Capitalize, ws[1..]), "")
    ensures PascalCase(input) == Join(MapWords(Capitalize, ws), "")
    ensures SnakeCase(input) == Join(MapWords(ToLower, ws), "_")
    ensures KebabCase(input) == Join(MapWords(ToLower, ws), "-")
    ensures ConstantCase(input) == Join(MapWords(ToUpper, ws), "_")
  {
  }

  lemma MapWordsThree(f: string -> string, a: string, b: string, c: string)
    ensures MapWords(f, [a, b, c]) == [f(a), f(b), f(c)]
  {
  }

  lemma JoinThree(a: string, b: string, c: string, sep: string)
    ensures Join([a, b, c], sep) == a + sep + b + sep + c
  {
    assert [a, b, c][1..] == [b, c];
    assert [b, c][1..] == [c];
    assert Join([b, c], sep) == b + sep + c;
    assert Join([a, b, c], sep) == a + sep + (b + sep + c);
    AppendAssoc(a + sep, b + sep, c);
    AppendAssoc(a + sep, b, sep);
  }

  /** camelCase of an input of three words. */
  lemma ThreeWordCamel(input: string, a: string, b: string, c: string)
    requires |input| > 0 && Words(input) == [a, b, c]
    ensures CamelCase(input) == LowerFirst(a) + "" + Capitalize(b) + "" + Capitalize(c)
  {
    Converted(input, [a, b, c]);
    var ws := [a, b, c];
    assert ws[1..] == [b, c];
    assert MapWords(Capitalize, [b, c]) == [Capitalize(b), Capitalize(c)];
    assert [LowerFirst(a)] + [Capitalize(b), Capitalize(c)] == [LowerFirst(a), Capitalize(b), Capitalize(c)];
    JoinThree(LowerFirst(a), Capitalize(b), Capitalize(c), "");
  }

  /** PascalCase of an input of three words. */
  lemma ThreeWordPascal(input: string, a: string, b: string, c: string)
    requires |input| > 0 && Words(input) == [a, b, c]
    ensures PascalCase(input) == Capitalize(a) + "" + Capitalize(b) + "" + Capitalize(c)
  {
    Converted(input, [a, b, c]);
    MapWordsThree(Capitalize, a, b, c);
    JoinThree(Capitalize(a), Capitalize(b), Capitalize(c), "");
  }

  /** The separated converters on an input of three words. */
  lemma ThreeWordSeparated(input: string, a: string, b: string, c: string)
    requires |input| > 0 && Words(input) == [a, b, c]
    ensures SnakeCase(input) == ToLower(a) + "_" + ToLower(b) + "_" + ToLower(c)
    ensures KebabCase(input) == ToLower(a) + "-" + ToLower(b) + "-" + ToLower(c)
    ensures ConstantCase(input) == ToUpper(a) + "_" + ToUpper(b) + "_" + ToUpper(c)
  {
    Converted(input, [a, b, c]);
    MapWordsThree(ToLower, a, b, c);
    MapWordsThree(ToUpper, a, b, c);
    JoinThree(ToLower(a), ToLower(b), ToLower(c), "_");
    JoinThree(ToLower(a), ToLower(b), ToLower(c), "-");
    JoinThree(ToUpper(a), ToUpper(b), ToUpper(c), "_");
  }

  lemma XmlHttpRequestSpelling()
    ensures "xml" + "" + "Http" + "" + "Request" == "xmlHttpRequest"
    ensures "Xml" + "" + "Http" + "" + "Request" == "XmlHttpRequest"
    ensures "xml" + "_" + "http" + "_" + "request" == "xml_http_request"
    ensures "xml" + "-" + "http" + "-" + "request" == "xml-http-request"
    ensures "XML" + "_" + "HTTP" + "_" + "REQUEST" == "XML_HTTP_REQUEST"
  {
  }

  lemma XmlHttpRequestOutputs()
    ensures CamelCase("XMLHttpRequest") == "xmlHttpRequest"
    ensures PascalCase("XMLHttpRequest") == "XmlHttpRequest"
    ensures SnakeCase("XMLHttpRequest") == "xml_http_request"
    ensures KebabCase("XMLHttpRequest") == "xml-http-request"
    ensures ConstantCase("XMLHttpRequest") == "XML_HTTP_REQUEST"
  {
    WordForms("xml", "XML", "Xml");
    WordForms("http", "HTTP", "Http");
    WordForms("request", "REQUEST", "Request");
    XmlHttpRequest();
    ThreeWordCamel("XMLHttpRequest", "xml", "http", "request");
    ThreeWordPascal("XMLHttpRequest", "xml", "http", "request");
    ThreeWordSeparated("XMLHttpRequest", "xml", "http", "request");
    XmlHttpRequestSpelling();
  }
  lemma MyNasaProjectSpelling()
    ensures "my" + "" + "Nasa" + "" + "Project" == "myNasaProject"
    ensures "My" + "" + "Nasa" + "" + "Project" == "MyNasaProject"
    ensures "my" + "_" + "nasa" + "_" + "project" == "my_nasa_project"
    ensures "my" + "-" + "nasa" + "-" + "project" == "my-nasa-project"
    ensures "MY" + "_" + "NASA" + "_" + "PROJECT" == "MY_NASA_PROJECT"
  {
  }

  lemma MyNasaProjectOutputs()
    ensures CamelCase("myNASAProject") == "myNasaProject"
    ensures PascalCase("myNASAProject") == "MyNasaProject"
    ensures SnakeCase("myNASAProject") == "my_nasa_project"
    ensures KebabCase("myNASAProject") == "my-nasa-project"
    ensures ConstantCase("myNASAProject") == "MY_NASA_PROJECT"
  {
    WordForms("my", "MY", "My");
    WordForms("nasa", "NASA", "Nasa");
    WordForms("project", "PROJECT", "Project");
    MyNasaProject();
    ThreeWordCamel("myNASAProject", "my", "nasa", "project");
    ThreeWordPascal("myNASAProject", "my", "nasa", "project");
    ThreeWordSeparated("myNASAProject", "my", "nasa", "project");
    MyNasaProjectSpelling();
  }

  lemma VersionNumbersSpelling()
    ensures "version1" + "" + "2" + "" + "3" == "version123"
    ensures "Version1" + "" + "2" + "" + "3" == "Version123"
    ensures "version1" + "_" + "2" + "_" + "3" == "version1_2_3"
    ensures "version1" + "-" + "2" + "-" + "3" == "version1-2-3"
    ensures "VERSION1" + "_" + "2" + "_" + "3" == "VERSION1_2_3"
  {
  }

  lemma VersionNumbersOutputs()
    ensures CamelCase("version1_2_3") == "version123"
    ensures PascalCase("version1_2_3") == "Version123"
    ensures SnakeCase("version1_2_3") == "version1_2_3"
    ensures KebabCase("version1_2_3") == "version1-2-3"
    ensures ConstantCase("version1_2_3") == "VERSION1_2_3"
  {
    WordForms("version1", "VERSION1", "Version1");
    WordForms("2", "2", "2");
    WordForms("3", "3", "3");
    VersionNumbers();
    ThreeWordCamel("version1_2_3", "version1", "2", "3");
    ThreeWordPascal("version1_2_3", "version1", "2", "3");
    ThreeWordSeparated("version1_2_3", "version1", "2", "3");
    VersionNumbersSpelling();
  }

  // ---------------------------------------------------------------------
  // capitalize and lowerFirst on the words of the test table.
  // ---------------------------------------------------------------------

  lemma CapitalizeExamples()
    ensures Capitalize("foo") == "Foo"
    ensures Capitalize("FOO") == "Foo"
    ensures Capitalize("fOO") == "Foo"
    ensures Capitalize("f") == "F"
    ensures Capitalize("") == ""
  {
    var a := Capitalize("foo");
    assert a[0] == UpperChar('f') && a[1] == LowerChar('o') && a[2] == LowerChar('o');
    var b := Capitalize("FOO");
    assert b[0] == UpperChar('F') && b[1] == LowerChar('O') && b[2] == LowerChar('O');
    var c := Capitalize("fOO");
    assert c[0] == UpperChar('f') && c[1] == LowerChar('O') && c[2] == LowerChar('O');
    var d := Capitalize("f");
    assert d[0] == UpperChar('f');
  }

  lemma LowerFirstExamples()
    ensures LowerFirst("Foo") == "foo"
    ensures LowerFirst("FOO") == "fOO"
    ensures LowerFirst("F") == "f"
    ensures LowerFirst("") == ""
  {
    var a := LowerFirst("Foo");
    assert a[0] == LowerChar('F');
    var b := LowerFirst("FOO");
    assert b[0] == LowerChar('F');
    var c := LowerFirst("F");
    assert c[0] == LowerChar('F');
  }
}
