/** The remaining rows of the library's test table: the converter table
    and the `splitWords` expectations, each worked through the model. */
module TestTable {
  import opened Text
  import opened Segmenter
  import opened SegmenterProps
  import opened WordCase
  import opened CaseConvert
  import opened Scenarios

  // ---------------------------------------------------------------------
  // Tokens with no case boundary
  // ---------------------------------------------------------------------

  /** A token of two or more letters all of one case is one word,
      lowercased. */
  lemma OneCase(t: string)
    requires |t| > 1
    requires (forall i :: 0 <= i < |t| ==> IsLower(t[i])) || (forall i :: 0 <= i < |t| ==> IsUpper(t[i]))
    ensures Words(t) == [ToLower(t)]
  {
    NoCut(t, 0, 1);
    assert t[0..] == t;
    var w := ToLower(t);
    forall i | 0 <= i < |w| ensures IsLetter(w[i]) {
      assert IsLetter(t[i]) && w[i] == LowerChar(t[i]);
    }
    KeepsLetters(w);
    WholeToken(t, w, [w]);
  }

  /** A lowercase token of two or more letters is one word, itself. */
  lemma LowerToken(t: string)
    requires |t| > 1 && forall i :: 0 <= i < |t| ==> IsLower(t[i])
    ensures Words(t) == [t]
  {
    OneCase(t);
    MapsTo(LowerChar, t, t);
  }

  /** An uppercase token of two or more letters is one word, its
      lowercase spelling. */
  lemma UpperToken(t: string, w: string)
    requires |t| > 1 && forall i :: 0 <= i < |t| ==> IsUpper(t[i])
    requires |w| == |t| && forall i :: 0 <= i < |t| ==> w[i] == LowerChar(t[i])
    ensures Words(t) == [w]
  {
    OneCase(t);
    MapsTo(LowerChar, t, w);
  }

  // ---------------------------------------------------------------------
  // The converters on one, two and four words
  // ---------------------------------------------------------------------

  lemma JoinTwo(a: string, b: string, sep: string)
    ensures Join([a, b], sep) == a + sep + b
  {
    assert [a, b][1..] == [b];
  }

  lemma JoinFour(a: string, b: string, c: string, d: string, sep: string)
    ensures Join([a, b, c, d], sep) == a + sep + b + sep + c + sep + d
  {
    assert [a, b, c, d][1..] == [b, c, d];
    JoinThree(b, c, d, sep);
    assert Join([a, b, c, d], sep) == a + sep + (b + sep + c + sep + d);
    AppendAssoc(a + sep, b + sep + c + sep, d);
    AppendAssoc(a + sep, b + sep + c, sep);
    AppendAssoc(a + sep, b + sep, c);
    AppendAssoc(a + sep, b, sep);
  }

  /** The five converters on an input of one word. */
  lemma OneWordOutputs(input: string, a: string)
    requires |input| > 0 && Words(input) == [a]
    ensures CamelCase(input) == LowerFirst(a)
    ensures PascalCase(input) == Capitalize(a)
    ensures SnakeCase(input) == ToLower(a) && KebabCase(input) == ToLower(a)
    ensures ConstantCase(input) == ToUpper(a)
  {
    Converted(input, [a]);
    assert [a][1..] == [];
    assert MapWords(Capitalize, [a]) == [Capitalize(a)];
    assert MapWords(ToLower, [a]) == [ToLower(a)];
    assert MapWords(ToUpper, [a]) == [ToUpper(a)];
  }

  /** camelCase and PascalCase of an input of two words. */
  lemma TwoWordJoined(input: string, a: string, b: string)
    requires |input| > 0 && Words(input) == [a, b]
    ensures CamelCase(input) == LowerFirst(a) + "" + Capitalize(b)
    ensures PascalCase(input) == Capitalize(a) + "" + Capitalize(b)
  {
    Converted(input, [a, b]);
    assert [a, b][1..] == [b];
    assert MapWords(Capitalize, [b]) == [Capitalize(b)];
    assert [LowerFirst(a)] + [Capitalize(b)] == [LowerFirst(a), Capitalize(b)];
    JoinTwo(LowerFirst(a), Capitalize(b), "");
    assert MapWords(Capitalize, [a, b]) == [Capitalize(a), Capitalize(b)];
    JoinTwo(Capitalize(a), Capitalize(b), "");
  }

  /** The separated converters on an input of two words. */
  lemma TwoWordSeparated(input: string, a: string, b: string)
    requires |input| > 0 && Words(input) == [a, b]
    ensures SnakeCase(input) == ToLower(a) + "_" + ToLower(b)
    ensures KebabCase(input) == ToLower(a) + "-" + ToLower(b)
    ensures ConstantCase(input) == ToUpper(a) + "_" + ToUpper(b)
  {
    Converted(input, [a, b]);
    assert MapWords(ToLower, [a, b]) == [ToLower(a), ToLower(b)];
    assert MapWords(ToUpper, [a, b]) == [ToUpper(a), ToUpper(b)];
    JoinTwo(ToLower(a), ToLower(b), "_");
    JoinTwo(ToLower(a), ToLower(b), "-");
    JoinTwo(ToUpper(a), ToUpper(b), "_");
  }

  /** camelCase of an input of four words. */
  lemma FourWordCamel(input: string, a: string, b: string, c: string, d: string)
    requires |input| > 0 && Words(input) == [a, b, c, d]
    ensures CamelCase(input) == LowerFirst(a) + "" + Capitalize(b) + "" + Capitalize(c) + "" + Capitalize(d)
  {
    Converted(input, [a, b, c, d]);
    CamelFourParts(a, b, c, d);
    JoinFour(LowerFirst(a), Capitalize(b), Capitalize(c), Capitalize(d), "");
  }

  lemma CamelFourParts(a: string, b: string, c: string, d: string)
    ensures [LowerFirst(a)] + MapWords(Capitalize, [a, b, c, d][1..])
      == [LowerFirst(a), Capitalize(b), Capitalize(c), Capitalize(d)]
  {
    assert [a, b, c, d][1..] == [b, c, d];
    MapWordsThree(Capitalize, b, c, d);
  }

  /** PascalCase of an input of four words. */
  lemma FourWordPascal(input: string, a: string, b: string, c: string, d: string)
    requires |input| > 0 && Words(input) == [a, b, c, d]
    ensures PascalCase(input) == Capitalize(a) + "" + Capitalize(b) + "" + Capitalize(c) + "" + Capitalize(d)
  {
    Converted(input, [a, b, c, d]);
    MapWordsFour(Capitalize, a, b, c, d);
    JoinFour(Capitalize(a), Capitalize(b), Capitalize(c), Capitalize(d), "");
  }

  lemma MapWordsFour(f: string -> string, a: string, b: string, c: string, d: string)
    ensures MapWords(f, [a, b, c, d]) == [f(a), f(b), f(c), f(d)]
  {
  }

  /** snake_case and kebab-case of an input of four words. */
  lemma FourWordLower(input: string, a: string, b: string, c: string, d: string)
    requires |input| > 0 && Words(input) == [a, b, c, d]
    ensures SnakeCase(input) == ToLower(a) + "_" + ToLower(b) + "_" + ToLower(c) + "_" + ToLower(d)
    ensures KebabCase(input) == ToLower(a) + "-" + ToLower(b) + "-" + ToLower(c) + "-" + ToLower(d)
  {
    Converted(input, [a, b, c, d]);
    MapWordsFour(ToLower, a, b, c, d);
    JoinFour(ToLower(a), ToLower(b), ToLower(c), ToLower(d), "_");
    JoinFour(ToLower(a), ToLower(b), ToLower(c), ToLower(d), "-");
  }

  /** CONSTANT_CASE of an input of four words. */
  lemma FourWordUpper(input: string, a: string, b: string, c: string, d: string)
    requires |input| > 0 && Words(input) == [a, b, c, d]
    ensures ConstantCase(input) == ToUpper(a) + "_" + ToUpper(b) + "_" + ToUpper(c) + "_" + ToUpper(d)
  {
    Converted(input, [a, b, c, d]);
    MapWordsFour(ToUpper, a, b, c, d);
    JoinFour(ToUpper(a), ToUpper(b), ToUpper(c), ToUpper(d), "_");
  }
  // ---------------------------------------------------------------------
  // Lowercase tokens between delimiters
  // ---------------------------------------------------------------------

  /** Two lowercase tokens with delimiters between them are two words. */
  lemma LowerPair(a: string, g: string, b: string)
    requires |a| > 1 && forall i :: 0 <= i < |a| ==> IsLower(a[i])
    requires |b| > 1 && forall i :: 0 <= i < |b| ==> IsLower(b[i])
    requires |g| > 0 && forall i :: 0 <= i < |g| ==> !IsAlnum(g[i])
    ensures Words(a + g + b) == [a, b]
  {
    LowerToken(a);
    LowerToken(b);
    DelimitersBetween(a, g, b);
  }

  /** Two uppercase tokens with delimiters between them are two words,
      lowercased. */
  lemma UpperPair(a: string, wa: string, g: string, b: string, wb: string)
    requires |a| > 1 && forall i :: 0 <= i < |a| ==> IsUpper(a[i])
    requires |wa| == |a| && forall i :: 0 <= i < |a| ==> wa[i] == LowerChar(a[i])
    requires |b| > 1 && forall i :: 0 <= i < |b| ==> IsUpper(b[i])
    requires |wb| == |b| && forall i :: 0 <= i < |b| ==> wb[i] == LowerChar(b[i])
    requires |g| > 0 && forall i :: 0 <= i < |g| ==> !IsAlnum(g[i])
    ensures Words(a + g + b) == [wa, wb]
  {
    UpperToken(a, wa);
    UpperToken(b, wb);
    DelimitersBetween(a, g, b);
  }

  /** Delimiters on both sides add no words. */
  lemma Padded(p: string, m: string, q: string)
    requires forall i :: 0 <= i < |p| ==> !IsAlnum(p[i])
    requires forall i :: 0 <= i < |q| ==> !IsAlnum(q[i])
    ensures Words(p + m + q) == Words(m)
  {
    DelimitersAfter(m, q);
    DelimitersBefore(p, m + q);
    AppendAssoc(p, m, q);
  }

  /** Three lowercase tokens separated by delimiters are three words. */
  lemma LowerTriple(a: string, g: string, b: string, h: string, c: string)
    requires |a| > 1 && forall i :: 0 <= i < |a| ==> IsLower(a[i])
    requires |b| > 1 && forall i :: 0 <= i < |b| ==> IsLower(b[i])
    requires |c| > 1 && forall i :: 0 <= i < |c| ==> IsLower(c[i])
    requires |g| > 0 && forall i :: 0 <= i < |g| ==> !IsAlnum(g[i])
    requires |h| > 0 && forall i :: 0 <= i < |h| ==> !IsAlnum(h[i])
    ensures Words(a + g + b + h + c) == [a, b, c]
  {
    LowerPair(a, g, b);
    LowerAfter(a + g + b, h, c);
  }

  /** Four lowercase tokens separated by delimiters are four words. */
  lemma LowerQuad(a: string, g: string, b: string, h: string, c: string, k: string, d: string)
    requires |a| > 1 && forall i :: 0 <= i < |a| ==> IsLower(a[i])
    requires |b| > 1 && forall i :: 0 <= i < |b| ==> IsLower(b[i])
    requires |c| > 1 && forall i :: 0 <= i < |c| ==> IsLower(c[i])
    requires |d| > 1 && forall i :: 0 <= i < |d| ==> IsLower(d[i])
    requires |g| > 0 && forall i :: 0 <= i < |g| ==> !IsAlnum(g[i])
    requires |h| > 0 && forall i :: 0 <= i < |h| ==> !IsAlnum(h[i])
    requires |k| > 0 && forall i :: 0 <= i < |k| ==> !IsAlnum(k[i])
    ensures Words(a + g + b + h + c + k + d) == [a, b, c, d]
  {
    LowerTriple(a, g, b, h, c);
    LowerAfter(a + g + b + h + c, k, d);
  }

  /** A lowercase token after delimiters is one more word. */
  lemma LowerAfter(s: string, g: string, b: string)
    requires |b| > 1 && forall i :: 0 <= i < |b| ==> IsLower(b[i])
    requires |g| > 0 && forall i :: 0 <= i < |g| ==> !IsAlnum(g[i])
    ensures Words(s + g + b) == Words(s) + [b]
  {
    LowerToken(b);
    DelimitersBetween(s, g, b);
  }

  // ---------------------------------------------------------------------
  // Eight spellings of hello world: rows 1-6, 14 and 15 of the converter
  // table
  // ---------------------------------------------------------------------

  lemma HelloWorldSpelling()
    ensures "hello" + "" + "World" == "helloWorld"
    ensures "Hello" + "" + "World" == "HelloWorld"
    ensures "hello" + "_" + "world" == "hello_world"
    ensures "hello" + "-" + "world" == "hello-world"
    ensures "HELLO" + "_" + "WORLD" == "HELLO_WORLD"
  {
  }

  /** How the eight inputs are spelled from their tokens and delimiters. */
  lemma HelloWorldInputs()
    ensures "hello" + " " + "world" == "hello world"
    ensures "hello" + "_" + "world" == "hello_world"
    ensures "hello" + "-" + "world" == "hello-world"
    ensures "HELLO" + "_" + "WORLD" == "HELLO_WORLD"
    ensures "  " + ("hello" + "   " + "world") + "  " == "  hello   world  "
    ensures "--" + ("hello" + "__" + "world") + "--" == "--hello__world--"
  {
  }

  lemma HelloWorldForms()
    ensures ToLower("hello") == "hello" && ToUpper("hello") == "HELLO"
    ensures Capitalize("hello") == "Hello" && LowerFirst("hello") == "hello"
    ensures ToLower("world") == "world" && ToUpper("world") == "WORLD"
    ensures Capitalize("world") == "World"
  {
    WordForms("hello", "HELLO", "Hello");
    WordForms("world", "WORLD", "World");
  }

  /** Every input whose words are `hello` and `world` converts to the five
      outputs of the table. */
  lemma HelloWorldOutputs(input: string)
    requires |input| > 0 && Words(input) == ["hello", "world"]
    ensures CamelCase(input) == "helloWorld"
    ensures PascalCase(input) == "HelloWorld"
    ensures SnakeCase(input) == "hello_world"
    ensures KebabCase(input) == "hello-world"
    ensures ConstantCase(input) == "HELLO_WORLD"
  {
    HelloWorldForms();
    TwoWordJoined(input, "hello", "world");
    TwoWordSeparated(input, "hello", "world");
    HelloWorldSpelling();
  }

  lemma HelloSpaceWorld()
    ensures Words("hello world") == ["hello", "world"]
  {
    HelloWorldInputs();
    LowerPair("hello", " ", "world");
  }

  lemma HelloUnderscoreWorld()
    ensures Words("hello_world") == ["hello", "world"]
  {
    HelloWorldInputs();
    LowerPair("hello", "_", "world");
  }

  lemma HelloDashWorld()
    ensures Words("hello-world") == ["hello", "world"]
  {
    HelloWorldInputs();
    LowerPair("hello", "-", "world");
  }

  lemma HelloWorldConstant()
    ensures Words("HELLO_WORLD") == ["hello", "world"]
  {
    HelloWorldInputs();
    UpperPair("HELLO", "hello", "_", "WORLD", "world");
  }

  lemma HelloWorldPascal()
    ensures Words("HelloWorld") == ["hello", "world"]
  {
    var t := "HelloWorld";
    assert t[0..5] == "Hello";
    assert ScanParts(t, 5, 6) == ["World"];
    LowerCased("Hello", "hello");
    LowerCased("World", "world");
    TwoWords(t, "Hello", "World", "hello", "world");
  }

  lemma HelloWorldCamel()
    ensures Words("helloWorld") == ["hello", "world"]
  {
    var t := "helloWorld";
    assert t[0..5] == "hello";
    assert ScanParts(t, 5, 6) == ["World"];
    LowerCased("hello", "hello");
    LowerCased("World", "world");
    TwoWords(t, "hello", "World", "hello", "world");
  }

  lemma HelloWorldPadded()
    ensures Words("  hello   world  ") == ["hello", "world"]
  {
    HelloWorldInputs();
    LowerPair("hello", "   ", "world");
    Padded("  ", "hello" + "   " + "world", "  ");
  }

  lemma HelloWorldDashed()
    ensures Words("--hello__world--") == ["hello", "world"]
  {
    HelloWorldInputs();
    LowerPair("hello", "__", "world");
    Padded("--", "hello" + "__" + "world", "--");
  }

  /** Rows 1-3 of the converter table. */
  lemma HelloWorldRows()
    ensures CamelCase("hello world") == "helloWorld" && PascalCase("hello world") == "HelloWorld"
    ensures SnakeCase("hello world") == "hello_world" && KebabCase("hello world") == "hello-world"
    ensures ConstantCase("hello world") == "HELLO_WORLD"
    ensures CamelCase("HelloWorld") == "helloWorld" && PascalCase("HelloWorld") == "HelloWorld"
    ensures SnakeCase("HelloWorld") == "hello_world" && KebabCase("HelloWorld") == "hello-world"
    ensures ConstantCase("HelloWorld") == "HELLO_WORLD"
    ensures CamelCase("helloWorld") == "helloWorld" && PascalCase("helloWorld") == "HelloWorld"
    ensures SnakeCase("helloWorld") == "hello_world" && KebabCase("helloWorld") == "hello-world"
    ensures ConstantCase("helloWorld") == "HELLO_WORLD"
  {
    HelloSpaceWorld();
    HelloWorldOutputs("hello world");
    HelloWorldPascal();
    HelloWorldOutputs("HelloWorld");
    HelloWorldCamel();
    HelloWorldOutputs("helloWorld");
  }

  /** Rows 4-6 of the converter table. */
  lemma HelloWorldDelimitedRows()
    ensures CamelCase("hello_world") == "helloWorld" && PascalCase("hello_world") == "HelloWorld"
    ensures SnakeCase("hello_world") == "hello_world" && KebabCase("hello_world") == "hello-world"
    ensures ConstantCase("hello_world") == "HELLO_WORLD"
    ensures CamelCase("hello-world") == "helloWorld" && PascalCase("hello-world") == "HelloWorld"
    ensures SnakeCase("hello-world") == "hello_world" && KebabCase("hello-world") == "hello-world"
    ensures ConstantCase("hello-world") == "HELLO_WORLD"
    ensures CamelCase("HELLO_WORLD") == "helloWorld" && PascalCase("HELLO_WORLD") == "HelloWorld"
    ensures SnakeCase("HELLO_WORLD") == "hello_world" && KebabCase("HELLO_WORLD") == "hello-world"
    ensures ConstantCase("HELLO_WORLD") == "HELLO_WORLD"
  {
    HelloUnderscoreWorld();
    HelloWorldOutputs("hello_world");
    HelloDashWorld();
    HelloWorldOutputs("hello-world");
    HelloWorldConstant();
    HelloWorldOutputs("HELLO_WORLD");
  }

  /** Rows 14-15 of the converter table. */
  lemma HelloWorldPaddedRows()
    ensures CamelCase("  hello   world  ") == "helloWorld" && PascalCase("  hello   world  ") == "HelloWorld"
    ensures SnakeCase("  hello   world  ") == "hello_world" && KebabCase("  hello   world  ") == "hello-world"
    ensures ConstantCase("  hello   world  ") == "HELLO_WORLD"
    ensures CamelCase("--hello__world--") == "helloWorld" && PascalCase("--hello__world--") == "HelloWorld"
    ensures SnakeCase("--hello__world--") == "hello_world" && KebabCase("--hello__world--") == "hello-world"
    ensures ConstantCase("--hello__world--") == "HELLO_WORLD"
  {
    HelloWorldPadded();
    HelloWorldOutputs("  hello   world  ");
    HelloWorldDashed();
    HelloWorldOutputs("--hello__world--");
  }

  // ---------------------------------------------------------------------
  // HTMLParser, APIResponse and item007 through the five converters
  // ---------------------------------------------------------------------

  lemma AcronymSpellings()
    ensures "html" + "" + "Parser" == "htmlParser"
    ensures "Html" + "" + "Parser" == "HtmlParser"
    ensures "html" + "_" + "parser" == "html_parser"
    ensures "html" + "-" + "parser" == "html-parser"
    ensures "HTML" + "_" + "PARSER" == "HTML_PARSER"
    ensures "api" + "" + "Response" == "apiResponse"
    ensures "Api" + "" + "Response" == "ApiResponse"
    ensures "api" + "_" + "response" == "api_response"
    ensures "api" + "-" + "response" == "api-response"
    ensures "API" + "_" + "RESPONSE" == "API_RESPONSE"
  {
  }

  lemma HtmlParserOutputs()
    ensures CamelCase("HTMLParser") == "htmlParser"
    ensures PascalCase("HTMLParser") == "HtmlParser"
    ensures SnakeCase("HTMLParser") == "html_parser"
    ensures KebabCase("HTMLParser") == "html-parser"
    ensures ConstantCase("HTMLParser") == "HTML_PARSER"
  {
    WordForms("html", "HTML", "Html");
    WordForms("parser", "PARSER", "Parser");
    HtmlParser();
    TwoWordJoined("HTMLParser", "html", "parser");
    TwoWordSeparated("HTMLParser", "html", "parser");
    AcronymSpellings();
  }

  lemma ApiResponseOutputs()
    ensures CamelCase("APIResponse") == "apiResponse"
    ensures PascalCase("APIResponse") == "ApiResponse"
    ensures SnakeCase("APIResponse") == "api_response"
    ensures KebabCase("APIResponse") == "api-response"
    ensures ConstantCase("APIResponse") == "API_RESPONSE"
  {
    WordForms("api", "API", "Api");
    WordForms("response", "RESPONSE", "Response");
    ApiResponse();
    TwoWordJoined("APIResponse", "api", "response");
    TwoWordSeparated("APIResponse", "api", "response");
    AcronymSpellings();
  }

  lemma Item007Outputs()
    ensures CamelCase("item007") == "item007"
    ensures PascalCase("item007") == "Item007"
    ensures SnakeCase("item007") == "item007"
    ensures KebabCase("item007") == "item007"
    ensures ConstantCase("item007") == "ITEM007"
  {
    WordForms("item007", "ITEM007", "Item007");
    Item007();
    OneWordOutputs("item007", "item007");
  }

  // ---------------------------------------------------------------------
  // parseJSONData: an acronym inside a camelCase name
  // ---------------------------------------------------------------------

  lemma ParseParts()
    ensures ScanParts("parseJSONData", 0, 1) == ["parse", "JSON", "Data"]
    ensures AllAlnum("parseJSONData")
  {
    var t := "parseJSONData";
    assert t[0..5] == "parse";
    assert t[5..9] == "JSON";
    assert ScanParts(t, 9, 10) == ["Data"];
    assert ScanParts(t, 5, 6) == ["JSON", "Data"];
  }

  lemma ParseJsonData()
    ensures Words("parseJSONData") == ["parse", "json", "data"]
  {
    ParseParts();
    LowerCased("parse", "parse");
    LowerCased("JSON", "json");
    LowerCased("Data", "data");
    ThreeWords("parseJSONData", "parse", "JSON", "Data", "parse", "json", "data");
  }

  lemma ParseJsonDataSpelling()
    ensures "parse" + "" + "Json" + "" + "Data" == "parseJsonData"
    ensures "Parse" + "" + "Json" + "" + "Data" == "ParseJsonData"
    ensures "parse" + "_" + "json" + "_" + "data" == "parse_json_data"
    ensures "parse" + "-" + "json" + "-" + "data" == "parse-json-data"
    ensures "PARSE" + "_" + "JSON" + "_" + "DATA" == "PARSE_JSON_DATA"
  {
  }

  lemma ParseJsonDataOutputs()
    ensures CamelCase("parseJSONData") == "parseJsonData"
    ensures PascalCase("parseJSONData") == "ParseJsonData"
    ensures SnakeCase("parseJSONData") == "parse_json_data"
    ensures KebabCase("parseJSONData") == "parse-json-data"
    ensures ConstantCase("parseJSONData") == "PARSE_JSON_DATA"
  {
    WordForms("parse", "PARSE", "Parse");
    WordForms("json", "JSON", "Json");
    WordForms("data", "DATA", "Data");
    ParseJsonData();
    ThreeWordCamel("parseJSONData", "parse", "json", "data");
    ThreeWordPascal("parseJSONData", "parse", "json", "data");
    ThreeWordSeparated("parseJSONData", "parse", "json", "data");
    ParseJsonDataSpelling();
  }

  // ---------------------------------------------------------------------
  // Mixed delimiters: rows 16-18 of the converter table
  // ---------------------------------------------------------------------

  lemma DelimitedInputs()
    ensures "hello" + "--" + "world" + "__" + "foo" == "hello--world__foo"
    ensures "foo" + "_" + "bar" + "-" + "baz" + " " + "qux" == "foo_bar-baz qux"
    ensures "foo" + "@" + "bar" + "#" + "baz" + "!" == "foo@bar#baz!"
  {
  }

  lemma HelloWorldFoo()
    ensures Words("hello--world__foo") == ["hello", "world", "foo"]
  {
    LowerTriple("hello", "--", "world", "__", "foo");
    DelimitedInputs();
  }

  lemma FooBarBazQux()
    ensures Words("foo_bar-baz qux") == ["foo", "bar", "baz", "qux"]
  {
    LowerQuad("foo", "_", "bar", "-", "baz", " ", "qux");
    DelimitedInputs();
  }

  lemma FooBarBazPunctuated()
    ensures Words("foo@bar#baz!") == ["foo", "bar", "baz"]
  {
    LowerTriple("foo", "@", "bar", "#", "baz");
    DelimitersAfter("foo" + "@" + "bar" + "#" + "baz", "!");
    DelimitedInputs();
  }

  lemma HelloWorldFooSpelling()
    ensures "hello" + "" + "World" + "" + "Foo" == "helloWorldFoo"
    ensures "Hello" + "" + "World" + "" + "Foo" == "HelloWorldFoo"
    ensures "hello" + "_" + "world" + "_" + "foo" == "hello_world_foo"
    ensures "hello" + "-" + "world" + "-" + "foo" == "hello-world-foo"
    ensures "HELLO" + "_" + "WORLD" + "_" + "FOO" == "HELLO_WORLD_FOO"
  {
  }

  lemma FooBarBazQuxSpelling()
    ensures "foo" + "" + "Bar" + "" + "Baz" + "" + "Qux" == "fooBarBazQux"
    ensures "Foo" + "" + "Bar" + "" + "Baz" + "" + "Qux" == "FooBarBazQux"
    ensures "foo" + "_" + "bar" + "_" + "baz" + "_" + "qux" == "foo_bar_baz_qux"
    ensures "foo" + "-" + "bar" + "-" + "baz" + "-" + "qux" == "foo-bar-baz-qux"
    ensures "FOO" + "_" + "BAR" + "_" + "BAZ" + "_" + "QUX" == "FOO_BAR_BAZ_QUX"
  {
  }

  lemma FooBarBazSpelling()
    ensures "foo" + "" + "Bar" + "" + "Baz" == "fooBarBaz"
    ensures "Foo" + "" + "Bar" + "" + "Baz" == "FooBarBaz"
    ensures "foo" + "_" + "bar" + "_" + "baz" == "foo_bar_baz"
    ensures "foo" + "-" + "bar" + "-" + "baz" == "foo-bar-baz"
    ensures "FOO" + "_" + "BAR" + "_" + "BAZ" == "FOO_BAR_BAZ"
  {
  }

  lemma HelloWorldFooOutputs()
    ensures CamelCase("hello--world__foo") == "helloWorldFoo"
    ensures PascalCase("hello--world__foo") == "HelloWorldFoo"
    ensures SnakeCase("hello--world__foo") == "hello_world_foo"
    ensures KebabCase("hello--world__foo") == "hello-world-foo"
    ensures ConstantCase("hello--world__foo") == "HELLO_WORLD_FOO"
  {
    WordForms("hello", "HELLO", "Hello");
    WordForms("world", "WORLD", "World");
    WordForms("foo", "FOO", "Foo");
    HelloWorldFoo();
    ThreeWordCamel("hello--world__foo", "hello", "world", "foo");
    ThreeWordPascal("hello--world__foo", "hello", "world", "foo");
    ThreeWordSeparated("hello--world__foo", "hello", "world", "foo");
    HelloWorldFooSpelling();
  }

  lemma FooBarBazQuxOutputs()
    ensures CamelCase("foo_bar-baz qux") == "fooBarBazQux"
    ensures PascalCase("foo_bar-baz qux") == "FooBarBazQux"
    ensures SnakeCase("foo_bar-baz qux") == "foo_bar_baz_qux"
    ensures KebabCase("foo_bar-baz qux") == "foo-bar-baz-qux"
    ensures ConstantCase("foo_bar-baz qux") == "FOO_BAR_BAZ_QUX"
  {
    WordForms("foo", "FOO", "Foo");
    WordForms("bar", "BAR", "Bar");
    WordForms("baz", "BAZ", "Baz");
    WordForms("qux", "QUX", "Qux");
    FooBarBazQux();
    FourWordCamel("foo_bar-baz qux", "foo", "bar", "baz", "qux");
    FourWordPascal("foo_bar-baz qux", "foo", "bar", "baz", "qux");
    FourWordLower("foo_bar-baz qux", "foo", "bar", "baz", "qux");
    FourWordUpper("foo_bar-baz qux", "foo", "bar", "baz", "qux");
    FooBarBazQuxSpelling();
  }

  lemma FooBarBazPunctuatedOutputs()
    ensures CamelCase("foo@bar#baz!") == "fooBarBaz"
    ensures PascalCase("foo@bar#baz!") == "FooBarBaz"
    ensures SnakeCase("foo@bar#baz!") == "foo_bar_baz"
    ensures KebabCase("foo@bar#baz!") == "foo-bar-baz"
    ensures ConstantCase("foo@bar#baz!") == "FOO_BAR_BAZ"
  {
    WordForms("foo", "FOO", "Foo");
    WordForms("bar", "BAR", "Bar");
    WordForms("baz", "BAZ", "Baz");
    FooBarBazPunctuated();
    ThreeWordCamel("foo@bar#baz!", "foo", "bar", "baz");
    ThreeWordPascal("foo@bar#baz!", "foo", "bar", "baz");
    ThreeWordSeparated("foo@bar#baz!", "foo", "bar", "baz");
    FooBarBazSpelling();
  }

  /** The last row: "" converts to "" everywhere. */
  lemma EmptyRow()
    ensures CamelCase("") == "" && PascalCase("") == ""
    ensures SnakeCase("") == "" && KebabCase("") == "" && ConstantCase("") == ""
  {
  }

  /** Inputs made only of delimiters give "" from every converter: the
      general path of line 15 (and its twins) returns "". */
  lemma DelimiterRows()
    ensures CamelCase("_") == "" && PascalCase("_") == "" && SnakeCase("_") == ""
    ensures KebabCase("_") == "" && ConstantCase("_") == ""
    ensures CamelCase("-") == "" && PascalCase("-") == "" && SnakeCase("-") == ""
    ensures KebabCase("-") == "" && ConstantCase("-") == ""
    ensures CamelCase(" ") == "" && PascalCase(" ") == "" && SnakeCase(" ") == ""
    ensures KebabCase(" ") == "" && ConstantCase(" ") == ""
  {
    NoWordRow("_");
    NoWordRow("-");
    NoWordRow(" ");
  }

  lemma RepeatedDelimiterRows()
    ensures CamelCase("___") == "" && PascalCase("___") == "" && SnakeCase("___") == ""
    ensures KebabCase("___") == "" && ConstantCase("___") == ""
    ensures CamelCase("---") == "" && PascalCase("---") == "" && SnakeCase("---") == ""
    ensures KebabCase("---") == "" && ConstantCase("---") == ""
    ensures CamelCase("   ") == "" && PascalCase("   ") == "" && SnakeCase("   ") == ""
    ensures KebabCase("   ") == "" && ConstantCase("   ") == ""
  {
    NoWordRow("___");
    NoWordRow("---");
    NoWordRow("   ");
  }

  /** The five converters on one input with no ASCII letter or digit. */
  lemma NoWordRow(input: string)
    requires NoAlnum(input)
    ensures CamelCase(input) == "" && PascalCase(input) == "" && SnakeCase(input) == ""
    ensures KebabCase(input) == "" && ConstantCase(input) == ""
  {
  }

  lemma FooOutputs()
    ensures CamelCase("foo") == "foo"
    ensures PascalCase("foo") == "Foo"
    ensures SnakeCase("foo") == "foo"
    ensures KebabCase("foo") == "foo"
    ensures ConstantCase("foo") == "FOO"
  {
    WordForms("foo", "FOO", "Foo");
    LowerToken("foo");
    OneWordOutputs("foo", "foo");
  }

  // ---------------------------------------------------------------------
  // The `splitWords` expectations
  // ---------------------------------------------------------------------

  lemma FooBarBazParts()
    ensures ScanParts("fooBarBaz", 0, 1) == ["foo", "Bar", "Baz"]
    ensures ScanParts("FooBarBaz", 0, 1) == ["Foo", "Bar", "Baz"]
    ensures AllAlnum("fooBarBaz") && AllAlnum("FooBarBaz")
  {
    var t, u := "fooBarBaz", "FooBarBaz";
    assert t[0..3] == "foo" && t[3..6] == "Bar";
    assert ScanParts(t, 6, 7) == ["Baz"];
    assert ScanParts(t, 3, 4) == ["Bar", "Baz"];
    assert u[0..3] == "Foo" && u[3..6] == "Bar";
    assert ScanParts(u, 6, 7) == ["Baz"];
    assert ScanParts(u, 3, 4) == ["Bar", "Baz"];
  }

  /** `fooBarBaz` and `FooBarBaz` give `foo`, `bar`, `baz`. */
  lemma FooBarBaz()
    ensures Words("fooBarBaz") == ["foo", "bar", "baz"]
    ensures Words("FooBarBaz") == ["foo", "bar", "baz"]
  {
    FooBarBazParts();
    LowerCased("foo", "foo");
    LowerCased("Foo", "foo");
    LowerCased("Bar", "bar");
    LowerCased("Baz", "baz");
    ThreeWords("fooBarBaz", "foo", "Bar", "Baz", "foo", "bar", "baz");
    ThreeWords("FooBarBaz", "Foo", "Bar", "Baz", "foo", "bar", "baz");
  }

  /** `___` and three spaces give no words. */
  lemma OnlyDelimiters()
    ensures Words("___") == [] && Words("   ") == []
  {
    WordsEmpty("___");
    WordsEmpty("   ");
  }

  /** `X` gives `X`. */
  lemma SingleCapital()
    ensures Words("X") == ["X"]
  {
    SingleCharacter('X');
  }

  lemma LetterSpelling()
    ensures "a" + [' ', 'b', ' ', 'c'] == "a b c"
  {
  }

  /** `a b c` gives `a`, `b`, `c`. */
  lemma SpacedLetters()
    ensures Words("a b c") == ["a", "b", "c"]
  {
    SingleCharacter('a');
    TrailingCharacters("a", ' ', 'b', 'c');
    LetterSpelling();
  }

  /** `FOO` gives `foo`. */
  lemma ShoutedWord()
    ensures Words("FOO") == ["foo"]
  {
    UpperToken("FOO", "foo");
  }

  /** `BarBaz` gives `bar`, `baz`. */
  lemma BarBaz()
    ensures Words("BarBaz") == ["bar", "baz"]
  {
    var t := "BarBaz";
    assert t[0..3] == "Bar";
    assert ScanParts(t, 3, 4) == ["Baz"];
    LowerCased("Bar", "bar");
    LowerCased("Baz", "baz");
    TwoWords(t, "Bar", "Baz", "bar", "baz");
  }

  /** A maximal run of letters at `i` is the next match of line 46. */
  lemma LetterRun(w: string, i: nat, e: nat)
    requires i < e <= |w| && forall j :: i <= j < e ==> IsLetter(w[j])
    requires e < |w| ==> !IsLetter(w[e])
    ensures RunsFrom(w, i) == [w[i..e]] + RunsFrom(w, e)
  {
    RunEndIs(Letter, w, i, e);
  }

  /** A maximal run of digits at `i` is the next match of line 46. */
  lemma DigitRun(w: string, i: nat, e: nat)
    requires i < e <= |w| && forall j :: i <= j < e ==> IsDigit(w[j])
    requires e < |w| ==> !IsDigit(w[e])
    ensures RunsFrom(w, i) == [w[i..e]] + RunsFrom(w, e)
  {
    assert !IsLetter(w[i]);
    RunEndIs(Digit, w, i, e);
  }

  /** Letters, digits, letters, digits: four matches of line 46. */
  lemma AlternatingRuns(w: string, x: nat, y: nat, z: nat)
    requires 0 < x < y < z < |w|
    requires forall j :: 0 <= j < x ==> IsLetter(w[j])
    requires forall j :: x <= j < y ==> IsDigit(w[j])
    requires forall j :: y <= j < z ==> IsLetter(w[j])
    requires forall j :: z <= j < |w| ==> IsDigit(w[j])
    ensures Runs(w) == [w[..x], w[x..y], w[y..z], w[z..]]
  {
    DigitRun(w, z, |w|);
    assert w[z..|w|] == w[z..];
    assert RunsFrom(w, z) == [w[z..]];
    assert !IsLetter(w[z]);
    LetterRun(w, y, z);
    assert RunsFrom(w, y) == [w[y..z], w[z..]];
    assert !IsDigit(w[y]);
    DigitRun(w, x, y);
    assert RunsFrom(w, x) == [w[x..y], w[y..z], w[z..]];
    assert !IsLetter(w[x]);
    LetterRun(w, 0, x);
    assert w[0..x] == w[..x];
  }

  lemma Abc123Def456Classes()
    ensures forall j :: 0 <= j < 3 ==> IsLetter("abc123def456"[j])
    ensures forall j :: 3 <= j < 6 ==> IsDigit("abc123def456"[j])
    ensures forall j :: 6 <= j < 9 ==> IsLetter("abc123def456"[j])
    ensures forall j :: 9 <= j < 12 ==> IsDigit("abc123def456"[j])
  {
  }

  lemma Abc123Def456Slices()
    ensures "abc123def456"[..3] == "abc" && "abc123def456"[3..6] == "123"
    ensures "abc123def456"[6..9] == "def" && "abc123def456"[9..] == "456"
  {
  }

  lemma Abc123Def456Runs()
    ensures Runs("abc123def456") == ["abc", "123", "def", "456"]
  {
    Abc123Def456Classes();
    Abc123Def456Slices();
    AlternatingRuns("abc123def456", 3, 6, 9);
  }

  lemma Abc123Def456Refine()
    ensures Refine("abc123def456") == ["abc", "123", "def", "456"]
  {
    var t := "abc123def456";
    assert RunEnd(Letter, t, 0) == 3;
    assert !IsDigit(t[6]) && !IsLetter(t[3]);
    assert !LettersThenDigits(t) && !DigitsOnly(t) && !LettersOnly(t);
    Abc123Def456Runs();
  }

  /** `abc123def456` gives `abc`, `123`, `def`, `456`. */
  lemma Abc123Def456()
    ensures Words("abc123def456") == ["abc", "123", "def", "456"]
  {
    SinglePart("abc123def456", "abc123def456");
    Abc123Def456Refine();
  }

}
