# case-convert in Dafny

A model of the case-convert library: the word segmenter `splitWords`, the
word helpers `capitalize` and `lowerFirst` (src/utils.ts), and the five
converters `toCamelCase`, `toPascalCase`, `toSnakeCase`, `toKebabCase` and
`toConstantCase` (src/index.ts).

The project has seven modules:

- `Text` (text.dfy): ASCII character classes, ASCII case mapping, and
  runs of a class. It also holds concatenation and `join`.
- `Segmenter` (segmenter.dfy): `splitWords`. Each stage has a
  specification function: `Tokens` for stages 1–2, `CaseParts` and
  `StageThree` for stage 3, `Refine` and `StageFour` for stage 4, and
  `Words` for the whole segmenter. Where the source works step by step,
  a method is proved equal to that function:
  - `SplitOnDelimiters` is the delimiter scan.
  - `CutCaseBoundaries` is a single left-to-right scan. It replaces the
    two regular-expression passes of line 23 and line 24.
  - `CaseTokens` and `RefineWords` are the two accumulating loops.
  - `SplitWords` chains these three.
- `SegmenterProps` (segmenter_props.dfy): what `splitWords` guarantees
  for every input.
- `WordCase` (word_case.dfy): `capitalize` and `lowerFirst`.
- `CaseConvert` (formatters.dfy): the five converters and the relations
  between their outputs.
- `Scenarios` (scenarios.dfy): inputs of the library's test table,
  worked through the model, with the generic steps they share.
- `TestTable` (table.dfy): the remaining rows of the test table, from the
  converter table (tests/index.test.ts:5-68) and the `splitWords` tests
  (tests/index.test.ts:154-187).

The regular expressions are modelled by their effect on character
classes:

- Stages 1 and 2 (src/utils.ts:10-16) leave the maximal runs of ASCII
  letters and digits. Every other character is a delimiter.
- Pass one of stage 3 (line 23) leaves segments that are a run of
  capitals followed by a run of `[a-z0-9]`.
- Pass two (line 24) splits such a segment when it has at least two
  capitals and a non-empty tail. The last capital goes with the tail.

The single scan cuts at `IsCaseBoundary`. `ScanIsTwoPass` proves that it
cuts where the two passes do.

Where the library's description and its code differ, the model follows
the code. The comment at src/utils.ts:27, the test title at
tests/index.test.ts:176, and the library's description all say that a
single-character word keeps its case. In the code this holds for a
single-character part of stage 3. It does not hold for a one-character
word that stage 4 cuts out of a longer part. That part is lowercased
whole first. `"A1b"` gives `["a", "1", "b"]`, not `["A", "1", "b"]`
(`Scenarios.SingleCapitalInMixedToken`).

## Model

| member | source | states |
|---|---|---|
| Segmenter.TokensFrom | src/utils.ts:10-16 | every token that stages 1–2 produce is non-empty and made only of ASCII letters and digits |
| Segmenter.SplitOnDelimiters | src/utils.ts:10-16 | the delimiter scan returns exactly `Tokens(s)`, the maximal letter-and-digit runs of the input in order |
| Segmenter.PartsCover | src/utils.ts:22-25 | the parts a token is cut into are non-empty, and run together they give back the token |
| Segmenter.FirstCasePart | src/utils.ts:23-24 | the two passes cut a part at the first position where a `[a-z0-9]` is followed by a capital, or a capital is followed by a capital and then `[a-z0-9]` |
| Segmenter.ScanIsTwoPass | src/utils.ts:22-25 | the single scan produces the same parts as the two regular-expression passes |
| Segmenter.CutCaseBoundaries | src/utils.ts:22-25 | the scan method returns exactly the parts of the two-pass specification |
| Segmenter.CaseTokens | src/utils.ts:19-34 | the stage-3 loop leaves in `result` the parts of every token in order, each part longer than one character lowercased |
| Segmenter.RunsFrom | src/utils.ts:46-47 | the matches of the letters-or-digits pattern of line 46 are each letters only or digits only |
| Segmenter.RefineWords | src/utils.ts:37-49 | the stage-4 loop keeps letters, digits, and letters-then-digits words whole, and replaces any other word by its letter and digit runs |
| Segmenter.SplitWords | src/utils.ts:7-52 | `splitWords` returns exactly `Words(input)`, the composition of the four stage specifications |
| SegmenterProps.WordsSpell | src/utils.ts:10-47 | the words run together equal, up to case, the ASCII letters and digits of the input in their order; nothing is dropped, reordered or invented |
| SegmenterProps.WordsEmpty | src/utils.ts:10-16 | there are no words if and only if the input has no ASCII letter or digit |
| SegmenterProps.WordsShape | src/utils.ts:40-47 | every word is non-empty and is letters only, digits only, or letters followed by digits; no letter follows a digit inside a word |
| SegmenterProps.StageFourIdempotent | src/utils.ts:37-49 | running stage 4 on its own output changes nothing |
| SegmenterProps.WordsLower | src/utils.ts:28-32 | every word longer than one character has no capital |
| SegmenterProps.DelimiterSplits | src/utils.ts:10-16 | the words of `a`, a delimiter, then `b` are the words of `a` followed by the words of `b` |
| SegmenterProps.DelimitersBefore | src/utils.ts:10-16 | delimiters in front of `b` add no word: the words of `g + b` are the words of `b` (the trim on line 13) |
| SegmenterProps.DelimitersAfter | src/utils.ts:10-16 | delimiters after `a` add no word: the words of `a + g` are the words of `a` |
| SegmenterProps.DelimitersBetween | src/utils.ts:10-16 | any non-empty stretch of delimiters between `a` and `b` separates them exactly like one delimiter (the `+` of lines 11-12) |
| WordCase.Capitalize | src/utils.ts:59-61 | same length; the first character is uppercased and every later character is lowercased; "" gives "" |
| WordCase.CapitalizeIdempotent | src/utils.ts:59-61 | capitalizing twice is capitalizing once |
| WordCase.LowerCapitalize | src/utils.ts:59-61 | lowercasing a capitalized word is lowercasing the word |
| WordCase.LowerFirst | src/utils.ts:68-70 | same length; the first character is lowercased and every later character is unchanged; "" gives "" |
| WordCase.LowerFirstIdempotent | src/utils.ts:68-70 | lowering the first character twice is lowering it once |
| WordCase.LowerFirstCapitalize | src/utils.ts:59-70 | on a word with no capital after its first character, `lowerFirst(capitalize(w))` is `lowerFirst(w)` |
| CaseConvert.CamelCase | src/index.ts:11-17 | the result is "" exactly when the input has no ASCII letter or digit; the early return on "" (line 13) agrees with the general path |
| CaseConvert.PascalCase | src/index.ts:26-32 | the result is "" exactly when the input has no ASCII letter or digit; the early return on "" (line 28) agrees with the general path |
| CaseConvert.SnakeCase | src/index.ts:41-47 | the result is "" exactly when the input has no ASCII letter or digit; the early return on "" (line 43) agrees with the general path |
| CaseConvert.KebabCase | src/index.ts:56-62 | the result is "" exactly when the input has no ASCII letter or digit; the early return on "" (line 58) agrees with the general path |
| CaseConvert.ConstantCase | src/index.ts:71-77 | the result is "" exactly when the input has no ASCII letter or digit; the early return on "" (line 73) agrees with the general path |
| CaseConvert.SnakeShape | src/index.ts:41-61 | snake_case output uses only `[a-z0-9_]`, never starts or ends with `_`, has no `__`, and has one `_` fewer than there are words; kebab-case output is the same with `-` |
| CaseConvert.KebabIsSnake | src/index.ts:44-61 | kebab-case output is snake_case output with every `_` replaced by `-` |
| CaseConvert.ConstantIsUpperSnake | src/index.ts:44-76 | CONSTANT_CASE output is snake_case output uppercased |
| CaseConvert.CamelIsLowerFirstPascal | src/index.ts:14-31 | camelCase output is PascalCase output with only its first character lowercased |
| CaseConvert.PascalIsSnakeJoined | src/index.ts:29-46 | PascalCase output lowercased is snake_case output with its underscores removed |
| Scenarios.HtmlParser | tests/index.test.ts:162 | `HTMLParser` gives `html`, `parser` |
| Scenarios.ApiResponse | tests/index.test.ts:163 | `APIResponse` gives `api`, `response` |
| Scenarios.XmlHttpRequest | tests/index.test.ts:13-20 | `XMLHttpRequest` gives `xml`, `http`, `request` |
| Scenarios.MyNasaProject | tests/index.test.ts:21-28 | `myNASAProject` gives `my`, `nasa`, `project` |
| Scenarios.Item007 | tests/index.test.ts:165 | `item007` gives one word, `item007` |
| Scenarios.VersionNumbers | tests/index.test.ts:164 | `version1_2_3` gives `version1`, `2`, `3` |
| Scenarios.Foo123Bar | tests/index.test.ts:186 | `foo123bar` gives `foo`, `123`, `bar` |
| Scenarios.SingleCharacter | src/utils.ts:28-32 | any single letter or digit on its own is one word in its own case |
| Scenarios.SpacedCapitals | tests/index.test.ts:177 | `A B C` gives `A`, `B`, `C` |
| Scenarios.SingleCapitalInMixedToken | src/utils.ts:27-47 | `A1b` gives `a`, `1`, `b`: the capital does not keep its case |
| Scenarios.XmlHttpRequestOutputs | tests/index.test.ts:13-20 | the five converters give `xmlHttpRequest`, `XmlHttpRequest`, `xml_http_request`, `xml-http-request`, `XML_HTTP_REQUEST` |
| Scenarios.MyNasaProjectOutputs | tests/index.test.ts:21-28 | the five converters give `myNasaProject`, `MyNasaProject`, `my_nasa_project`, `my-nasa-project`, `MY_NASA_PROJECT` |
| Scenarios.VersionNumbersOutputs | tests/index.test.ts:39 | the five converters give `version123`, `Version123`, `version1_2_3`, `version1-2-3`, `VERSION1_2_3` |
| Scenarios.CapitalizeExamples | tests/index.test.ts:192-196 | `capitalize` of `foo`, `FOO`, `fOO`, `f`, "" is `Foo`, `Foo`, `Foo`, `F`, "" |
| Scenarios.LowerFirstExamples | tests/index.test.ts:201-204 | `lowerFirst` of `Foo`, `FOO`, `F`, "" is `foo`, `fOO`, `f`, "" |
| TestTable.HelloWorldOutputs | src/index.ts:4-77 | any input whose words are `hello`, `world` gives `helloWorld`, `HelloWorld`, `hello_world`, `hello-world`, `HELLO_WORLD`, the examples of the doc comments (lines 6, 21, 36, 51, 66) |
| TestTable.HelloWorldRows | tests/index.test.ts:7-9 | `hello world`, `HelloWorld` and `helloWorld` each give `helloWorld`, `HelloWorld`, `hello_world`, `hello-world`, `HELLO_WORLD` |
| TestTable.HelloWorldDelimitedRows | tests/index.test.ts:10-12 | `hello_world`, `hello-world` and `HELLO_WORLD` each give the same five outputs |
| TestTable.HelloWorldPaddedRows | tests/index.test.ts:41-42 | `  hello   world  ` and `--hello__world--` each give the same five outputs: leading, trailing and repeated delimiters add nothing |
| TestTable.HtmlParserOutputs | tests/index.test.ts:29 | `HTMLParser` gives `htmlParser`, `HtmlParser`, `html_parser`, `html-parser`, `HTML_PARSER` |
| TestTable.ParseJsonData | tests/index.test.ts:31 | `parseJSONData` gives the words `parse`, `json`, `data` |
| TestTable.ParseJsonDataOutputs | tests/index.test.ts:30-37 | `parseJSONData` gives `parseJsonData`, `ParseJsonData`, `parse_json_data`, `parse-json-data`, `PARSE_JSON_DATA` |
| TestTable.ApiResponseOutputs | tests/index.test.ts:38 | `APIResponse` gives `apiResponse`, `ApiResponse`, `api_response`, `api-response`, `API_RESPONSE` |
| TestTable.Item007Outputs | tests/index.test.ts:40 | `item007` gives `item007`, `Item007`, `item007`, `item007`, `ITEM007` |
| TestTable.HelloWorldFoo | tests/index.test.ts:44 | `hello--world__foo` gives the words `hello`, `world`, `foo` |
| TestTable.HelloWorldFooOutputs | tests/index.test.ts:43-50 | `hello--world__foo` gives `helloWorldFoo`, `HelloWorldFoo`, `hello_world_foo`, `hello-world-foo`, `HELLO_WORLD_FOO` |
| TestTable.FooBarBazQux | tests/index.test.ts:159 | `foo_bar-baz qux` gives the words `foo`, `bar`, `baz`, `qux` |
| TestTable.FooBarBazQuxOutputs | tests/index.test.ts:51-58 | `foo_bar-baz qux` gives `fooBarBazQux`, `FooBarBazQux`, `foo_bar_baz_qux`, `foo-bar-baz-qux`, `FOO_BAR_BAZ_QUX` |
| TestTable.FooBarBazPunctuated | tests/index.test.ts:59 | `foo@bar#baz!` gives the words `foo`, `bar`, `baz`: punctuation is a delimiter |
| TestTable.FooBarBazPunctuatedOutputs | tests/index.test.ts:59 | `foo@bar#baz!` gives `fooBarBaz`, `FooBarBaz`, `foo_bar_baz`, `foo-bar-baz`, `FOO_BAR_BAZ` |
| TestTable.EmptyRow | tests/index.test.ts:60 | "" gives "" from all five converters |
| TestTable.DelimiterRows | tests/index.test.ts:61-63 | `_`, `-` and ` ` give "" from all five converters |
| TestTable.RepeatedDelimiterRows | tests/index.test.ts:64-66 | `___`, `---` and three spaces give "" from all five converters |
| TestTable.FooOutputs | tests/index.test.ts:67 | `foo` gives `foo`, `Foo`, `foo`, `foo`, `FOO` |
| TestTable.FooBarBaz | tests/index.test.ts:155-156 | `fooBarBaz` and `FooBarBaz` both give `foo`, `bar`, `baz` |
| TestTable.OnlyDelimiters | tests/index.test.ts:169-170 | `___` and three spaces give no words |
| TestTable.SingleCapital | tests/index.test.ts:178 | `X` gives the one word `X`, in its own case |
| TestTable.SpacedLetters | tests/index.test.ts:179 | `a b c` gives `a`, `b`, `c` |
| TestTable.ShoutedWord | tests/index.test.ts:182 | `FOO` gives the one word `foo` |
| TestTable.BarBaz | tests/index.test.ts:183 | `BarBaz` gives `bar`, `baz` |
| TestTable.AlternatingRuns | src/utils.ts:46-47 | a word made of letters, digits, letters, digits is replaced by those four runs, in order |
| TestTable.Abc123Def456 | tests/index.test.ts:187 | `abc123def456` gives `abc`, `123`, `def`, `456` |

## Left out

- The `typeof input !== 'string'` checks and their `TypeError` (src/utils.ts:8, src/index.ts:12, 27, 42, 57, 72). A Dafny `string` parameter is always a string, so these checks cannot fail.
- The regular-expression engine and the Unicode reach of `\s`. Any character that is not an ASCII letter or digit is a delimiter in stage 1, so the passes are modelled by their effect on ASCII character classes.
- Unicode case mapping. `toLowerCase` and `toUpperCase` are modelled on ASCII letters only. Other characters are left unchanged.
- WordCase.Capitalize: gives no Unicode case mapping for non-ASCII characters (for example, `'ß'.toUpperCase()` is two characters in JavaScript). The converters never pass such characters to it, because `splitWords` discards them.
- WordCase.LowerFirst: gives no Unicode case mapping for non-ASCII characters, for the same reason.
- Strings are sequences of characters. The UTF-16 code units of JavaScript strings are not modelled. This matters only for characters that the segmenter discards.
- The `CaseType` re-export (src/index.ts:2, 79). src/types.ts is not part of this model. It holds types only.
- vitest.config.ts, .eslintrc.cjs and the test suite itself. Only the expected values of tests/index.test.ts are used, as concrete lemmas.
- The `TypeError` tests (tests/index.test.ts:77-84, 92-99, 107-114, 122-129, 137-144 and 172-175) have no counterpart, for the reason above. Every other expected value of tests/index.test.ts:5-68 and :154-187 is worked through concretely. `splitWords('')` (tests/index.test.ts:168) is the empty case of `SegmenterProps.WordsEmpty`.
