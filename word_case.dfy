/** `capitalize` and `lowerFirst` of src/utils.ts: case changes on one
    word, ASCII only. */
module WordCase {
  import opened Text

  /** `word.charAt(0)`: the first character, or the empty string for the
      empty word. */
  function CharAt0(word: string): string
  {
    if |word| == 0 then "" else word[..1]
  }

  /** `word.slice(1)`: everything after the first character. */
  function Slice1(word: string): string
  {
    if |word| == 0 then "" else word[1..]
  }

  /** `capitalize`: the first character uppercased, the rest lowercased. */
  function Capitalize(word: string): (r: string)
    ensures |r| == |word|
    ensures |word| > 0 ==> r[0] == UpperChar(word[0])
    ensures forall i :: 1 <= i < |word| ==> r[i] == LowerChar(word[i])
  {
    ToUpper(CharAt0(word)) + ToLower(Slice1(word))
  }

  /** `lowerFirst`: the first character lowercased, the rest unchanged. */
  function LowerFirst(word: string): (r: string)
    ensures |r| == |word|
    ensures |word| > 0 ==> r[0] == LowerChar(word[0])
    ensures forall i :: 1 <= i < |word| ==> r[i] == word[i]
  {
    ToLower(CharAt0(word)) + Slice1(word)
  }

  lemma UpperIdempotent(c: char)
    ensures UpperChar(UpperChar(c)) == UpperChar(c)
    ensures LowerChar(LowerChar(c)) == LowerChar(c)
  {
  }

  /** Capitalizing a capitalized word changes nothing. */
  lemma CapitalizeIdempotent(word: string)
    ensures Capitalize(Capitalize(word)) == Capitalize(word)
  {
    var c := Capitalize(word);
    var cc := Capitalize(c);
    forall i | 0 <= i < |word| ensures cc[i] == c[i] {
      UpperIdempotent(word[i]);
    }
  }

  /** Lowering the first character twice is lowering it once. */
  lemma LowerFirstIdempotent(word: string)
    ensures LowerFirst(LowerFirst(word)) == LowerFirst(word)
  {
    var l := LowerFirst(word);
    var ll := LowerFirst(l);
    forall i | 0 <= i < |word| ensures ll[i] == l[i] {
      UpperIdempotent(word[i]);
    }
  }

  /** `lowerFirst` after `capitalize` is `lowerFirst` alone when the word
      has no capital after its first character. */
  lemma LowerFirstCapitalize(word: string)
    requires forall i :: 1 <= i < |word| ==> !IsUpper(word[i])
    ensures LowerFirst(Capitalize(word)) == LowerFirst(word)
  {
    var a := LowerFirst(Capitalize(word));
    var b := LowerFirst(word);
    forall i | 0 <= i < |word| ensures a[i] == b[i] {
      CaseRoundTrips(word[i]);
    }
  }

  /** Lowercasing a capitalized word is lowercasing the word. */
  lemma LowerCapitalize(word: string)
    ensures ToLower(Capitalize(word)) == ToLower(word)
  {
    var a := ToLower(Capitalize(word));
    var b := ToLower(word);
    forall i | 0 <= i < |word| ensures a[i] == b[i] {
      CaseRoundTrips(word[i]);
      UpperIdempotent(word[i]);
    }
  }

  /** `lowerFirst` only touches the first character of a concatenation. */
  lemma LowerFirstAppend(a: string, b: string)
    requires |a| > 0
    ensures LowerFirst(a + b) == LowerFirst(a) + b
  {
    var l := LowerFirst(a + b);
    var r := LowerFirst(a) + b;
    forall i | 0 <= i < |a + b| ensures l[i] == r[i] {
      if i >= |a| {
        assert r[i] == b[i - |a|];
      }
    }
  }
}
