/** ASCII character classes, ASCII case mapping and the few string
    operations (map over characters, concatenation, join) that the
    converter is built from. */
module Text {

  /** The four classes the segmenter sorts characters into. */
  datatype Kind = UpperCase | LowerCase | DecimalDigit | Other

  function KindOf(c: char): Kind
  {
    if 'A' <= c <= 'Z' then UpperCase
    else if 'a' <= c <= 'z' then LowerCase
    else if '0' <= c <= '9' then DecimalDigit
    else Other
  }

  predicate IsUpper(c: char) { KindOf(c) == UpperCase }
  predicate IsLower(c: char) { KindOf(c) == LowerCase }
  predicate IsDigit(c: char) { KindOf(c) == DecimalDigit }
  predicate IsLetter(c: char) { IsUpper(c) || IsLower(c) }
  predicate IsAlnum(c: char) { KindOf(c) != Other }
  /** The class `[a-z0-9]`: what may follow the capitals of a word. */
  predicate IsTail(c: char) { IsLower(c) || IsDigit(c) }

  /** `toLowerCase` on one ASCII character. */
  function LowerChar(c: char): (r: char)
    ensures !IsUpper(r)
    ensures IsLetter(r) <==> IsLetter(c)
    ensures IsDigit(r) <==> IsDigit(c)
  {
    if IsUpper(c) then (c as int + 32) as char else c
  }

  /** `toUpperCase` on one ASCII character. */
  function UpperChar(c: char): (r: char)
    ensures !IsLower(r)
    ensures IsLetter(r) <==> IsLetter(c)
    ensures IsDigit(r) <==> IsDigit(c)
  {
    if IsLower(c) then (c as int - 32) as char else c
  }

  lemma CaseRoundTrips(c: char)
    ensures LowerChar(UpperChar(c)) == LowerChar(c)
    ensures UpperChar(LowerChar(c)) == UpperChar(c)
  {
  }

  /** The character classes the segmenter scans for. */
  datatype Class = Upper | Tail | Letter | Digit | Alnum

  predicate InClass(c: char, k: Class)
  {
    match k
    case Upper => IsUpper(c)
    case Tail => IsTail(c)
    case Letter => IsLetter(c)
    case Digit => IsDigit(c)
    case Alnum => IsAlnum(c)
  }

  /** The end of the run of class `k` that starts at position `i` of `s`:
      the first position from `i` on that holds a character outside `k`,
      or the end of `s`. */
  function RunEnd(k: Class, s: string, i: nat): (e: nat)
    requires i <= |s|
    ensures i <= e <= |s|
    ensures forall j :: i <= j < e ==> InClass(s[j], k)
    ensures e < |s| ==> !InClass(s[e], k)
    decreases |s| - i
  {
    if i < |s| && InClass(s[i], k) then RunEnd(k, s, i + 1) else i
  }

  /** A run that cannot be extended is the run `RunEnd` finds. */
  lemma RunEndIs(k: Class, s: string, i: nat, e: nat)
    requires i <= e <= |s|
    requires forall j :: i <= j < e ==> InClass(s[j], k)
    requires e < |s| ==> !InClass(s[e], k)
    ensures RunEnd(k, s, i) == e
  {
  }

  function MapChars(f: char -> char, s: string): string
  {
    seq(|s|, i requires 0 <= i < |s| => f(s[i]))
  }

  /** `String.prototype.toLowerCase`, restricted to ASCII. */
  function ToLower(s: string): string { MapChars(LowerChar, s) }

  /** `String.prototype.toUpperCase`, restricted to ASCII. */
  function ToUpper(s: string): string { MapChars(UpperChar, s) }

  predicate AllAlnum(s: string) { forall i :: 0 <= i < |s| ==> IsAlnum(s[i]) }

  /** No capital letter anywhere: what "entirely lowercase" means for a
      string that may hold digits. */
  predicate NoUpper(s: string) { forall i :: 0 <= i < |s| ==> !IsUpper(s[i]) }

  lemma MapCharsAppend(f: char -> char, a: string, b: string)
    ensures MapChars(f, a + b) == MapChars(f, a) + MapChars(f, b)
  {
  }

  lemma AppendAssoc<T>(a: seq<T>, b: seq<T>, c: seq<T>)
    ensures (a + b) + c == a + (b + c)
  {
  }

  lemma SliceShift<T>(p: seq<T>, b: seq<T>, x: nat, y: nat)
    requires x <= y <= |b|
    ensures (p + b)[|p| + x..|p| + y] == b[x..y]
  {
  }

  /** The words of `ws` run together, with nothing between them. */
  function Concat(ws: seq<string>): string
    decreases |ws|
  {
    if |ws| == 0 then "" else ws[0] + Concat(ws[1..])
  }

  lemma {:induction false} ConcatAppend(a: seq<string>, b: seq<string>)
    ensures Concat(a + b) == Concat(a) + Concat(b)
    decreases |a|
  {
    if |a| > 0 {
      assert (a + b)[1..] == a[1..] + b;
      ConcatAppend(a[1..], b);
    } else {
      assert a + b == b;
    }
  }

  /** Every word of a run-together sequence of words is made of characters
      of the whole. */
  lemma {:induction false} ConcatAlnum(ws: seq<string>)
    requires AllAlnum(Concat(ws))
    ensures forall i :: 0 <= i < |ws| ==> AllAlnum(ws[i])
    decreases |ws|
  {
    if |ws| > 0 {
      assert AllAlnum(ws[0]) by {
        forall j | 0 <= j < |ws[0]| ensures IsAlnum(ws[0][j]) {
          assert Concat(ws)[j] == ws[0][j];
        }
      }
      assert AllAlnum(Concat(ws[1..])) by {
        forall j | 0 <= j < |Concat(ws[1..])| ensures IsAlnum(Concat(ws[1..])[j]) {
          assert Concat(ws)[|ws[0]| + j] == Concat(ws[1..])[j];
        }
      }
      ConcatAlnum(ws[1..]);
      forall i | 0 <= i < |ws| ensures AllAlnum(ws[i]) {
        if i > 0 {
          assert ws[i] == ws[1..][i - 1];
        }
      }
    }
  }

  /** Running words together is joining them with the empty separator. */
  lemma {:induction false} ConcatIsJoin(ws: seq<string>)
    ensures Concat(ws) == Join(ws, "")
    decreases |ws|
  {
    if |ws| > 1 {
      ConcatIsJoin(ws[1..]);
      assert ws[0] + "" == ws[0];
    } else if |ws| == 1 {
      assert Concat(ws) == ws[0] + Concat([]);
    }
  }

  /** `words.map(f)`. */
  function MapWords(f: string -> string, ws: seq<string>): seq<string>
  {
    seq(|ws|, i requires 0 <= i < |ws| => f(ws[i]))
  }

  /** `Array.prototype.join(sep)` on strings. */
  function Join(ws: seq<string>, sep: string): string
    decreases |ws|
  {
    if |ws| == 0 then ""
    else if |ws| == 1 then ws[0]
    else ws[0] + sep + Join(ws[1..], sep)
  }

  /** Mapping the characters of a joined string is joining the mapped
      words with the mapped separator. */
  lemma {:induction false} MapCharsJoin(f: char -> char, ws: seq<string>, vs: seq<string>, sep: string)
    requires |vs| == |ws|
    requires forall i :: 0 <= i < |ws| ==> vs[i] == MapChars(f, ws[i])
    ensures MapChars(f, Join(ws, sep)) == Join(vs, MapChars(f, sep))
    decreases |ws|
  {
    if |ws| > 1 {
      MapCharsJoin(f, ws[1..], vs[1..], sep);
      MapCharsAppend(f, ws[0] + sep, Join(ws[1..], sep));
      MapCharsAppend(f, ws[0], sep);
    }
  }
}
