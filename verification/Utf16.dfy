/**
 UTF-16 text as the document stores it. Strings of the service are sequences of
 Unicode scalar values (`char`); the document counts 16-bit code units.
 */
module Utf16 {
  type CodeUnit = u: int | 0 <= u < 0x1_0000

  predicate Supplementary(c: char) {
    c as int >= 0x1_0000
  }

  /** No character of the string needs a surrogate pair. */
  predicate Basic(s: string) {
    forall i | 0 <= i < |s| :: !Supplementary(s[i])
  }

  function HighSurrogate(v: int): CodeUnit
    requires 0x1_0000 <= v < 0x11_0000
  {
    0xD800 + (v - 0x1_0000) / 0x400
  }

  function LowSurrogate(v: int): CodeUnit
    requires 0x1_0000 <= v < 0x11_0000
  {
    0xDC00 + (v - 0x1_0000) % 0x400
  }

  function EncodeChar(c: char): (units: seq<CodeUnit>)
    ensures |units| == if Supplementary(c) then 2 else 1
  {
    if Supplementary(c) then [HighSurrogate(c as int), LowSurrogate(c as int)] else [c as int]
  }

  function Encode(s: string): (units: seq<CodeUnit>)
    ensures |s| <= |units|
  {
    if s == [] then [] else EncodeChar(s[0]) + Encode(s[1..])
  }

  /** The code-point count equals the code-unit count for basic strings only. */
  lemma {:induction false} LengthAgreesIffBasic(s: string)
    ensures |Encode(s)| == |s| <==> Basic(s)
  {
    if s != [] {
      LengthAgreesIffBasic(s[1..]);
      assert forall i | 0 < i < |s| :: s[i] == s[1..][i - 1];
      assert Basic(s) <==> !Supplementary(s[0]) && Basic(s[1..]);
    }
  }

  lemma EncodeCons(c: char, s: string)
    ensures Encode([c] + s) == EncodeChar(c) + Encode(s)
  {
    assert ([c] + s)[0] == c && ([c] + s)[1..] == s;
  }

  lemma Associate<T>(a: seq<T>, b: seq<T>, c: seq<T>)
    ensures a + b + c == a + (b + c)
  {
  }

  lemma {:induction false} EncodeAppend(s: string, t: string)
    ensures Encode(s + t) == Encode(s) + Encode(t)
  {
    if s == [] {
      assert s + t == t;
    } else {
      var c, tail := s[0], s[1..];
      assert Encode(s) == EncodeChar(c) + Encode(tail);
      assert Encode(s + t) == EncodeChar(c) + (Encode(tail) + Encode(t)) by {
        assert s + t == [c] + (tail + t);
        EncodeCons(c, tail + t);
        EncodeAppend(tail, t);
      }
      Associate(EncodeChar(c), Encode(tail), Encode(t));
    }
  }

  /** The two halves of a surrogate pair are told apart by their ranges, and together give the character back. */
  lemma SurrogatePair(c: char)
    requires Supplementary(c)
    ensures var units := EncodeChar(c);
            && |units| == 2 && 0xD800 <= units[0] < 0xDC00 && 0xDC00 <= units[1] < 0xE000
            && c as int == 0x1_0000 + (units[0] as int - 0xD800) * 0x400 + (units[1] as int - 0xDC00)
  {
  }

  /** The first code unit tells how long the first character is, and both together what it is. */
  lemma FirstCharacter(c: char, d: char, x: seq<CodeUnit>, y: seq<CodeUnit>)
    requires EncodeChar(c) + x == EncodeChar(d) + y
    ensures c == d && x == y
  {
    var units := EncodeChar(c) + x;
    assert units[0] == EncodeChar(c)[0] == EncodeChar(d)[0];
    if Supplementary(c) {
      assert units[1] == EncodeChar(c)[1];
      if Supplementary(d) {
        assert units[1] == EncodeChar(d)[1];
      }
    }
    assert c == d;
    assert x == units[|EncodeChar(c)|..] == y;
  }

  /** Different strings have different code units. */
  lemma {:induction false} EncodeInjective(s: string, t: string)
    ensures Encode(s) == Encode(t) <==> s == t
  {
    if s != [] && t != [] && Encode(s) == Encode(t) {
      FirstCharacter(s[0], t[0], Encode(s[1..]), Encode(t[1..]));
      EncodeInjective(s[1..], t[1..]);
      assert s == [s[0]] + s[1..] && t == [t[0]] + t[1..];
    }
  }
}
