/**
 JSON text can be read back: no two values have the same text, even when more text follows.
 So whatever reads a call or a reply correctly finds exactly what was written.
 */
module JsonReading {
  import opened Wrappers
  import opened Json

  type Bytes = seq<Byte>

  /** A value ends where the text does, at a comma or at a closing bracket. */
  predicate Ends(x: Bytes) {
    x == [] || x[0] == ',' as int || x[0] == ']' as int || x[0] == '}' as int
  }

  predicate IsDigit(b: Byte) {
    '0' as int <= b <= '9' as int
  }

  /** A number ends before anything but a digit. */
  predicate NoDigit(x: Bytes) {
    x == [] || !IsDigit(x[0])
  }

  // ----- Characters and strings -----

  /** The value of a UTF-8 sequence, from the bits of its bytes. */
  function Decoded(bytes: seq<Byte>): int
    requires bytes != []
  {
    var b: int := bytes[0];
    if b < 0x80 || |bytes| == 1 then b
    else if b < 0xE0 || |bytes| == 2 then (b - 0xC0) * 0x40 + Low(bytes[1])
    else if b < 0xF0 || |bytes| == 3 then (b - 0xE0) * 0x1000 + Low(bytes[1]) * 0x40 + Low(bytes[2])
    else (b - 0xF0) * 0x4_0000 + Low(bytes[1]) * 0x1000 + Low(bytes[2]) * 0x40 + Low(bytes[3])
  }

  function Low(b: Byte): int {
    b as int - 0x80
  }

  lemma Sextets(v: nat)
    ensures v == v / 0x40 * 0x40 + v % 0x40
    ensures v / 0x40 == v / 0x1000 * 0x40 + v / 0x40 % 0x40
    ensures v / 0x1000 == v / 0x4_0000 * 0x40 + v / 0x1000 % 0x40
  {
    var q, r := v / 0x40, v / 0x1000;
    assert q / 0x40 == r && r / 0x40 == v / 0x4_0000;
  }

  /** UTF-8 can be decoded, and the first byte tells the length. */
  lemma Utf8Decodes(c: char)
    ensures var u := Utf8(c);
            && u != [] && Decoded(u) == c as int
            && |u| == if u[0] < 0x80 then 1 else if u[0] < 0xE0 then 2 else if u[0] < 0xF0 then 3 else 4
  {
    var v, u := c as int, Utf8(c);
    Sextets(v);
    if 0x800 <= v < 0x1_0000 {
      assert u[0] < 0xF0 && |u| == 3;
      assert Decoded(u) == v / 0x1000 * 0x1000 + v / 0x40 % 0x40 * 0x40 + v % 0x40;
    } else if v >= 0x1_0000 {
      assert u[0] >= 0xF0 && |u| == 4;
      assert Decoded(u) == v / 0x4_0000 * 0x4_0000 + v / 0x1000 % 0x40 * 0x1000 + v / 0x40 % 0x40 * 0x40 + v % 0x40;
    }
  }

  lemma EscapedStarts(c: char)
    ensures EscapedChar(c) != [] && EscapedChar(c)[0] != '\"' as int
    ensures EscapedChar(c)[0] == '\\' as int <==> c as int < 0x20 || c == '\"' || c == '\\'
  {
  }

  /** What a backslash and the bytes behind it stand for. */
  function Unescaped(bytes: seq<Byte>): int
    requires |bytes| >= 2
  {
    var b := bytes[1];
    if b == '\"' as int || b == '\\' as int then b
    else if b == 'b' as int then 0x08
    else if b == 't' as int then 0x09
    else if b == 'n' as int then 0x0A
    else if b == 'f' as int then 0x0C
    else if b == 'r' as int then 0x0D
    else if |bytes| == 6 then HexValue(bytes[4]) * 16 + HexValue(bytes[5])
    else b
  }

  function HexValue(b: Byte): int {
    if b < 'a' as int then b - '0' as int else b - 'a' as int + 10
  }

  lemma EscapeUnescapes(c: char)
    requires c as int < 0x20 || c == '\"' || c == '\\'
    ensures var e := EscapedChar(c);
            && |e| == (if e[1] == 'u' as int then 6 else 2) && Unescaped(e) == c as int
  {
  }

  lemma SamePlace(a: seq<Byte>, x: seq<Byte>, b: seq<Byte>, y: seq<Byte>)
    requires a + x == b + y && |a| == |b|
    ensures a == b && x == y
  {
    assert a == (a + x)[..|a|] && b == (b + y)[..|b|];
    assert x == (a + x)[|a|..] && y == (b + y)[|b|..];
  }

  /** No two characters begin the same text. */
  lemma CharReadBack(c: char, x: seq<Byte>, d: char, y: seq<Byte>)
    requires EscapedChar(c) + x == EscapedChar(d) + y
    ensures c == d && x == y
  {
    EscapedStarts(c);
    EscapedStarts(d);
    var a, b := EscapedChar(c), EscapedChar(d);
    assert (a + x)[0] == a[0] && (b + y)[0] == b[0];
    if a[0] == '\\' as int {
      EscapeUnescapes(c);
      EscapeUnescapes(d);
      assert (a + x)[1] == a[1] && (b + y)[1] == b[1];
    } else {
      Utf8Decodes(c);
      Utf8Decodes(d);
    }
    SamePlace(a, x, b, y);
  }

  const QUOTE: Byte := 0x22

  lemma EscapedCons(s: string, u: seq<Byte>)
    requires s != ""
    ensures Escaped(s) + u == EscapedChar(s[0]) + (Escaped(s[1..]) + u)
    ensures Escaped(s) + u != [] && (Escaped(s) + u)[0] != QUOTE
  {
    EscapedStarts(s[0]);
  }

  /** A string ends at its closing quote and nowhere before. */
  lemma {:induction false} StringReadBack(s: string, u: seq<Byte>, t: string, v: seq<Byte>)
    requires Escaped(s) + u == Escaped(t) + v && u != [] && v != [] && u[0] == v[0] == QUOTE
    ensures s == t && u == v
  {
    assert [] + u == u && [] + v == v;
    if s != "" {
      EscapedCons(s, u);
    }
    if t != "" {
      EscapedCons(t, v);
    }
    if s != "" && t != "" {
      CharReadBack(s[0], Escaped(s[1..]) + u, t[0], Escaped(t[1..]) + v);
      StringReadBack(s[1..], u, t[1..], v);
      assert s == [s[0]] + s[1..] && t == [t[0]] + t[1..];
    }
  }

  // ----- Numbers -----

  lemma {:induction false} DigitsOnly(n: nat)
    ensures Digits(n) != [] && forall i | 0 <= i < |Digits(n)| :: IsDigit(Digits(n)[i])
  {
    if n >= 10 {
      DigitsOnly(n / 10);
    }
  }

  lemma DigitsLength(n: nat)
    ensures |Digits(n)| == 1 <==> n < 10
    ensures Digits(n)[|Digits(n)| - 1] == '0' as int + n % 10
  {
    DigitsOnly(n);
    DigitsOnly(n / 10);
  }

  lemma {:induction false} DigitsInjective(n: nat, m: nat)
    requires Digits(n) == Digits(m)
    ensures n == m
  {
    DigitsLength(n);
    DigitsLength(m);
    if n >= 10 {
      assert Digits(n / 10) == Digits(n)[..|Digits(n)| - 1];
      assert Digits(m / 10) == Digits(m)[..|Digits(m)| - 1];
      DigitsInjective(n / 10, m / 10);
    }
  }

  /** A run of digits ends before the first byte that is none. */
  lemma RunBound(a: Bytes, x: Bytes, k: nat)
    requires NoDigit(x) && k <= |a + x| && forall i | 0 <= i < k :: IsDigit((a + x)[i])
    ensures k <= |a|
  {
    if x != [] {
      assert (a + x)[|a|] == x[0];
    }
  }

  /** Two runs of digits in the same place are the same. */
  lemma SameRun(a: Bytes, x: Bytes, b: Bytes, y: Bytes)
    requires a + x == b + y && NoDigit(x) && NoDigit(y)
    requires forall i | 0 <= i < |a| :: IsDigit(a[i])
    requires forall i | 0 <= i < |b| :: IsDigit(b[i])
    ensures a == b && x == y
  {
    assert forall i | 0 <= i < |a| :: (a + x)[i] == a[i];
    assert forall i | 0 <= i < |b| :: (b + y)[i] == b[i];
    RunBound(a, x, |b|);
    RunBound(b, y, |a|);
    SamePlace(a, x, b, y);
  }

  lemma WholeReadBack(n: int, x: Bytes, m: int, y: Bytes)
    requires WholeText(n) + x == WholeText(m) + y && NoDigit(x) && NoDigit(y)
    ensures n == m && x == y
  {
    var k, l: nat := if n < 0 then -n else n, if m < 0 then -m else m;
    DigitsOnly(k);
    DigitsOnly(l);
    Minus(n < 0, Digits(k), x);
    Minus(m < 0, Digits(l), y);
    assert (WholeText(n) + x)[0] == (WholeText(m) + y)[0];
    if n < 0 {
      SamePlace([MINUS], Digits(k) + x, [MINUS], Digits(l) + y);
    }
    SameRun(Digits(k), x, Digits(l), y);
    DigitsInjective(k, l);
  }

  const MINUS: Byte := 0x2D
  const POINT: Byte := 0x2E
  const EXPONENT: Byte := 0x65

  lemma Minus(negative: bool, digits: Bytes, x: Bytes)
    requires digits != [] && IsDigit(digits[0])
    ensures var t := (if negative then Ascii("-") else []) + digits + x;
            && t[0] == (if negative then MINUS else digits[0])
            && t == (if negative then [MINUS] + (digits + x) else digits + x)
  {
    assert Ascii("-") == [MINUS];
  }

  lemma FractionDigits(fraction: seq<Digit>)
    ensures |FractionText(fraction)| == |fraction|
    ensures forall i | 0 <= i < |fraction| ::
              IsDigit(FractionText(fraction)[i]) && FractionText(fraction)[i] == '0' as int + fraction[i]
  {
  }

  lemma FractionInjective(a: seq<Digit>, b: seq<Digit>)
    requires FractionText(a) == FractionText(b)
    ensures a == b
  {
    FractionDigits(a);
    FractionDigits(b);
    assert forall i | 0 <= i < |a| :: a[i] == b[i];
  }

  lemma Nested(a: Bytes, b: Bytes, x: Bytes)
    ensures a + b + x == a + (b + x)
  {
  }

  lemma SomeExponent(n: int, x: Bytes)
    ensures ExponentText(Some(n)) + x == [EXPONENT] + (WholeText(n) + x)
  {
    var e := Ascii("e");
    assert e == [EXPONENT];
    Nested(e, WholeText(n), x);
  }

  lemma ExponentStarts(exponent: Option<int>, x: Bytes)
    requires Ends(x)
    ensures NoDigit(ExponentText(exponent) + x)
    ensures exponent.Some? ==>
              ExponentText(exponent) + x == [EXPONENT] + (WholeText(exponent.value) + x)
    ensures exponent.None? ==> ExponentText(exponent) + x == x
  {
    match exponent
    case None => assert [] + x == x;
    case Some(n) => SomeExponent(n, x);
  }

  lemma ExponentReadBack(a: Option<int>, x: Bytes, b: Option<int>, y: Bytes)
    requires ExponentText(a) + x == ExponentText(b) + y && Ends(x) && Ends(y)
    ensures a == b && x == y
  {
    ExponentStarts(a, x);
    ExponentStarts(b, y);
    if a.Some? && b.Some? {
      SamePlace([EXPONENT], WholeText(a.value) + x, [EXPONENT], WholeText(b.value) + y);
      WholeReadBack(a.value, x, b.value, y);
    }
  }

  /** The text of a decimal: a sign, digits, a point, and the rest. */
  lemma DecimalParts(v: Value, x: Bytes)
    requires v.Decimal?
    ensures var rest := [POINT] + (FractionText(v.fraction) + (ExponentText(v.exponent) + x));
            && NoDigit(rest)
            && Text(v) + x == (if v.negative then Ascii("-") else []) + Digits(v.whole) + rest
  {
    assert Ascii(".") == [POINT];
    var a := (if v.negative then Ascii("-") else []) + Digits(v.whole);
    var f, e := FractionText(v.fraction), ExponentText(v.exponent);
    assert a + [POINT] + f + e + x == a + ([POINT] + (f + (e + x)));
  }

  lemma SignedReadBack(n: bool, k: nat, x: Bytes, m: bool, l: nat, y: Bytes)
    requires (if n then Ascii("-") else []) + Digits(k) + x == (if m then Ascii("-") else []) + Digits(l) + y
    requires NoDigit(x) && NoDigit(y)
    ensures n == m && k == l && x == y
  {
    DigitsOnly(k);
    DigitsOnly(l);
    Minus(n, Digits(k), x);
    Minus(m, Digits(l), y);
    if n {
      SamePlace([MINUS], Digits(k) + x, [MINUS], Digits(l) + y);
    }
    SameRun(Digits(k), x, Digits(l), y);
    DigitsInjective(k, l);
  }

  lemma DecimalReadBack(v: Value, x: Bytes, w: Value, y: Bytes)
    requires v.Decimal? && w.Decimal? && Text(v) + x == Text(w) + y && Ends(x) && Ends(y)
    ensures v == w && x == y
  {
    DecimalParts(v, x);
    DecimalParts(w, y);
    var e, e' := ExponentText(v.exponent) + x, ExponentText(w.exponent) + y;
    var rest, rest' := [POINT] + (FractionText(v.fraction) + e), [POINT] + (FractionText(w.fraction) + e');
    SignedReadBack(v.negative, v.whole, rest, w.negative, w.whole, rest');
    SamePlace([POINT], FractionText(v.fraction) + e, [POINT], FractionText(w.fraction) + e');
    ExponentStarts(v.exponent, x);
    ExponentStarts(w.exponent, y);
    FractionDigits(v.fraction);
    FractionDigits(w.fraction);
    SameRun(FractionText(v.fraction), e, FractionText(w.fraction), e');
    FractionInjective(v.fraction, w.fraction);
    ExponentReadBack(v.exponent, x, w.exponent, y);
  }

  lemma NumberParts(n: int, x: Bytes)
    ensures var k: nat := if n < 0 then -n else n;
            Text(Number(n)) + x == (if n < 0 then Ascii("-") else []) + Digits(k) + x
  {
    assert [] + Digits(if n < 0 then -n else n) == Digits(if n < 0 then -n else n);
  }

  /** A whole number is no decimal: the point tells. */
  lemma NumberIsNoDecimal(n: int, x: Bytes, w: Value, y: Bytes)
    requires w.Decimal? && Ends(x)
    ensures Text(Number(n)) + x != Text(w) + y
  {
    if Text(Number(n)) + x == Text(w) + y {
      NumberParts(n, x);
      DecimalParts(w, y);
      SignedReadBack(n < 0, if n < 0 then -n else n, x, w.negative, w.whole,
                     [POINT] + (FractionText(w.fraction) + (ExponentText(w.exponent) + y)));
    }
  }

  // ----- Values -----

  /** The first byte of a text tells what kind of value it is. */
  function Kind(v: Value): nat {
    match v
    case Null => 0
    case Bool(b) => if b then 1 else 2
    case Number(_) => 3
    case Decimal(_, _, _, _) => 3
    case Str(_) => 4
    case Array(_) => 5
    case Object(_) => 6
  }

  function KindOf(b: Byte): nat {
    if b == 'n' as int then 0
    else if b == 't' as int then 1
    else if b == 'f' as int then 2
    else if b == MINUS || IsDigit(b) then 3
    else if b == QUOTE then 4
    else if b == '[' as int then 5
    else if b == '{' as int then 6
    else 7
  }

  lemma TextStarts(v: Value)
    ensures Text(v) != [] && KindOf(Text(v)[0]) == Kind(v)
  {
    match v
    case Number(n) => DigitsOnly(if n < 0 then -n else n);
    case Decimal(_, whole, _, _) => DigitsOnly(whole);
    case _ =>
  }

  lemma SameKind(v: Value, x: Bytes, w: Value, y: Bytes)
    requires Text(v) + x == Text(w) + y
    ensures Kind(v) == Kind(w)
  {
    TextStarts(v);
    TextStarts(w);
    assert (Text(v) + x)[0] == Text(v)[0] && (Text(w) + y)[0] == Text(w)[0];
  }

  lemma NumericReadBack(v: Value, x: Bytes, w: Value, y: Bytes)
    requires Kind(v) == Kind(w) == 3 && Text(v) + x == Text(w) + y && Ends(x) && Ends(y)
    ensures v == w && x == y
  {
    if v.Number? && w.Number? {
      WholeReadBack(v.value, x, w.value, y);
    } else if v.Decimal? && w.Decimal? {
      DecimalReadBack(v, x, w, y);
    } else if v.Number? {
      NumberIsNoDecimal(v.value, x, w, y);
    } else {
      NumberIsNoDecimal(w.value, y, v, x);
    }
  }

  lemma StrParts(s: string, x: Bytes)
    ensures QuotedText(s) + x == [QUOTE] + (Escaped(s) + ([QUOTE] + x))
  {
    assert Ascii("\"") == [QUOTE];
  }

  lemma QuotedReadBack(s: string, x: Bytes, t: string, y: Bytes)
    requires QuotedText(s) + x == QuotedText(t) + y
    ensures s == t && x == y
  {
    StrParts(s, x);
    StrParts(t, y);
    SamePlace([QUOTE], Escaped(s) + ([QUOTE] + x), [QUOTE], Escaped(t) + ([QUOTE] + y));
    StringReadBack(s, [QUOTE] + x, t, [QUOTE] + y);
    SamePlace([QUOTE], x, [QUOTE], y);
  }

  lemma Enclosed(open: Bytes, text: Bytes, close: Bytes, x: Bytes)
    ensures open + text + close + x == open + (text + (close + x))
  {
  }

  /** No two values have the same text, whatever follows. */
  lemma {:induction false} ValueReadBack(v: Value, x: Bytes, w: Value, y: Bytes)
    requires Text(v) + x == Text(w) + y && Ends(x) && Ends(y)
    ensures v == w && x == y
    decreases v, 1
  {
    SameKind(v, x, w, y);
    if Kind(v) == 3 {
      NumericReadBack(v, x, w, y);
    } else if v.Str? {
      QuotedReadBack(v.text, x, w.text, y);
    } else if v.Array? {
      var open, close := Ascii("["), Ascii("]");
      Enclosed(open, ItemsText(v.items), close, x);
      Enclosed(open, ItemsText(w.items), close, y);
      SamePlace(open, ItemsText(v.items) + (close + x), open, ItemsText(w.items) + (close + y));
      ItemsReadBack(v.items, close + x, w.items, close + y);
      SamePlace(close, x, close, y);
    } else if v.Object? {
      var open, close := Ascii("{"), Ascii("}");
      Enclosed(open, FieldsText(v.fields), close, x);
      Enclosed(open, FieldsText(w.fields), close, y);
      SamePlace(open, FieldsText(v.fields) + (close + x), open, FieldsText(w.fields) + (close + y));
      FieldsReadBack(v.fields, close + x, w.fields, close + y);
      SamePlace(close, x, close, y);
    } else {
      SamePlace(Text(v), x, Text(w), y);
    }
  }

  const COMMA: Byte := 0x2C

  lemma Nest(a: Bytes, b: Bytes, c: Bytes, x: Bytes)
    ensures a + b + c + x == a + (b + (c + x))
  {
  }

  lemma SameList<T>(a: seq<T>, b: seq<T>)
    requires a != [] && b != [] && a[0] == b[0] && (|a| > 1 <==> |b| > 1) && (|a| > 1 ==> a[1..] == b[1..])
    ensures a == b
  {
    assert a == [a[0]] + a[1..] && b == [b[0]] + b[1..];
  }

  /** What follows the first of several texts: a comma and the others, or the end. */
  function More(several: bool, others: Bytes, x: Bytes): Bytes {
    if several then [COMMA] + (others + x) else x
  }

  lemma FirstItem(items: seq<Value>, x: Bytes)
    requires items != []
    ensures ItemsText(items) + x == Text(items[0]) + More(|items| > 1, ItemsText(items[1..]), x)
  {
    var comma := if |items| > 1 then Ascii(",") else [];
    Nest(Text(items[0]), comma, ItemsText(items[1..]), x);
    assert |items| == 1 ==> items[1..] == [];
    LastComma(|items| > 1, ItemsText(items[1..]), x);
  }

  /** After equal first texts, both lists go on or both end. */
  lemma SameMore(several: bool, others: Bytes, x: Bytes, several': bool, others': Bytes, y: Bytes, close: Byte)
    requires More(several, others, x) == More(several', others', y)
    requires x != [] && y != [] && x[0] == y[0] == close != COMMA
    ensures several == several'
    ensures if several then others + x == others' + y else x == y
  {
    assert More(several, others, x)[0] == More(several', others', y)[0];
    if several && several' {
      SamePlace([COMMA], others + x, [COMMA], others' + y);
    }
  }

  lemma FirstByte(a: Bytes, b: Bytes)
    requires a != []
    ensures (a + b)[0] == a[0]
  {
  }

  lemma NoItems(items: seq<Value>, x: Bytes)
    requires x != [] && x[0] == ']' as int
    ensures ItemsText(items) + x != []
    ensures (ItemsText(items) + x)[0] == x[0] <==> items == []
  {
    if items == [] {
      assert [] + x == x;
    } else {
      TextStarts(items[0]);
      FirstItem(items, x);
      FirstByte(Text(items[0]), More(|items| > 1, ItemsText(items[1..]), x));
    }
  }

  lemma SameFirstItem(a: seq<Value>, x: Bytes, b: seq<Value>, y: Bytes)
    requires a != [] && b != [] && ItemsText(a) + x == ItemsText(b) + y
    ensures Text(a[0]) + More(|a| > 1, ItemsText(a[1..]), x) == Text(b[0]) + More(|b| > 1, ItemsText(b[1..]), y)
  {
    FirstItem(a, x);
    FirstItem(b, y);
  }

  lemma {:induction false} ItemsReadBack(a: seq<Value>, x: Bytes, b: seq<Value>, y: Bytes)
    requires ItemsText(a) + x == ItemsText(b) + y
    requires x != [] && y != [] && x[0] == y[0] == ']' as int
    ensures a == b && x == y
    decreases a, 0
  {
    NoItems(a, x);
    NoItems(b, y);
    if a == [] {
      assert [] + x == x && [] + y == y;
    } else {
      var others, others' := ItemsText(a[1..]), ItemsText(b[1..]);
      SameFirstItem(a, x, b, y);
      ValueReadBack(a[0], More(|a| > 1, others, x), b[0], More(|b| > 1, others', y));
      SameMore(|a| > 1, others, x, |b| > 1, others', y, ']' as int);
      if |a| > 1 {
        ItemsReadBack(a[1..], x, b[1..], y);
      }
      SameList(a, b);
    }
  }

  const COLON: Byte := 0x3A

  lemma NestField(q: Bytes, colon: Bytes, v: Bytes, comma: Bytes, rest: Bytes, x: Bytes)
    ensures q + colon + v + comma + rest + x == q + (colon + (v + (comma + (rest + x))))
  {
    Nest(q, colon, v, comma + rest + x);
    Nest(v, comma, rest, x);
  }

  lemma FieldsTextIs(fields: seq<Field>)
    requires fields != []
    ensures FieldsText(fields)
         == QuotedText(fields[0].name) + Ascii(":") + Text(fields[0].value)
            + (if |fields| > 1 then Ascii(",") else []) + FieldsText(fields[1..])
    ensures |fields| == 1 ==> FieldsText(fields[1..]) == []
  {
  }

  lemma FirstField(fields: seq<Field>, x: Bytes)
    requires fields != []
    ensures FieldsText(fields) + x
         == QuotedText(fields[0].name)
            + ([COLON] + (Text(fields[0].value) + More(|fields| > 1, FieldsText(fields[1..]), x)))
  {
    FieldsTextIs(fields);
    var q, v, rest := QuotedText(fields[0].name), Text(fields[0].value), FieldsText(fields[1..]);
    FieldParts(q, v, |fields| > 1, rest, x);
  }

  lemma FieldParts(q: Bytes, v: Bytes, several: bool, rest: Bytes, x: Bytes)
    requires !several ==> rest == []
    ensures q + Ascii(":") + v + (if several then Ascii(",") else []) + rest + x
         == q + ([COLON] + (v + More(several, rest, x)))
  {
    Punctuation();
    LastComma(several, rest, x);
    NestField(q, Ascii(":"), v, if several then Ascii(",") else [], rest, x);
  }

  lemma Punctuation()
    ensures Ascii(",") == [COMMA] && Ascii(":") == [COLON]
  {
  }

  lemma LastComma(more: bool, rest: Bytes, x: Bytes)
    requires !more ==> rest == []
    ensures (if more then Ascii(",") else []) + (rest + x) == More(more, rest, x)
  {
    Punctuation();
    assert [] + ([] + x) == x;
  }

  lemma NoFields(fields: seq<Field>, x: Bytes)
    requires x != [] && x[0] == '}' as int
    ensures FieldsText(fields) + x != []
    ensures (FieldsText(fields) + x)[0] == x[0] <==> fields == []
  {
    if fields == [] {
      assert [] + x == x;
    } else {
      FirstField(fields, x);
      StrParts(fields[0].name, []);
      FirstByte(QuotedText(fields[0].name), []);
      FirstByte(QuotedText(fields[0].name),
                [COLON] + (Text(fields[0].value) + More(|fields| > 1, FieldsText(fields[1..]), x)));
    }
  }

  lemma SameFirstField(a: seq<Field>, x: Bytes, b: seq<Field>, y: Bytes)
    requires a != [] && b != [] && FieldsText(a) + x == FieldsText(b) + y
    ensures a[0].name == b[0].name
    ensures Text(a[0].value) + More(|a| > 1, FieldsText(a[1..]), x)
         == Text(b[0].value) + More(|b| > 1, FieldsText(b[1..]), y)
  {
    FirstField(a, x);
    FirstField(b, y);
    var u := Text(a[0].value) + More(|a| > 1, FieldsText(a[1..]), x);
    var v := Text(b[0].value) + More(|b| > 1, FieldsText(b[1..]), y);
    QuotedReadBack(a[0].name, [COLON] + u, b[0].name, [COLON] + v);
    SamePlace([COLON], u, [COLON], v);
  }

  lemma {:induction false} FieldsReadBack(a: seq<Field>, x: Bytes, b: seq<Field>, y: Bytes)
    requires FieldsText(a) + x == FieldsText(b) + y
    requires x != [] && y != [] && x[0] == y[0] == '}' as int
    ensures a == b && x == y
    decreases a, 0
  {
    NoFields(a, x);
    NoFields(b, y);
    if a == [] {
      assert [] + x == x && [] + y == y;
    } else {
      var others, others' := FieldsText(a[1..]), FieldsText(b[1..]);
      SameFirstField(a, x, b, y);
      ValueReadBack(a[0].value, More(|a| > 1, others, x), b[0].value, More(|b| > 1, others', y));
      SameMore(|a| > 1, others, x, |b| > 1, others', y, '}' as int);
      if |a| > 1 {
        FieldsReadBack(a[1..], x, b[1..], y);
      }
      assert a[0] == b[0];
      SameList(a, b);
    }
  }

  // ----- Envelopes -----

  /** The text of a call determines the method, the parameters and the three flags. */
  lemma CallReadBack(
      name: string, parameters: Value, oneway: Option<bool>, more: Option<bool>, upgrade: Option<bool>,
      name': string, parameters': Value, oneway': Option<bool>, more': Option<bool>, upgrade': Option<bool>)
    ensures CallText(name, parameters, oneway, more, upgrade) == CallText(name', parameters', oneway', more', upgrade')
       <==> name == name' && parameters == parameters' && oneway == oneway' && more == more' && upgrade == upgrade'
  {
    var f := CallFields(name, parameters, oneway, more, upgrade);
    var f' := CallFields(name', parameters', oneway', more', upgrade');
    if Text(Object(f)) == Text(Object(f')) {
      assert Text(Object(f)) + [] == Text(Object(f')) + [];
      ValueReadBack(Object(f), [], Object(f'), []);
      assert f[0] == f'[0] && f[1] == f'[1] && f[2] == f'[2] && f[3] == f'[3] && f[4] == f'[4];
    }
  }

  /** The text of a reply determines its parameters, its flag and its error. */
  lemma ReplyReadBack(
      parameters: Value, continues: Option<bool>, error: Option<string>,
      parameters': Value, continues': Option<bool>, error': Option<string>)
    ensures ReplyText(parameters, continues, error) == ReplyText(parameters', continues', error')
       <==> parameters == parameters' && continues == continues' && error == error'
  {
    var f, f' := ReplyFields(parameters, continues, error), ReplyFields(parameters', continues', error');
    if Text(Object(f)) == Text(Object(f')) {
      assert Text(Object(f)) + [] == Text(Object(f')) + [];
      ValueReadBack(Object(f), [], Object(f'), []);
      assert f[0] == f'[0] && f[1] == f'[1] && f[2] == f'[2];
    }
  }

  /** The bytes are a call that asks for no reply. */
  ghost predicate IsOneway(bytes: seq<Byte>) {
    exists name, parameters, more, upgrade :: bytes == CallText(name, parameters, Some(true), more, upgrade)
  }

  /** Whoever reads the text of a call finds the flag that its writer put into it. */
  lemma OnewayIffFlag(
      name: string, parameters: Value, oneway: Option<bool>, more: Option<bool>, upgrade: Option<bool>)
    ensures IsOneway(CallText(name, parameters, oneway, more, upgrade)) <==> oneway == Some(true)
  {
    var bytes := CallText(name, parameters, oneway, more, upgrade);
    if IsOneway(bytes) {
      var n, p, m, u :| bytes == CallText(n, p, Some(true), m, u);
      CallReadBack(name, parameters, oneway, more, upgrade, n, p, Some(true), m, u);
    }
  }
}
