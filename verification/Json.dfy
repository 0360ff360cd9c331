/**
 The text that serde_json writes for the envelopes of the IPC, as bytes. Frames are
 separated by the byte 0, which must not occur inside: strings escape U+0000 as section 7 of
 RFC 8259 demands of all control characters.
 */
module Json {
  import opened Wrappers

  type Byte = b: int | 0 <= b < 0x100

  type Digit = d: int | 0 <= d < 10

  /** Numbers are whole, or written with a fraction and perhaps an exponent. */
  datatype Value =
    | Null
    | Bool(flag: bool)
    | Number(value: int)
    | Decimal(negative: bool, whole: nat, fraction: seq<Digit>, exponent: Option<int>)
    | Str(text: string)
    | Array(items: seq<Value>)
    | Object(fields: seq<Field>)

  datatype Field = Field(name: string, value: Value)

  predicate NoNul(bytes: seq<Byte>) {
    0 !in bytes
  }

  function Ascii(s: string): seq<Byte>
    requires forall i | 0 <= i < |s| :: s[i] as int < 0x80
  {
    seq(|s|, i requires 0 <= i < |s| => s[i] as int)
  }

  function Utf8(c: char): seq<Byte> {
    var v := c as int;
    if v < 0x80 then [v]
    else if v < 0x800 then [0xC0 + v / 0x40, 0x80 + v % 0x40]
    else if v < 0x1_0000 then [0xE0 + v / 0x1000, 0x80 + v / 0x40 % 0x40, 0x80 + v % 0x40]
    else [0xF0 + v / 0x4_0000, 0x80 + v / 0x1000 % 0x40, 0x80 + v / 0x40 % 0x40, 0x80 + v % 0x40]
  }

  function HexDigit(n: int): Byte
    requires 0 <= n < 16
  {
    if n < 10 then '0' as int + n else 'a' as int + (n - 10)
  }

  /** The escape table of the serializer. */
  function EscapedChar(c: char): seq<Byte> {
    var v := c as int;
    if c == '\"' then Ascii("\\\"")
    else if c == '\\' then Ascii("\\\\")
    else if v == 0x08 then Ascii("\\b")
    else if v == 0x09 then Ascii("\\t")
    else if v == 0x0A then Ascii("\\n")
    else if v == 0x0C then Ascii("\\f")
    else if v == 0x0D then Ascii("\\r")
    else if v < 0x20 then Ascii("\\u00") + [HexDigit(v / 16), HexDigit(v % 16)]
    else Utf8(c)
  }

  function Escaped(s: string): seq<Byte> {
    if s == "" then [] else EscapedChar(s[0]) + Escaped(s[1..])
  }

  function QuotedText(s: string): seq<Byte> {
    Ascii("\"") + Escaped(s) + Ascii("\"")
  }

  function Digits(n: nat): seq<Byte> {
    if n < 10 then ['0' as int + n] else Digits(n / 10) + ['0' as int + n % 10]
  }

  function WholeText(n: int): seq<Byte> {
    if n < 0 then Ascii("-") + Digits(-n) else Digits(n)
  }

  function FractionText(fraction: seq<Digit>): seq<Byte> {
    seq(|fraction|, i requires 0 <= i < |fraction| => '0' as int + fraction[i])
  }

  function ExponentText(exponent: Option<int>): seq<Byte> {
    match exponent
    case None => []
    case Some(n) => Ascii("e") + WholeText(n)
  }

  /** Compact form, fields in order of declaration. */
  function Text(v: Value): seq<Byte>
    decreases v, 0
  {
    match v
    case Null => Ascii("null")
    case Bool(flag) => if flag then Ascii("true") else Ascii("false")
    case Number(n) => WholeText(n)
    case Decimal(negative, whole, fraction, exponent) =>
      (if negative then Ascii("-") else [])
        + Digits(whole) + Ascii(".") + FractionText(fraction) + ExponentText(exponent)
    case Str(s) => QuotedText(s)
    case Array(items) => Ascii("[") + ItemsText(items) + Ascii("]")
    case Object(fields) => Ascii("{") + FieldsText(fields) + Ascii("}")
  }

  function ItemsText(items: seq<Value>): seq<Byte>
    decreases items, 1
  {
    if items == [] then []
    else Text(items[0]) + (if |items| > 1 then Ascii(",") else []) + ItemsText(items[1..])
  }

  function FieldsText(fields: seq<Field>): seq<Byte>
    decreases fields, 1
  {
    if fields == [] then []
    else
      QuotedText(fields[0].name) + Ascii(":") + Text(fields[0].value)
        + (if |fields| > 1 then Ascii(",") else []) + FieldsText(fields[1..])
  }

  function OptionalFlag(flag: Option<bool>): Value {
    match flag
    case None => Null
    case Some(b) => Bool(b)
  }

  // The members of a call
  const METHOD := "method"
  const PARAMETERS := "parameters"
  const ONEWAY := "oneway"
  const MORE := "more"
  const UPGRADE := "upgrade"

  function CallFields(
    name: string, parameters: Value, oneway: Option<bool>, more: Option<bool>, upgrade: Option<bool>): seq<Field>
  {
    [Field(METHOD, Str(name)), Field(PARAMETERS, parameters), Field(ONEWAY, OptionalFlag(oneway)),
     Field(MORE, OptionalFlag(more)), Field(UPGRADE, OptionalFlag(upgrade))]
  }

  /** MethodCall */
  function CallText(name: string, parameters: Value, oneway: Option<bool>, more: Option<bool>, upgrade: Option<bool>)
    : seq<Byte>
  {
    Text(Object(CallFields(name, parameters, oneway, more, upgrade)))
  }

  function ReplyFields(parameters: Value, continues: Option<bool>, error: Option<string>): seq<Field> {
    [Field(PARAMETERS, parameters), Field("continues", OptionalFlag(continues)),
     Field("error", match error case None => Null case Some(s) => Str(s))]
  }

  /** MethodReply */
  function ReplyText(parameters: Value, continues: Option<bool>, error: Option<string>): seq<Byte> {
    Text(Object(ReplyFields(parameters, continues, error)))
  }

  lemma CharNoNul(c: char)
    ensures NoNul(EscapedChar(c))
  {
    var v := c as int;
    if v >= 0x20 {
      assert forall i | 0 <= i < |Utf8(c)| :: Utf8(c)[i] > 0;
    }
  }

  lemma {:induction false} EscapedNoNul(s: string)
    ensures NoNul(Escaped(s))
  {
    if s != "" {
      CharNoNul(s[0]);
      EscapedNoNul(s[1..]);
    }
  }

  lemma {:induction false} DigitsNoNul(n: nat)
    ensures NoNul(Digits(n))
  {
    if n >= 10 {
      DigitsNoNul(n / 10);
    }
  }

  lemma WholeNoNul(n: int)
    ensures NoNul(WholeText(n))
  {
    DigitsNoNul(if n < 0 then -n else n);
  }

  lemma DecimalNoNul(whole: nat, fraction: seq<Digit>, exponent: Option<int>)
    ensures NoNul(Digits(whole)) && NoNul(FractionText(fraction)) && NoNul(ExponentText(exponent))
  {
    DigitsNoNul(whole);
    if exponent.Some? {
      WholeNoNul(exponent.value);
    }
  }

  /** No JSON text contains the byte 0, whatever characters its strings have. */
  lemma {:induction false} TextNoNul(v: Value)
    ensures NoNul(Text(v))
    decreases v, 0
  {
    match v
    case Number(n) => WholeNoNul(n);
    case Decimal(_, whole, fraction, exponent) => DecimalNoNul(whole, fraction, exponent);
    case Str(s) => EscapedNoNul(s);
    case Array(items) => ItemsNoNul(items);
    case Object(fields) => FieldsNoNul(fields);
    case _ =>
  }

  lemma {:induction false} ItemsNoNul(items: seq<Value>)
    ensures NoNul(ItemsText(items))
    decreases items, 1
  {
    if items != [] {
      TextNoNul(items[0]);
      ItemsNoNul(items[1..]);
    }
  }

  lemma {:induction false} FieldsNoNul(fields: seq<Field>)
    ensures NoNul(FieldsText(fields))
    decreases fields, 1
  {
    if fields != [] {
      EscapedNoNul(fields[0].name);
      TextNoNul(fields[0].value);
      FieldsNoNul(fields[1..]);
    }
  }

  ghost predicate IsCallText(bytes: seq<Byte>) {
    exists name, parameters, oneway, more, upgrade :: bytes == CallText(name, parameters, oneway, more, upgrade)
  }

  /** A reply envelope, or the bare `{}` that answers some calls. */
  ghost predicate IsReplyText(bytes: seq<Byte>) {
    bytes == Text(Object([])) || exists parameters, continues, error :: bytes == ReplyText(parameters, continues, error)
  }

  /** What the client and the host put into frames. */
  lemma FramedTextsHaveNoNul(bytes: seq<Byte>)
    requires IsCallText(bytes) || IsReplyText(bytes)
    ensures NoNul(bytes)
  {
    if IsCallText(bytes) {
      var name, parameters, oneway, more, upgrade :| bytes == CallText(name, parameters, oneway, more, upgrade);
      EnvelopesHaveNoNul(name, parameters, oneway, more, upgrade, None);
    } else if bytes == Text(Object([])) {
      TextNoNul(Object([]));
    } else {
      var parameters, continues, error :| bytes == ReplyText(parameters, continues, error);
      EnvelopesHaveNoNul("", parameters, None, continues, None, error);
    }
  }

  /** The envelopes that the client and the host put into frames. */
  lemma EnvelopesHaveNoNul(
      name: string, value: Value, oneway: Option<bool>, more: Option<bool>, upgrade: Option<bool>,
      error: Option<string>)
    ensures NoNul(CallText(name, value, oneway, more, upgrade))
    ensures NoNul(ReplyText(value, more, error))
  {
    TextNoNul(Object(CallFields(name, value, oneway, more, upgrade)));
    TextNoNul(Object(ReplyFields(value, more, error)));
  }
}
