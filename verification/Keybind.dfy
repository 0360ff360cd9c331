/** The text form of keybindings in config.rs: `key=action` or `key=action:param`. */
module Keybind {
  import opened Wrappers

  datatype KeybindValue = KeybindValue(key: string, action: string, param: string)

  // ----- Strings -----

  /** The White_Space property of Unicode. */
  predicate IsWhitespace(c: char) {
    var v := c as int;
    || 0x09 <= v <= 0x0D || v == 0x20 || v == 0x85 || v == 0xA0 || v == 0x1680
    || 0x2000 <= v <= 0x200A || v == 0x2028 || v == 0x2029 || v == 0x202F || v == 0x205F || v == 0x3000
  }

  /** Spelled out: the 25 characters that the standard lists. */
  lemma WhiteSpaceCharacters(c: char)
    ensures IsWhitespace(c) <==>
            c as int in {0x09, 0x0A, 0x0B, 0x0C, 0x0D, 0x20, 0x85, 0xA0, 0x1680,
                         0x2000, 0x2001, 0x2002, 0x2003, 0x2004, 0x2005, 0x2006, 0x2007, 0x2008, 0x2009, 0x200A,
                         0x2028, 0x2029, 0x202F, 0x205F, 0x3000}
  {
  }

  function TrimStart(s: string): (r: string)
    ensures |r| <= |s| && (|r| == |s| ==> r == s)
  {
    if s != "" && IsWhitespace(s[0]) then TrimStart(s[1..]) else s
  }

  function TrimEnd(s: string): (r: string)
    ensures |r| <= |s| && (|r| == |s| ==> r == s)
  {
    if s != "" && IsWhitespace(s[|s| - 1]) then TrimEnd(s[..|s| - 1]) else s
  }

  function Trim(s: string): (r: string)
    ensures |r| <= |s| && (|r| == |s| ==> r == s)
  {
    TrimEnd(TrimStart(s))
  }

  /** No white space at either end. */
  predicate Trimmed(s: string) {
    s == "" || (!IsWhitespace(s[0]) && !IsWhitespace(s[|s| - 1]))
  }

  lemma {:induction false} TrimEndClean(s: string)
    ensures TrimEnd(s) != "" ==> !IsWhitespace(TrimEnd(s)[|TrimEnd(s)| - 1]) && TrimEnd(s)[0] == s[0]
  {
    if s != "" && IsWhitespace(s[|s| - 1]) {
      TrimEndClean(s[..|s| - 1]);
    }
  }

  lemma {:induction false} TrimStartClean(s: string)
    ensures TrimStart(s) != "" ==> !IsWhitespace(TrimStart(s)[0])
  {
    if s != "" && IsWhitespace(s[0]) {
      TrimStartClean(s[1..]);
    }
  }

  lemma {:induction false} TrimStartCuts(s: string)
    ensures exists a: string :: s == a + TrimStart(s) && forall c | c in a :: IsWhitespace(c)
  {
    if s != "" && IsWhitespace(s[0]) {
      TrimStartCuts(s[1..]);
      var a: string :| s[1..] == a + TrimStart(s[1..]) && forall c | c in a :: IsWhitespace(c);
      assert s == ([s[0]] + a) + TrimStart(s);
    } else {
      assert s == "" + TrimStart(s);
    }
  }

  lemma {:induction false} TrimEndCuts(s: string)
    ensures exists b: string :: s == TrimEnd(s) + b && forall c | c in b :: IsWhitespace(c)
  {
    if s != "" && IsWhitespace(s[|s| - 1]) {
      var n := |s| - 1;
      TrimEndCuts(s[..n]);
      var b: string :| s[..n] == TrimEnd(s[..n]) + b && forall c | c in b :: IsWhitespace(c);
      assert s == TrimEnd(s) + (b + [s[n]]);
    } else {
      assert s == TrimEnd(s) + "";
    }
  }

  /** Trimming cuts off white space at both ends, and nothing else. */
  lemma TrimCuts(s: string)
    ensures exists a: string, b: string :: s == a + Trim(s) + b && forall c | c in a + b :: IsWhitespace(c)
  {
    TrimStartCuts(s);
    TrimEndCuts(TrimStart(s));
    var a: string :| s == a + TrimStart(s) && forall c | c in a :: IsWhitespace(c);
    var b: string :| TrimStart(s) == Trim(s) + b && forall c | c in b :: IsWhitespace(c);
    assert s == a + Trim(s) + b;
  }

  /** Trimming yields trimmed text and leaves exactly the trimmed text alone. */
  lemma TrimIsTrimmed(s: string)
    ensures Trimmed(Trim(s)) && (Trim(s) == s <==> Trimmed(s))
  {
    TrimStartClean(s);
    TrimEndClean(TrimStart(s));
  }

  /** str::rsplit_once */
  function RsplitOnce(s: string, c: char): Option<(string, string)> {
    if s == "" then None
    else
      var n := |s| - 1;
      if s[n] == c then Some((s[..n], ""))
      else
        match RsplitOnce(s[..n], c)
        case None => None
        case Some((a, b)) => Some((a, b + [s[n]]))
  }

  lemma {:induction false} RsplitOnceFinds(s: string, c: char)
    ensures c !in s ==> RsplitOnce(s, c) == None
    ensures c in s ==> RsplitOnce(s, c).Some? &&
                       var (a, b) := RsplitOnce(s, c).value; s == a + [c] + b && c !in b
  {
    if s != "" && s[|s| - 1] != c {
      RsplitOnceFinds(s[..|s| - 1], c);
    }
  }

  lemma {:induction false} RsplitOnceAt(a: string, b: string, c: char)
    requires c !in b
    ensures RsplitOnce(a + [c] + b, c) == Some((a, b))
  {
    var s := a + [c] + b;
    var n := |s| - 1;
    if b == "" {
      assert s[..n] == a;
    } else {
      var m := |b| - 1;
      assert s[..n] == a + [c] + b[..m] && s[n] == b[m];
      RsplitOnceAt(a, b[..m], c);
      assert b == b[..m] + [b[m]];
    }
  }

  // ----- Printing and parsing -----

  function PrintParam(param: string): string {
    if param == "" then "" else ":" + param
  }

  /** Display for KeybindValue */
  function Print(v: KeybindValue): string {
    Trim(v.key) + "=" + (Trim(v.action) + PrintParam(v.param))
  }

  /** What stands behind the last '=': an action and, behind the last ':', its parameter. */
  function ParseAction(s: string): (string, string) {
    match RsplitOnce(s, ':')
    case None => (s, "")
    case Some((action, param)) => (action, param)
  }

  /** KeybindValue::from_str */
  function Parse(s: string): Option<KeybindValue> {
    match RsplitOnce(s, '=')
    case None => None
    case Some((key, rest)) =>
      var (action, param) := ParseAction(rest);
      Some(KeybindValue(key, action, param))
  }

  /** An action ends at the last ':' if there is any, and then comes the parameter. */
  lemma ActionParts(rest: string)
    ensures var (action, param) := ParseAction(rest);
            && ':' !in param
            && (if ':' in rest then rest == action + ([':'] + param) else action == rest && param == "")
  {
    RsplitOnceFinds(rest, ':');
    if ':' in rest {
      var (action, param) := RsplitOnce(rest, ':').value;
      assert action + [':'] + param == action + ([':'] + param);
    }
  }

  lemma PartsLack(rest: string, action: string, param: string, c: char)
    requires c !in rest && (rest == action + ([':'] + param) || (rest == action && param == ""))
    ensures c !in action && c !in param
  {
    if rest == action + ([':'] + param) {
      assert forall i | 0 <= i < |action| :: rest[i] == action[i];
      assert forall i | 0 <= i < |param| :: rest[|action| + 1 + i] == param[i];
    }
  }

  /**
   A text parses if and only if it has a '='. The key is what stands before the last one; what
   follows is the action, up to the last ':' if there is any, and then the parameter.
   */
  lemma ParsesIff(s: string)
    ensures Parse(s).Some? <==> '=' in s
    ensures Parse(s).Some? ==>
              var v := Parse(s).value;
              && '=' !in v.action && '=' !in v.param && ':' !in v.param
              && (s == v.key + ['='] + (v.action + ([':'] + v.param))
                  || (s == v.key + ['='] + v.action && v.param == "" && ':' !in v.action))
  {
    RsplitOnceFinds(s, '=');
    if '=' in s {
      var (key, rest) := RsplitOnce(s, '=').value;
      var (action, param) := ParseAction(rest);
      ActionParts(rest);
      PartsLack(rest, action, param, '=');
    }
  }

  /** The values that keep their meaning in text form. */
  predicate Faithful(v: KeybindValue) {
    && Trimmed(v.key) && Trimmed(v.action)
    && '=' !in v.action && '=' !in v.param
    && (if v.param != "" then ':' !in v.param else ':' !in v.action)
  }

  lemma FaithfulRoundTrip(v: KeybindValue)
    requires Faithful(v)
    ensures Parse(Print(v)) == Some(v)
  {
    TrimIsTrimmed(v.key);
    TrimIsTrimmed(v.action);
    var rest := v.action + PrintParam(v.param);
    RsplitOnceAt(v.key, rest, '=');
    if v.param == "" {
      assert rest == v.action;
      RsplitOnceFinds(rest, ':');
    } else {
      assert rest == v.action + [':'] + v.param;
      RsplitOnceAt(v.action, v.param, ':');
    }
  }

  lemma RoundTripFaithful(v: KeybindValue)
    requires Parse(Print(v)) == Some(v)
    ensures Faithful(v)
  {
    var s := Print(v);
    RsplitOnceFinds(s, '=');
    var rest := RsplitOnce(s, '=').value.1;
    assert s == v.key + ['='] + rest && '=' !in rest;
    RsplitOnceFinds(rest, ':');
    assert |s| == |Trim(v.key)| + 1 + |Trim(v.action)| + |PrintParam(v.param)|;
    if ':' in rest {
      assert rest == v.action + [':'] + v.param;
      assert |s| == |v.key| + 1 + |v.action| + 1 + |v.param|;
    } else {
      assert rest == v.action && v.param == "";
    }
    TrimIsTrimmed(v.key);
    TrimIsTrimmed(v.action);
    assert forall c | c in v.action :: c in rest;
    assert forall c | c in v.param :: c in rest;
  }

  /** Parsing the printed form gives the value back if and only if the value is faithful. */
  lemma RoundTripIff(v: KeybindValue)
    ensures Parse(Print(v)) == Some(v) <==> Faithful(v)
  {
    if Faithful(v) {
      FaithfulRoundTrip(v);
    }
    if Parse(Print(v)) == Some(v) {
      RoundTripFaithful(v);
    }
  }

  function TrimmedValue(v: KeybindValue): KeybindValue {
    v.(key := Trim(v.key), action := Trim(v.action))
  }

  /** Any value comes back trimmed, if and only if it is faithful once it is trimmed. */
  lemma TrimmedRoundTripIff(v: KeybindValue)
    ensures Print(v) == Print(TrimmedValue(v))
    ensures Parse(Print(v)) == Some(TrimmedValue(v)) <==> Faithful(TrimmedValue(v))
  {
    TrimIsTrimmed(v.key);
    TrimIsTrimmed(v.action);
    RoundTripIff(TrimmedValue(v));
  }

  // ----- The list in the registry -----

  function Save(values: seq<KeybindValue>): seq<string> {
    if values == [] then [] else [Print(values[0])] + Save(values[1..])
  }

  /** Lines that do not parse are skipped. */
  function Load(lines: seq<string>): seq<KeybindValue> {
    if lines == [] then []
    else
      (match Parse(lines[0]) case None => [] case Some(v) => [v]) + Load(lines[1..])
  }

  /** A printed value always parses, if not always to itself. */
  lemma PrintedParses(v: KeybindValue)
    ensures Parse(Print(v)).Some?
  {
    assert Print(v)[|Trim(v.key)|] == '=';
    RsplitOnceFinds(Print(v), '=');
  }

  lemma SaveLoadCons(values: seq<KeybindValue>)
    requires values != []
    ensures Parse(Print(values[0])).Some?
    ensures Load(Save(values)) == [Parse(Print(values[0])).value] + Load(Save(values[1..]))
  {
    PrintedParses(values[0]);
    assert Save(values)[1..] == Save(values[1..]);
  }

  lemma ConsEqual<T>(x: T, xs: seq<T>, y: T, ys: seq<T>)
    ensures [x] + xs == [y] + ys <==> x == y && xs == ys
  {
    if [x] + xs == [y] + ys {
      assert ([x] + xs)[0] == x && ([x] + xs)[1..] == xs;
      assert ([y] + ys)[0] == y && ([y] + ys)[1..] == ys;
    }
  }

  predicate AllFaithful(values: seq<KeybindValue>) {
    forall i | 0 <= i < |values| :: Faithful(values[i])
  }

  lemma AllFaithfulCons(values: seq<KeybindValue>)
    requires values != []
    ensures AllFaithful(values) <==> Faithful(values[0]) && AllFaithful(values[1..])
  {
    assert forall i | 0 < i < |values| :: values[i] == values[1..][i - 1];
  }

  /** Saving and loading keeps the number of entries; it keeps the list exactly if every entry is faithful. */
  lemma {:induction false} SaveLoadIff(values: seq<KeybindValue>)
    ensures |Load(Save(values))| == |values|
    ensures Load(Save(values)) == values <==> AllFaithful(values)
  {
    if values != [] {
      var head, tail := values[0], values[1..];
      SaveLoadIff(tail);
      SaveLoadCons(values);
      RoundTripIff(head);
      AllFaithfulCons(values);
      assert values == [head] + tail;
      ConsEqual(Parse(Print(head)).value, Load(Save(tail)), head, tail);
    }
  }

  /** Of any lines, exactly those with a '=' are loaded, in order. */
  lemma {:induction false} LoadSkips(lines: seq<string>)
    ensures Load(lines) == Load(Readable(lines)) && |Load(lines)| == |Readable(lines)|
  {
    if lines != [] {
      ParsesIff(lines[0]);
      LoadSkips(lines[1..]);
      if '=' in lines[0] {
        var kept := [lines[0]] + Readable(lines[1..]);
        assert kept[1..] == Readable(lines[1..]);
        assert Readable(lines) == kept;
      } else {
        assert Readable(lines) == Readable(lines[1..]);
        assert Load(lines) == Load(lines[1..]);
      }
    }
  }

  function Readable(lines: seq<string>): seq<string> {
    if lines == [] then [] else (if '=' in lines[0] then [lines[0]] else []) + Readable(lines[1..])
  }
}
