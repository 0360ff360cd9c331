/** Key combinations such as `Ctrl+Shift+F12`: key_from_str of keybind.rs. */
module KeyCombination {
  import opened Wrappers
  import Keybind

  /** Named keys and keys given by their character. */
  datatype Keysym = Named(name: string) | FromChar(c: char)

  datatype KeyEvent = KeyEvent(ksym: Option<Keysym>, control: bool, shift: bool, alt: bool, super: bool)

  const NO_KEY := KeyEvent(None, false, false, false, false)

  /** Lower case, as far as the letters of the modifier names are concerned. */
  function Lower(s: string): string {
    seq(|s|, i requires 0 <= i < |s| => if 'A' <= s[i] <= 'Z' then (s[i] as int + 32) as char else s[i])
  }

  function Upper(s: string): string {
    seq(|s|, i requires 0 <= i < |s| => if 'a' <= s[i] <= 'z' then (s[i] as int - 32) as char else s[i])
  }

  /** Capital and small letters make no difference, and small letters stay. */
  lemma LowerIgnoresCase(s: string)
    ensures Lower(Upper(s)) == Lower(s) == Lower(Lower(s))
    ensures (forall i | 0 <= i < |s| :: !('A' <= s[i] <= 'Z')) ==> Lower(s) == s
  {
  }

  function Word(token: string): string {
    Lower(Keybind.Trim(token))
  }

  const KEY_NAMES: set<string> := {
    "Esc", "F1", "F2", "F3", "F4", "F5", "F6", "F7", "F8", "F9", "F10", "F11", "F12",
    "Home", "End", "Delete", "Tab", "Backspace", "CapsLock", "Enter"
  }

  /** keysym_from_str */
  function KeysymFromStr(token: string): Option<Keysym> {
    var s := Keybind.Trim(token);
    if s == "Return" then Some(Named("Enter"))
    else if s == "Space" then Some(FromChar(' '))
    else if s in KEY_NAMES then Some(Named(s))
    else if |s| == 1 then Some(FromChar(s[0]))
    else None
  }

  /** What one part of the text stands for. */
  datatype Part = Control | Shift | Alt | Super | Key(ksym: Keysym) | Unknown

  function PartOf(token: string): Part {
    var w := Word(token);
    if w == "ctrl" || w == "control" then Control
    else if w == "shift" then Shift
    else if w == "alt" || w == "opt" || w == "option" then Alt
    else if w == "super" || w == "cmd" || w == "command" then Super
    else
      match KeysymFromStr(token)
      case Some(ksym) => Key(ksym)
      case None => Unknown
  }

  /** The texts between the '+' signs. */
  function Tokens(s: string): (tokens: seq<string>)
    ensures tokens != []
    decreases |s|
  {
    if '+' in s then
      var k := FirstPlus(s);
      [s[..k]] + Tokens(s[k + 1..])
    else [s]
  }

  function Joined(tokens: seq<string>): string
    requires tokens != []
  {
    if |tokens| == 1 then tokens[0] else tokens[0] + ['+'] + Joined(tokens[1..])
  }

  /** What the parts of a text stand for, in order. */
  function Parts(s: string): (parts: seq<Part>)
    ensures parts != []
  {
    seq(|Tokens(s)|, i requires 0 <= i < |Tokens(s)| => PartOf(Tokens(s)[i]))
  }

  function FirstPlus(s: string): (k: nat)
    requires '+' in s
    ensures k < |s| && s[k] == '+' && '+' !in s[..k]
  {
    if s[0] == '+' then 0 else 1 + FirstPlus(s[1..])
  }

  /** The tokens have no '+', and joined by '+' they give the text back. */
  lemma {:induction false} TokensJoin(s: string)
    ensures Joined(Tokens(s)) == s
    ensures forall i | 0 <= i < |Tokens(s)| :: '+' !in Tokens(s)[i]
    decreases |s|
  {
    if '+' in s {
      var k := FirstPlus(s);
      var rest := Tokens(s[k + 1..]);
      TokensJoin(s[k + 1..]);
      assert Tokens(s)[1..] == rest;
      assert s == s[..k] + ['+'] + s[k + 1..];
      assert forall i | 0 < i < |Tokens(s)| :: Tokens(s)[i] == rest[i - 1];
    }
  }

  /** No other tokens without '+' give this text. */
  lemma {:induction false} TokensUnique(tokens: seq<string>)
    requires tokens != [] && forall i | 0 <= i < |tokens| :: '+' !in tokens[i]
    ensures Tokens(Joined(tokens)) == tokens
  {
    if |tokens| > 1 {
      var rest := tokens[1..];
      var s := Joined(tokens);
      TokensUnique(rest);
      assert s == tokens[0] + ['+'] + Joined(rest);
      assert s[|tokens[0]|] == '+';
      PlusAfter(tokens[0], Joined(rest));
      assert s[..|tokens[0]|] == tokens[0] && s[|tokens[0]| + 1..] == Joined(rest);
    }
  }

  lemma {:induction false} PlusAfter(a: string, b: string)
    requires '+' !in a
    ensures '+' in a + ['+'] + b && FirstPlus(a + ['+'] + b) == |a|
  {
    var s := a + ['+'] + b;
    assert s[|a|] == '+';
    if a != [] {
      PlusAfter(a[1..], b);
      assert s[1..] == a[1..] + ['+'] + b;
    }
  }

  /** Which words name a modifier, whatever their case and the spaces around them. */
  lemma ModifierWords(token: string)
    ensures PartOf(token) == Control <==> Word(token) in {"ctrl", "control"}
    ensures PartOf(token) == Shift <==> Word(token) == "shift"
    ensures PartOf(token) == Alt <==> Word(token) in {"alt", "opt", "option"}
    ensures PartOf(token) == Super <==> Word(token) in {"super", "cmd", "command"}
  {
  }

  /** Which tokens name a key: some words, spelled exactly, and single characters. */
  lemma KeyWords(token: string)
    ensures var s := Keybind.Trim(token);
            && (PartOf(token) == Key(FromChar(' ')) <==> s == "Space")
            && (forall c | c != ' ' :: PartOf(token) == Key(FromChar(c)) <==> s == [c])
            && (PartOf(token) == Key(Named("Enter")) <==> s == "Enter" || s == "Return")
            && (forall name | name != "Enter" ::
                  PartOf(token) == Key(Named(name)) <==> s == name && s in KEY_NAMES)
  {
    var s := Keybind.Trim(token);
    Keybind.TrimIsTrimmed(token);
    assert |Word(token)| == |s|;
    if s in KEY_NAMES + {"Return", "Space"} {
      assert Word(token) == Lower(s);
      KeyNamesAreNoModifiers(s);
    }
  }

  lemma KeyNamesAreNoModifiers(s: string)
    requires s in KEY_NAMES + {"Return", "Space"}
    ensures Lower(s) !in {"ctrl", "control", "shift", "alt", "opt", "option", "super", "cmd", "command"}
  {
    assert |Lower(s)| == |s|;
    if |s| == 3 {
      assert s in {"Esc", "F10", "F11", "F12", "End", "Tab"};
      assert Lower(s)[0] in {'e', 'f', 't'};
    } else if |s| == 4 {
      assert s == "Home" && Lower(s)[0] == 'h';
    } else if |s| == 5 {
      assert s in {"Enter", "Space"};
      assert Lower(s)[1] in {'n', 'p'};
    } else if |s| == 6 {
      assert s in {"Delete", "Return"};
      assert Lower(s)[0] in {'d', 'r'};
    }
  }

  function LeftmostKey(parts: seq<Part>): Option<Keysym> {
    if parts == [] then None
    else if parts[0].Key? then Some(parts[0].ksym)
    else LeftmostKey(parts[1..])
  }

  /** The combination that a list of parts names. */
  function Combination(parts: seq<Part>): KeyEvent {
    KeyEvent(LeftmostKey(parts), Control in parts, Shift in parts, Alt in parts, Super in parts)
  }

  /**
   key_from_str: the loop takes the last part first. It succeeds if and only if every part is
   recognised, and then it has exactly the modifiers that are named and the leftmost key.
   */
  method KeyFromStr(s: string) returns (r: Option<KeyEvent>)
    ensures r == if Unknown in Parts(s) then None else Some(Combination(Parts(s)))
  {
    var parts := Parts(s);
    var builder := NO_KEY;
    var n := |parts|;
    while n > 0
      invariant 0 <= n <= |parts|
      invariant Unknown !in parts[n..] && builder == Combination(parts[n..])
    {
      n := n - 1;
      assert parts[n..] == [parts[n]] + parts[n + 1..];
      match parts[n] {
        case Control => builder := builder.(control := true);
        case Shift => builder := builder.(shift := true);
        case Alt => builder := builder.(alt := true);
        case Super => builder := builder.(super := true);
        case Key(ksym) => builder := builder.(ksym := Some(ksym));
        case Unknown => return None;
      }
    }
    assert parts[0..] == parts;
    r := Some(builder);
  }

  lemma {:induction false} LeftmostKeyIsFirst(parts: seq<Part>)
    ensures LeftmostKey(parts).None? ==> forall i | 0 <= i < |parts| :: !parts[i].Key?
    ensures LeftmostKey(parts).Some? ==>
              exists i | 0 <= i < |parts| :: parts[i] == Key(LeftmostKey(parts).value)
                                             && forall j | 0 <= j < i :: !parts[j].Key?
  {
    if parts != [] && !parts[0].Key? {
      LeftmostKeyIsFirst(parts[1..]);
      if LeftmostKey(parts).Some? {
        var i :| 0 <= i < |parts| - 1 && parts[1..][i] == Key(LeftmostKey(parts).value)
                 && forall j | 0 <= j < i :: !parts[1..][j].Key?;
        assert parts[i + 1] == Key(LeftmostKey(parts).value);
        assert forall j | 0 < j < i + 1 :: parts[j] == parts[1..][j - 1];
      }
    }
  }

  predicate AtMostOneKey(parts: seq<Part>) {
    forall i, j | 0 <= i < j < |parts| :: !(parts[i].Key? && parts[j].Key?)
  }

  /** The order of the parts does not matter when at most one of them is a key. */
  lemma OrderOfPartsIsIrrelevant(a: seq<Part>, b: seq<Part>)
    requires multiset(a) == multiset(b) && AtMostOneKey(a) && AtMostOneKey(b)
    ensures Combination(a) == Combination(b) && (Unknown in a <==> Unknown in b)
  {
    assert forall p: Part :: p in a <==> p in multiset(a);
    assert forall p: Part :: p in b <==> p in multiset(b);
    LeftmostKeyIsFirst(a);
    LeftmostKeyIsFirst(b);
    if LeftmostKey(a).Some? {
      assert Key(LeftmostKey(a).value) in b;
    }
    if LeftmostKey(b).Some? {
      assert Key(LeftmostKey(b).value) in a;
    }
  }
}
