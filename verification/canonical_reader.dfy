/** Reading canonical text back: members by name, elements in order.

    A scanner follows strings, escapes and brackets, so a text is cut only at commas that belong to it and not to a value
    inside it. */
module CanonicalReader {
  import opened Outcomes
  import opened CanonicalJson

  /** Where the scanner stands: how deep in brackets, whether inside a string, whether just after a backslash. */
  datatype Scan = Scan(depth: nat, quoted: bool, escaped: bool)

  const TOP := Scan(0, false, false)

  /** One character; a closing bracket without an opening one stops the scanner. */
  function Next(at: Scan, c: char): Option<Scan> {
    if at.escaped then Some(at.(escaped := false))
    else if at.quoted then Some(if c == '\\' then at.(escaped := true) else if c == '"' then at.(quoted := false) else at)
    else if c == '"' then Some(at.(quoted := true))
    else if c == '{' || c == '[' then Some(at.(depth := at.depth + 1))
    else if c == '}' || c == ']' then if at.depth == 0 then None else Some(at.(depth := at.depth - 1))
    else Some(at)
  }

  /** Where the scanner ends after `s`, provided no bracket of `s` is unmatched and no comma of `s` is at the top. */
  function Pass(at: Scan, s: string): Option<Scan>
    decreases |s|
  {
    if s == "" then Some(at)
    else if at == TOP && s[0] == ',' then None
    else match Next(at, s[0])
      case None => None
      case Some(after) => Pass(after, s[1..])
  }

  /** The text is one value as far as brackets, strings and commas go, as a JSON text (section 2 of RFC 8259) is. */
  predicate OneValue(s: string) { s != "" && Pass(TOP, s) == Some(TOP) }

  /** The text needs no escaping. */
  predicate Plain(s: string) { forall i | 0 <= i < |s| :: s[i] != '"' && s[i] != '\\' }

  // ---------- readers ----------

  /** The position of the first comma at the top, or the length. */
  function Cut(at: Scan, s: string): (k: nat)
    ensures k <= |s|
    decreases |s|
  {
    if s == "" || (at == TOP && s[0] == ',') then 0
    else match Next(at, s[0])
      case None => |s|
      case Some(after) => 1 + Cut(after, s[1..])
  }

  /** The text between top commas. */
  function Split(s: string): (parts: seq<string>)
    decreases |s|
  {
    var k := Cut(TOP, s);
    if k == |s| then [s] else [s[..k]] + Split(s[k + 1..])
  }

  function After(parts: seq<string>, prefix: string): Option<string> {
    if parts == [] then None
    else if prefix <= parts[0] then Some(parts[0][|prefix|..])
    else After(parts[1..], prefix)
  }

  /** The value text under `key` in an object text. */
  function Lookup(text: string, key: string): Option<string> {
    if |text| < 2 || text[0] != '{' || text[|text| - 1] != '}' then None
    else After(Split(text[1..|text| - 1]), Quoted(key) + ":")
  }

  /** The elements of an array text. */
  function Elements(text: string): Option<seq<string>> {
    if |text| < 2 || text[0] != '[' || text[|text| - 1] != ']' then None
    else if |text| == 2 then Some([])
    else Some(Split(text[1..|text| - 1]))
  }

  /** The contents of a string text without escapes. */
  function Unquoted(text: string): Option<string> {
    if |text| < 2 || text[0] != '"' || text[|text| - 1] != '"' || !Plain(text[1..|text| - 1]) then None
    else Some(text[1..|text| - 1])
  }

  function LookupText(text: string, key: string): Option<string> {
    match Lookup(text, key)
    case None => None
    case Some(v) => Unquoted(v)
  }

  // ---------- scanning ----------

  lemma {:induction false} PassBoth(at: Scan, a: string, b: string)
    ensures Pass(at, a + b) == match Pass(at, a) case None => None case Some(m) => Pass(m, b)
    decreases |a|
  {
    if a == "" {
      assert a + b == b;
    } else {
      assert (a + b)[0] == a[0] && (a + b)[1..] == a[1..] + b;
      if Next(at, a[0]).Some? { PassBoth(Next(at, a[0]).value, a[1..], b); }
    }
  }

  /** What passes at the top passes inside any number of brackets. */
  lemma {:induction false} PassDeeper(at: Scan, s: string, k: nat)
    requires Pass(at, s).Some?
    ensures Pass(at.(depth := at.depth + k), s) == Some(Pass(at, s).value.(depth := Pass(at, s).value.depth + k))
    decreases |s|
  {
    if s != "" { PassDeeper(Next(at, s[0]).value, s[1..], k); }
  }

  lemma {:induction false} PassInside(d: nat, s: string)
    requires Plain(s)
    ensures Pass(Scan(d, true, false), s) == Some(Scan(d, true, false))
    decreases |s|
  {
    if s != "" { PassInside(d, s[1..]); }
  }

  lemma PassChar(at: Scan, c: char)
    requires at != TOP || c != ','
    ensures Pass(at, [c]) == Next(at, c)
  {
    if Next(at, c).Some? { assert [c][1..] == "" && Pass(Next(at, c).value, "") == Next(at, c); }
  }

  lemma PassQuoted(d: nat, s: string)
    requires Plain(s)
    ensures Pass(Scan(d, false, false), Quoted(s)) == Some(Scan(d, false, false))
  {
    var out, inside := Scan(d, false, false), Scan(d, true, false);
    PassChar(out, '"');
    PassChar(inside, '"');
    PassInside(d, s);
    PassBoth(out, "\"", s);
    PassBoth(out, "\"" + s, "\"");
  }

  lemma QuotedIsOneValue(s: string)
    requires Plain(s)
    ensures OneValue(Quoted(s))
  {
    PassQuoted(0, s);
  }

  /** Values joined by commas pass inside a bracket. */
  lemma {:induction false} PassJoined(items: seq<string>)
    requires forall i | 0 <= i < |items| :: Pass(TOP, items[i]) == Some(TOP)
    ensures Pass(Scan(1, false, false), Joined(items)) == Some(Scan(1, false, false))
  {
    var inner := Scan(1, false, false);
    if items != [] {
      assert Pass(inner, items[0]) == Some(inner) by { PassDeeper(TOP, items[0], 1); }
      if |items| > 1 {
        PassJoined(items[1..]);
        PassChar(inner, ',');
        PassBoth(inner, items[0], ",");
        PassBoth(inner, items[0] + ",", Joined(items[1..]));
      }
    }
  }

  lemma Bracketed(open: char, s: string, close: char)
    requires (open == '{' && close == '}') || (open == '[' && close == ']')
    requires Pass(Scan(1, false, false), s) == Some(Scan(1, false, false))
    ensures OneValue([open] + s + [close])
  {
    PassChar(TOP, open);
    PassChar(Scan(1, false, false), close);
    PassBoth(TOP, [open], s);
    PassBoth(TOP, [open] + s, [close]);
  }

  lemma ArrayIsOneValue(items: seq<string>)
    requires forall i | 0 <= i < |items| :: OneValue(items[i])
    ensures OneValue(Array(items))
  {
    PassJoined(items);
    Bracketed('[', Joined(items), ']');
  }

  // ---------- cutting ----------

  lemma {:induction false} CutAfter(at: Scan, s: string, rest: string)
    requires Pass(at, s) == Some(TOP)
    ensures Cut(at, s + "," + rest) == |s| && Cut(at, s) == |s|
    decreases |s|
  {
    var t := s + "," + rest;
    if s != "" {
      assert t[0] == s[0] && t[1..] == s[1..] + "," + rest;
      CutAfter(Next(at, s[0]).value, s[1..], rest);
    }
  }

  /** Splitting undoes joining. */
  lemma {:induction false} SplitJoined(items: seq<string>)
    requires items != [] && forall i | 0 <= i < |items| :: Pass(TOP, items[i]) == Some(TOP)
    ensures Split(Joined(items)) == items
    decreases |items|
  {
    hide Cut, Pass;
    var text := Joined(items);
    if |items| == 1 {
      CutAfter(TOP, items[0], "");
    } else {
      var rest := Joined(items[1..]);
      CutAfter(TOP, items[0], rest);
      SplitJoined(items[1..]);
      var k := |items[0]|;
      assert text == items[0] + "," + rest && text[..k] == items[0] && text[k + 1..] == rest;
    }
  }

  /** An array text gives back its elements, in order. */
  lemma ElementsOfArray(items: seq<string>)
    requires forall i | 0 <= i < |items| :: OneValue(items[i])
    ensures Elements(Array(items)) == Some(items)
  {
    var text := Array(items);
    assert text[1..|text| - 1] == Joined(items);
    if items != [] {
      assert Joined(items) != "";
      SplitJoined(items);
    }
  }

  // ---------- objects ----------

  function MemberText(key: string, v: string): string { Quoted(key) + ":" + v }

  /** The texts of the members that are present. */
  function Present(fs: seq<Field>): seq<string> {
    if fs == [] then []
    else match fs[0].value
      case None => Present(fs[1..])
      case Some(v) => [MemberText(fs[0].key, v)] + Present(fs[1..])
  }

  lemma {:induction false} MembersJoined(fs: seq<Field>)
    ensures Members(fs) == Joined(Present(fs))
    ensures Members(fs) == "" <==> Present(fs) == []
  {
    if fs != [] {
      MembersJoined(fs[1..]);
      match fs[0].value
      case None =>
      case Some(v) =>
        var rest := Present(fs[1..]);
        assert Present(fs) == [MemberText(fs[0].key, v)] + rest;
        assert Present(fs)[1..] == rest;
    }
  }

  predicate Readable(f: Field) { Plain(f.key) && (f.value.Some? ==> OneValue(f.value.value)) }

  ghost predicate AllReadable(fs: seq<Field>) { forall i | 0 <= i < |fs| :: Readable(fs[i]) }

  ghost predicate DistinctKeys(fs: seq<Field>) { forall i, j | 0 <= i < j < |fs| :: fs[i].key != fs[j].key }

  lemma PassMember(key: string, v: string)
    requires Plain(key) && OneValue(v)
    ensures Pass(TOP, MemberText(key, v)) == Some(TOP)
  {
    PassQuoted(0, key);
    PassChar(TOP, ':');
    PassBoth(TOP, Quoted(key), ":");
    PassBoth(TOP, Quoted(key) + ":", v);
  }

  lemma {:induction false} PassPresent(fs: seq<Field>)
    requires AllReadable(fs)
    ensures forall i | 0 <= i < |Present(fs)| :: Pass(TOP, Present(fs)[i]) == Some(TOP)
  {
    hide OneValue;
    if fs != [] {
      assert Readable(fs[0]) && AllReadable(fs[1..]);
      PassPresent(fs[1..]);
      if fs[0].value.Some? { PassMember(fs[0].key, fs[0].value.value); }
    }
  }

  lemma ObjectIsOneValue(fs: seq<Field>)
    requires AllReadable(fs)
    ensures OneValue(Object(fs))
  {
    MembersJoined(fs);
    PassPresent(fs);
    PassJoined(Present(fs));
    Bracketed('{', Members(fs), '}');
  }

  /** A member text begins with the quoted name of its own key only. */
  lemma PrefixIsKey(key: string, other: string, v: string)
    requires Plain(key) && Plain(other)
    ensures Quoted(key) + ":" <= MemberText(other, v) <==> key == other
    ensures MemberText(key, v)[|Quoted(key) + ":"|..] == v
  {
    var p, m := Quoted(key) + ":", MemberText(other, v);
    if p <= m {
      assert m[|key| + 1] == p[|key| + 1] == '"' && m[|other| + 1] == '"';
      assert |key| == |other|;
      forall i | 0 <= i < |key| ensures key[i] == other[i] { assert p[i + 1] == key[i] && m[i + 1] == other[i]; }
      assert key == other;
    }
    if key == other { assert m[..|p|] == p; }
  }

  /** The member under `key`, by position. */
  lemma {:induction false} AfterPresent(fs: seq<Field>, i: nat)
    requires AllReadable(fs) && DistinctKeys(fs) && i < |fs|
    ensures After(Present(fs), Quoted(fs[i].key) + ":") == fs[i].value
    decreases |fs|
  {
    hide OneValue, MemberText;
    var rest := fs[1..];
    var prefix := Quoted(fs[i].key) + ":";
    assert Readable(fs[0]) && Readable(fs[i]) && AllReadable(rest) && DistinctKeys(rest);
    if fs[0].value.Some? {
      PrefixIsKey(fs[i].key, fs[0].key, fs[0].value.value);
      assert Present(fs)[1..] == Present(rest);
    }
    if i == 0 {
      if fs[0].value.None? { NotPresent(rest, fs[0].key); }
    } else {
      AfterPresent(rest, i - 1);
    }
  }

  lemma {:induction false} NotPresent(fs: seq<Field>, key: string)
    requires AllReadable(fs) && Plain(key) && forall i | 0 <= i < |fs| :: fs[i].key != key
    ensures After(Present(fs), Quoted(key) + ":") == None
  {
    hide OneValue, MemberText;
    if fs != [] {
      assert Readable(fs[0]) && AllReadable(fs[1..]);
      NotPresent(fs[1..], key);
      if fs[0].value.Some? {
        PrefixIsKey(key, fs[0].key, fs[0].value.value);
        assert Present(fs)[1..] == Present(fs[1..]);
      }
    }
  }

  /** Looking a key up in an object text gives the value written under that key, or nothing where it was left out. */
  lemma LookupObject(fs: seq<Field>, i: nat)
    requires AllReadable(fs) && DistinctKeys(fs) && i < |fs|
    ensures Lookup(Object(fs), fs[i].key) == fs[i].value
  {
    hide Present, Split, Joined, Members;
    var text := Object(fs);
    assert text[1..|text| - 1] == Members(fs);
    MembersJoined(fs);
    AfterPresent(fs, i);
    if Present(fs) == [] {
      EmptySplit(Quoted(fs[i].key) + ":");
    } else {
      PassPresent(fs);
      SplitJoined(Present(fs));
    }
  }

  lemma EmptySplit(prefix: string)
    requires prefix != ""
    ensures After(Split(""), prefix) == After([], prefix)
  {}

  lemma UnquotedQuoted(s: string)
    requires Plain(s)
    ensures Unquoted(Quoted(s)) == Some(s)
  {
    assert Quoted(s)[1..|Quoted(s)| - 1] == s;
  }

  /** Looking a text member up gives the text. */
  lemma LookupTextObject(fs: seq<Field>, i: nat, s: string)
    requires AllReadable(fs) && DistinctKeys(fs) && i < |fs| && Plain(s) && fs[i].value == Some(Quoted(s))
    ensures LookupText(Object(fs), fs[i].key) == Some(s)
  {
    hide Object, Lookup, Unquoted, Quoted;
    LookupObject(fs, i);
    UnquotedQuoted(s);
  }
}
