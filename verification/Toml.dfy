/** scbl.toml: what HookConfigService prints and what the launcher reads back. */
module Toml {
  import opened Common
  import opened Text

  // ---- escaping ----

  /** String.Replace of a single character. */
  function Replace(s: string, c: char, sub: string): string {
    if s == [] then [] else (if s[0] == c then sub else [s[0]]) + Replace(s[1..], c, sub)
  }

  function TomlEscape(s: string): string {
    Replace(Replace(Replace(Replace(Replace(s, '\\', "\\\\"), '\"', "\\\""), '\r', "\\r"), '\n', "\\n"), '\t', "\\t")
  }

  /** The escape of one character (TOML v1.0.0, "String"). */
  function EscapeChar(c: char): string {
    if c == '\\' then "\\\\"
    else if c == '\"' then "\\\""
    else if c == '\r' then "\\r"
    else if c == '\n' then "\\n"
    else if c == '\t' then "\\t"
    else [c]
  }

  function EscapeEach(s: string): string {
    if s == [] then [] else EscapeChar(s[0]) + EscapeEach(s[1..])
  }

  lemma {:induction false} ReplaceConcat(a: string, b: string, c: char, sub: string)
    ensures Replace(a + b, c, sub) == Replace(a, c, sub) + Replace(b, c, sub)
  {
    if a == [] {
      assert a + b == b;
    } else {
      ReplaceConcat(a[1..], b, c, sub);
      assert (a + b)[1..] == a[1..] + b;
      var first := if a[0] == c then sub else [a[0]];
      assert Replace(a + b, c, sub) == first + (Replace(a[1..], c, sub) + Replace(b, c, sub));
    }
  }

  lemma EscapeConcat(a: string, b: string)
    ensures TomlEscape(a + b) == TomlEscape(a) + TomlEscape(b)
  {
    ReplaceConcat(a, b, '\\', "\\\\");
    var a1, b1 := Replace(a, '\\', "\\\\"), Replace(b, '\\', "\\\\");
    ReplaceConcat(a1, b1, '\"', "\\\"");
    var a2, b2 := Replace(a1, '\"', "\\\""), Replace(b1, '\"', "\\\"");
    ReplaceConcat(a2, b2, '\r', "\\r");
    var a3, b3 := Replace(a2, '\r', "\\r"), Replace(b2, '\r', "\\r");
    ReplaceConcat(a3, b3, '\n', "\\n");
    ReplaceConcat(Replace(a3, '\n', "\\n"), Replace(b3, '\n', "\\n"), '\t', "\\t");
  }

  lemma ReplaceOne(x: char, c: char, sub: string)
    ensures Replace([x], c, sub) == if x == c then sub else [x]
  {
    assert [x][1..] == [];
  }

  lemma ReplaceTwo(x: char, y: char, c: char, sub: string)
    requires x != c && y != c
    ensures Replace([x, y], c, sub) == [x, y]
  {
    assert [x, y] == [x] + [y];
    ReplaceConcat([x], [y], c, sub);
    ReplaceOne(x, c, sub);
    ReplaceOne(y, c, sub);
  }

  /** No later replacement touches what an earlier one produced. */
  lemma EscapeOfOne(x: char)
    ensures TomlEscape([x]) == EscapeChar(x)
  {
    ReplaceOne(x, '\\', "\\\\");
    ReplaceOne(x, '\"', "\\\"");
    ReplaceOne(x, '\r', "\\r");
    ReplaceOne(x, '\n', "\\n");
    ReplaceOne(x, '\t', "\\t");
    if x in {'\\', '\"', '\r', '\n', '\t'} {
      var y := EscapeChar(x)[1];
      assert EscapeChar(x) == ['\\', y];
      if x == '\\' { ReplaceTwo('\\', y, '\"', "\\\""); }
      if x == '\\' || x == '\"' { ReplaceTwo('\\', y, '\r', "\\r"); }
      if x != '\n' && x != '\t' { ReplaceTwo('\\', y, '\n', "\\n"); }
      if x != '\t' { ReplaceTwo('\\', y, '\t', "\\t"); }
    }
  }

  /** The chain of replacements is one character-wise escape. */
  lemma {:induction false} EscapeIsCharacterwise(s: string)
    ensures TomlEscape(s) == EscapeEach(s)
  {
    if s != [] {
      EscapeIsCharacterwise(s[1..]);
      EscapeOfOne(s[0]);
      EscapeConcat([s[0]], s[1..]);
      assert s == [s[0]] + s[1..];
    }
  }

  function Unescaped(c: char): char {
    match c
    case 'n' => '\n'
    case 'r' => '\r'
    case 't' => '\t'
    case _ => c
  }

  /** TomlUnescape from a state in which `escape` says whether a backslash is pending. */
  function Unescape(s: string, escape: bool): string {
    if s == [] then (if escape then "\\" else "")
    else if escape then [Unescaped(s[0])] + Unescape(s[1..], false)
    else if s[0] == '\\' then Unescape(s[1..], true)
    else [s[0]] + Unescape(s[1..], false)
  }

  lemma UnescapeStep(text: string, s: string, i: nat, escape: bool)
    requires i < |s|
    ensures text + Unescape(s[i..], escape) ==
      if escape then text + [Unescaped(s[i])] + Unescape(s[i + 1..], false)
      else if s[i] == '\\' then text + Unescape(s[i + 1..], true)
      else text + [s[i]] + Unescape(s[i + 1..], false)
  {
    assert s[i..][1..] == s[i + 1..];
  }

  method TomlUnescape(value: string) returns (text: string)
    ensures text == Unescape(value, false)
  {
    text := "";
    var escape := false;
    for i := 0 to |value|
      invariant Unescape(value, false) == text + Unescape(value[i..], escape)
    {
      var c := value[i];
      UnescapeStep(text, value, i, escape);
      if !escape {
        if c == '\\' {
          escape := true;
        } else {
          text := text + [c];
        }
      } else {
        text := text + [Unescaped(c)];
        escape := false;
      }
    }
    if escape { text := text + "\\"; }
  }

  lemma {:induction false} UnescapeEscapeEach(s: string)
    ensures Unescape(EscapeEach(s), false) == s
  {
    if s != [] {
      UnescapeEscapeEach(s[1..]);
      var e, rest := EscapeChar(s[0]), EscapeEach(s[1..]);
      if |e| == 1 {
        assert (e + rest)[1..] == rest;
      } else {
        assert (e + rest)[1..] == [e[1]] + rest;
        assert ([e[1]] + rest)[1..] == rest;
      }
    }
  }

  /** Reading an escaped text gives the text back, for every text. */
  lemma UnescapeUndoesEscape(s: string)
    ensures Unescape(TomlEscape(s), false) == s
  {
    EscapeIsCharacterwise(s);
    UnescapeEscapeEach(s);
  }

  /** Unescaping piece by piece, for any text at all: a plain character stays, a backslash takes the
      next character with it, and a last one left over stays. */
  lemma UnescapeByPieces(c: char, s: string)
    ensures Unescape("", false) == "" && Unescape("\\", false) == "\\"
    ensures c != '\\' ==> Unescape([c] + s, false) == [c] + Unescape(s, false)
    ensures Unescape(['\\', c] + s, false) ==
      [if c == 'n' then '\n' else if c == 'r' then '\r' else if c == 't' then '\t' else c] + Unescape(s, false)
  {
    assert "\\"[1..] == "" && ([c] + s)[1..] == s;
    assert (['\\', c] + s)[1..] == [c] + s;
  }

  lemma {:induction false} EscapedHasNoLineBreak(s: string)
    ensures '\n' !in EscapeEach(s) && '\r' !in EscapeEach(s)
  {
    if s != [] { EscapedHasNoLineBreak(s[1..]); }
  }

  // ---- printing ----

  /** The kinds of line in the template. */
  datatype Item =
    | Empty
    | Section(name: string)
    | Bare(key: string, value: string)
    | Quoted(key: string, value: string)

  function LineOf(item: Item): string {
    match item
    case Empty => ""
    case Section(name) => "[" + name + "]"
    case Bare(key, value) => key + " = " + value
    case Quoted(key, value) => key + " = \"" + TomlEscape(value) + "\""
  }

  function LinesOf(items: seq<Item>): seq<string> {
    seq(|items|, i requires 0 <= i < |items| => LineOf(items[i]))
  }

  /** What the launcher has to tell the hooks. */
  datatype Auth = Auth(configServer: string, apiServer: string, username: string, password: string,
                       accountId: string, bindIp: string)

  /** The template of WriteAuthFile, line by line. */
  function Template(a: Auth): seq<Item> {
    [Quoted("ConfigServer", a.configServer),
     Quoted("ApiServer", a.apiServer),
     Bare("AutoJoinInvite", "false"),
     Bare("EnableOverlay", "true"),
     Empty,
     Section("User"),
     Quoted("Username", a.username),
     Quoted("Password", a.password),
     Quoted("AccountId", a.accountId),
     Empty,
     Section("Networking"),
     Quoted("IpAddress", a.bindIp),
     Empty,
     Section("Logging"),
     Quoted("Level", "INFO")]
  }

  /** Every line followed by a line break. */
  function Joined(lines: seq<string>, newline: string): string {
    if lines == [] then "" else lines[0] + newline + Joined(lines[1..], newline)
  }

  /** The text of the file: the template with its outer white space trimmed. */
  function FileText(a: Auth, newline: string): string {
    Trim(Joined(LinesOf(Template(a)), newline))
  }

  // ---- reading ----

  predicate IsBreak(c: char) { c == '\r' || c == '\n' }

  function FirstBreak(s: string): (k: nat)
    ensures k <= |s| && forall i :: 0 <= i < k ==> !IsBreak(s[i])
    ensures k < |s| ==> IsBreak(s[k])
  {
    if s == [] || IsBreak(s[0]) then 0 else 1 + FirstBreak(s[1..])
  }

  /** File.ReadAllLines: CR, LF and CR LF all end a line. */
  function ReadAllLines(s: string): seq<string>
    decreases |s|
  {
    if s == [] then []
    else
      var k := FirstBreak(s);
      if k == |s| then [s]
      else [s[..k]] + ReadAllLines(s[if s[k] == '\r' && k + 1 < |s| && s[k + 1] == '\n' then k + 2 else k + 1..])
  }

  predicate IsWord(c: char) {
    'A' <= c <= 'Z' || 'a' <= c <= 'z' || '0' <= c <= '9' || c == '_'
  }

  function WordLength(s: string): (k: nat)
    ensures k <= |s| && forall i :: 0 <= i < k ==> IsWord(s[i])
    ensures k < |s| ==> !IsWord(s[k])
  {
    if s == [] || !IsWord(s[0]) then 0 else 1 + WordLength(s[1..])
  }

  /** The name in a line that is [name] and nothing else. */
  function SectionOf(line: string): Option<string> {
    if |line| >= 3 && line[0] == '[' && line[|line| - 1] == ']' && WordLength(line[1..]) == |line| - 2
    then Some(line[1..|line| - 1])
    else None
  }

  /** Key and raw value of a line `name = "value"`; the value runs to the last quote of the line. */
  function EntryOf(line: string): Option<(string, string)> {
    var k := WordLength(line);
    var afterKey := TrimStart(line[k..]);
    if k == 0 || afterKey == [] || afterKey[0] != '=' then None
    else
      var afterEquals := TrimStart(afterKey[1..]);
      if afterEquals == [] || afterEquals[0] != '\"' then None
      else
        var body := TrimEnd(afterEquals[1..]);
        if body == [] || body[|body| - 1] != '\"' then None
        else Some((line[..k], body[..|body| - 1]))
  }

  /** The dictionary ignores case, so it is keyed by lower-case names. */
  type Values = map<string, string>

  datatype Reading = Reading(section: string, values: Values)

  function ReadLine(r: Reading, rawLine: string): Reading {
    var line := Trim(rawLine);
    if line == [] || line[0] == '#' then r
    else if SectionOf(line).Some? then r.(section := SectionOf(line).value)
    else
      match EntryOf(line)
      case None => r
      case Some((key, raw)) =>
        var name := if Blank(r.section) then key else r.section + "." + key;
        r.(values := r.values[Lower(name) := Unescape(raw, false)])
  }

  function ReadLines(r: Reading, lines: seq<string>): Reading
    decreases |lines|
  {
    if lines == [] then r else ReadLines(ReadLine(r, lines[0]), lines[1..])
  }

  method ReadScblTomlValues(text: string) returns (values: Values)
    ensures values == ReadLines(Reading("", map[]), ReadAllLines(text)).values
  {
    values := map[];
    var section := "";
    var lines := ReadAllLines(text);
    for i := 0 to |lines|
      invariant ReadLines(Reading("", map[]), lines) == ReadLines(Reading(section, values), lines[i..])
    {
      assert lines[i..][1..] == lines[i + 1..];
      var line := Trim(lines[i]);
      if line == [] || line[0] == '#' { continue; }
      var sectionMatch := SectionOf(line);
      if sectionMatch.Some? {
        section := sectionMatch.value;
        continue;
      }
      var m := EntryOf(line);
      if m.Some? {
        var key := if Blank(section) then m.value.0 else section + "." + m.value.0;
        var value := TomlUnescape(m.value.1);
        values := values[Lower(key) := value];
      }
    }
  }
}
