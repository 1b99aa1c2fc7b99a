/** Reading the printed scbl.toml gives back exactly what was printed. */
module TomlRoundTrip {
  import opened Common
  import opened Text
  import opened Toml

  predicate IsNewline(s: string) { s == "\n" || s == "\r\n" }

  predicate OneLine(s: string) { '\n' !in s && '\r' !in s }

  predicate IsName(s: string) { s != [] && forall i :: 0 <= i < |s| ==> IsWord(s[i]) }

  lemma {:induction false} FirstBreakAfter(line: string, rest: string)
    requires OneLine(line) && (rest == [] || IsBreak(rest[0]))
    ensures FirstBreak(line + rest) == |line|
  {
    if line == [] {
      assert line + rest == rest;
    } else {
      assert line[0] in line;
      assert (line + rest)[1..] == line[1..] + rest;
      FirstBreakAfter(line[1..], rest);
    }
  }

  lemma ReadFirstLine(line: string, newline: string, rest: string)
    requires OneLine(line) && IsNewline(newline)
    ensures ReadAllLines(line + newline + rest) == [line] + ReadAllLines(rest)
  {
    var s := line + newline + rest;
    assert s == line + (newline + rest);
    FirstBreakAfter(line, newline + rest);
    assert s[..|line|] == line;
    assert s[|line| + |newline|..] == rest;
    if newline == "\n" { assert s[|line|] == '\n'; }
    else { assert s[|line|] == '\r' && s[|line| + 1] == '\n'; }
  }

  lemma JoinedFirst(line: string, lines: seq<string>, newline: string, last: string)
    ensures Joined([line] + lines, newline) + last == line + newline + (Joined(lines, newline) + last)
  {
    assert ([line] + lines)[1..] == lines;
  }

  lemma {:induction false} ReadJoined(lines: seq<string>, newline: string, last: string)
    requires IsNewline(newline) && OneLine(last) && last != []
    requires forall i :: 0 <= i < |lines| ==> OneLine(lines[i])
    ensures ReadAllLines(Joined(lines, newline) + last) == lines + [last]
  {
    if lines == [] {
      assert Joined(lines, newline) + last == last;
      assert last + [] == last;
      FirstBreakAfter(last, []);
    } else {
      ReadJoined(lines[1..], newline, last);
      JoinedFirst(lines[0], lines[1..], newline, last);
      ReadFirstLine(lines[0], newline, Joined(lines[1..], newline) + last);
      assert lines == [lines[0]] + lines[1..];
    }
  }

  lemma {:induction false} JoinedLast(lines: seq<string>, newline: string, last: string)
    ensures Joined(lines + [last], newline) == Joined(lines, newline) + last + newline
  {
    if lines == [] {
      assert lines + [last] == [last];
      assert Joined([last][1..], newline) == "";
    } else {
      JoinedLast(lines[1..], newline, last);
      assert (lines + [last])[1..] == lines[1..] + [last];
    }
  }

  lemma TrimEndDrops(s: string, c: char)
    requires IsSpace(c)
    ensures TrimEnd(s + [c]) == TrimEnd(s)
  {
    assert (s + [c])[..|s + [c]| - 1] == s;
  }

  lemma TrimDropsNewline(s: string, newline: string)
    requires s != [] && !IsSpace(s[0]) && !IsSpace(s[|s| - 1]) && IsNewline(newline)
    ensures Trim(s + newline) == s
  {
    assert TrimStart(s + newline) == s + newline;
    if newline == "\r\n" {
      assert s + newline == (s + ['\r']) + ['\n'];
      TrimEndDrops(s + ['\r'], '\n');
      TrimEndDrops(s, '\r');
    } else {
      assert s + newline == s + ['\n'];
      TrimEndDrops(s, '\n');
    }
  }

  // ---- single lines ----

  lemma {:induction false} WordLengthOf(name: string, rest: string)
    requires (forall i :: 0 <= i < |name| ==> IsWord(name[i])) && (rest == [] || !IsWord(rest[0]))
    ensures WordLength(name + rest) == |name|
  {
    if name == [] {
      assert name + rest == rest;
    } else {
      assert (name + rest)[1..] == name[1..] + rest;
      WordLengthOf(name[1..], rest);
    }
  }

  /** The dictionary key of an entry. */
  function KeyOf(section: string, key: string): string {
    Lower(if section == "" then key else section + "." + key)
  }

  lemma TrimStartOf(s: string)
    requires s != [] && !IsSpace(s[0])
    ensures TrimStart(" " + s) == s
  {
    assert (" " + s)[1..] == s;
  }

  lemma EntryParts(key: string, raw: string)
    requires IsName(key)
    ensures EntryOf(key + " = \"" + raw + "\"") == Some((key, raw))
  {
    var quoted, body := "\"" + raw + "\"", raw + "\"";
    KeyPart(key, quoted);
    assert key + " = \"" + raw + "\"" == key + " = " + quoted;
    assert quoted[1..] == body;
    assert TrimEnd(body) == body && body[..|body| - 1] == raw;
  }

  /** A line `key = value`, seen by the first half of the entry pattern. */
  lemma KeyPart(key: string, value: string)
    requires IsName(key) && value != [] && !IsSpace(value[0])
    ensures var line := key + " = " + value;
      && WordLength(line) == |key| && line[..|key|] == key
      && TrimStart(line[|key|..]) == "= " + value
      && TrimStart(("= " + value)[1..]) == value
  {
    var line := key + " = " + value;
    assert line == key + (" " + ("= " + value));
    WordLengthOf(key, " " + ("= " + value));
    assert line[|key|..] == " " + ("= " + value);
    TrimStartOf("= " + value);
    assert ("= " + value)[1..] == " " + value;
    TrimStartOf(value);
  }

  lemma BareValueIsSkipped(r: Reading, key: string, value: string)
    requires IsName(key) && value != [] && !IsSpace(value[0]) && !IsSpace(value[|value| - 1]) && value[0] != '\"'
    ensures ReadLine(r, key + " = " + value) == r
  {
    var line := key + " = " + value;
    assert line[0] == key[0] && line[|line| - 1] == value[|value| - 1];
    TrimIsIdentity(line);
    assert SectionOf(line).None?;
    KeyPart(key, value);
  }

  lemma SectionIsRead(r: Reading, name: string)
    requires IsName(name)
    ensures ReadLine(r, "[" + name + "]") == r.(section := name)
  {
    var line := "[" + name + "]";
    TrimIsIdentity(line);
    assert line[1..] == name + "]";
    WordLengthOf(name, "]");
    assert line[1..|line| - 1] == name;
  }

  /** The items the template is made of. */
  predicate Printable(item: Item) {
    match item
    case Empty => true
    case Section(name) => IsName(name)
    case Bare(key, value) =>
      IsName(key) && value != [] && IsWord(value[0]) && IsWord(value[|value| - 1]) && OneLine(value)
    case Quoted(key, _) => IsName(key)
  }

  /** What an item means to the reader. */
  function ReadItem(r: Reading, item: Item): Reading {
    match item
    case Section(name) => r.(section := name)
    case Quoted(key, value) => r.(values := r.values[KeyOf(r.section, key) := value])
    case _ => r
  }

  lemma ItemIsRead(r: Reading, item: Item)
    requires Printable(item) && (r.section == "" || IsName(r.section))
    ensures ReadLine(r, LineOf(item)) == ReadItem(r, item)
  {
    match item
    case Empty =>
    case Section(name) => SectionIsRead(r, name);
    case Bare(key, value) => BareValueIsSkipped(r, key, value);
    case Quoted(key, value) => QuotedIsRead(r, key, value);
  }

  lemma QuotedIsRead(r: Reading, key: string, value: string)
    requires IsName(key) && (r.section == "" || IsName(r.section))
    ensures ReadLine(r, LineOf(Quoted(key, value))) == r.(values := r.values[KeyOf(r.section, key) := value])
  {
    var raw := TomlEscape(value);
    EntryLine(key, raw);
    UnescapeUndoesEscape(value);
    NameIsNotBlank(r.section);
    EntryLineIsRead(r, LineOf(Quoted(key, value)), key, raw);
  }

  lemma EntryLine(key: string, raw: string)
    requires IsName(key)
    ensures var line := key + " = \"" + raw + "\"";
      Trim(line) == line && line[0] == key[0] && SectionOf(line).None? && EntryOf(line) == Some((key, raw))
  {
    var line := key + " = \"" + raw + "\"";
    assert line[0] == key[0] && line[|line| - 1] == '\"';
    TrimIsIdentity(line);
    EntryParts(key, raw);
  }

  lemma EntryLineIsRead(r: Reading, line: string, key: string, raw: string)
    requires line != [] && Trim(line) == line && IsWord(line[0])
    requires SectionOf(line).None? && EntryOf(line) == Some((key, raw))
    requires Blank(r.section) <==> r.section == ""
    ensures ReadLine(r, line) == r.(values := r.values[KeyOf(r.section, key) := Unescape(raw, false)])
  {
  }

  lemma NameIsNotBlank(s: string)
    requires s == "" || IsName(s)
    ensures Blank(s) <==> s == ""
  {
    TrimIsIdentity(s);
  }

  lemma ItemIsOneLine(item: Item)
    requires Printable(item)
    ensures OneLine(LineOf(item))
  {
    match item
    case Empty =>
    case Section(name) => NameIsOneLine(name);
    case Bare(key, value) => NameIsOneLine(key);
    case Quoted(key, value) =>
      NameIsOneLine(key);
      EscapeIsCharacterwise(value);
      EscapedHasNoLineBreak(value);
  }

  lemma NameIsOneLine(s: string)
    requires IsName(s)
    ensures OneLine(s)
  {
  }

  function ReadItems(r: Reading, items: seq<Item>): Reading
    decreases |items|
  {
    if items == [] then r else ReadItems(ReadItem(r, items[0]), items[1..])
  }

  lemma {:induction false} ItemsAreRead(r: Reading, items: seq<Item>)
    requires forall i :: 0 <= i < |items| ==> Printable(items[i])
    requires r.section == "" || IsName(r.section)
    ensures ReadLines(r, LinesOf(items)) == ReadItems(r, items)
    decreases |items|
  {
    if items != [] {
      ItemIsRead(r, items[0]);
      assert LinesOf(items)[1..] == LinesOf(items[1..]);
      ItemsAreRead(ReadItem(r, items[0]), items[1..]);
    }
  }

  // ---- the whole file ----

  lemma FileIsItsLines(items: seq<Item>, newline: string)
    requires forall i :: 0 <= i < |items| ==> Printable(items[i])
    requires |items| >= 2 && items[0].Quoted? && items[|items| - 1].Quoted? && IsNewline(newline)
    ensures ReadAllLines(Trim(Joined(LinesOf(items), newline))) == LinesOf(items)
  {
    var lines := LinesOf(items);
    var front, last := lines[..|lines| - 1], lines[|lines| - 1];
    assert lines == front + [last];
    forall i | 0 <= i < |lines|
      ensures OneLine(lines[i])
    {
      ItemIsOneLine(items[i]);
    }
    JoinedLast(front, newline, last);
    var text := Joined(front, newline) + last;
    assert text[0] == lines[0][0] == items[0].key[0] && text[|text| - 1] == last[|last| - 1] == '\"';
    TrimDropsNewline(text, newline);
    ReadJoined(front, newline, last);
  }

  /** The dictionary the launcher must find. */
  function Expected(a: Auth): Values {
    map[][KeyOf("", "ConfigServer") := a.configServer][KeyOf("", "ApiServer") := a.apiServer]
         [KeyOf("User", "Username") := a.username][KeyOf("User", "Password") := a.password]
         [KeyOf("User", "AccountId") := a.accountId][KeyOf("Networking", "IpAddress") := a.bindIp]
         [KeyOf("Logging", "Level") := "INFO"]
  }

  lemma ReadFrom(r: Reading, items: seq<Item>, i: nat)
    requires i < |items|
    ensures ReadItems(r, items[i..]) == ReadItems(ReadItem(r, items[i]), items[i + 1..])
  {
    assert items[i..][1..] == items[i + 1..];
  }

  lemma TemplateMeansExpected(a: Auth)
    ensures ReadItems(Reading("", map[]), Template(a)) == Reading("Logging", Expected(a))
  {
    var t := Template(a);
    var r := Reading("", map[]);
    assert t[0..] == t;
    ReadFrom(r, t, 0); r := ReadItem(r, t[0]);
    ReadFrom(r, t, 1); r := ReadItem(r, t[1]);
    ReadFrom(r, t, 2); r := ReadItem(r, t[2]);
    ReadFrom(r, t, 3); r := ReadItem(r, t[3]);
    ReadFrom(r, t, 4); r := ReadItem(r, t[4]);
    ReadFrom(r, t, 5); r := ReadItem(r, t[5]);
    ReadFrom(r, t, 6); r := ReadItem(r, t[6]);
    ReadFrom(r, t, 7); r := ReadItem(r, t[7]);
    ReadFrom(r, t, 8); r := ReadItem(r, t[8]);
    ReadFrom(r, t, 9); r := ReadItem(r, t[9]);
    ReadFrom(r, t, 10); r := ReadItem(r, t[10]);
    ReadFrom(r, t, 11); r := ReadItem(r, t[11]);
    ReadFrom(r, t, 12); r := ReadItem(r, t[12]);
    ReadFrom(r, t, 13); r := ReadItem(r, t[13]);
    ReadFrom(r, t, 14); r := ReadItem(r, t[14]);
  }

  /** For all values whatever, reading the printed file yields each of them under its
      section-qualified key, and nothing else. */
  lemma PrintedFileReadsBack(a: Auth, newline: string)
    requires IsNewline(newline)
    ensures ReadLines(Reading("", map[]), ReadAllLines(FileText(a, newline))).values == Expected(a)
  {
    TemplateIsPrintable(a);
    PrintableFileIsRead(Template(a), newline);
    TemplateMeansExpected(a);
  }

  lemma NameConcat(a: string, b: string)
    requires IsName(a) && IsName(b)
    ensures IsName(a + b)
  {
  }

  lemma TopNames()
    ensures IsName("ConfigServer") && IsName("ApiServer") && IsName("AutoJoinInvite") && IsName("EnableOverlay")
  {
    NameConcat("Config", "Server");
    NameConcat("Api", "Server");
    NameConcat("AutoJoin", "Invite");
    NameConcat("Enable", "Overlay");
    assert "Config" + "Server" == "ConfigServer" && "Api" + "Server" == "ApiServer";
    assert "AutoJoin" + "Invite" == "AutoJoinInvite" && "Enable" + "Overlay" == "EnableOverlay";
  }

  lemma UserNames()
    ensures IsName("User") && IsName("Username") && IsName("Password") && IsName("AccountId")
  {
  }

  lemma NetworkNames()
    ensures IsName("Networking") && IsName("IpAddress") && IsName("Logging") && IsName("Level")
  {
  }

  lemma TemplateIsPrintable(a: Auth)
    ensures forall i :: 0 <= i < |Template(a)| ==> Printable(Template(a)[i])
  {
    TopNames();
    UserNames();
    NetworkNames();
    var t := Template(a);
    assert Printable(t[0]) && Printable(t[1]) && Printable(t[2]) && Printable(t[3]) && Printable(t[4]);
    assert Printable(t[5]) && Printable(t[6]) && Printable(t[7]) && Printable(t[8]) && Printable(t[9]);
    assert Printable(t[10]) && Printable(t[11]) && Printable(t[12]) && Printable(t[13]) && Printable(t[14]);
  }

  lemma PrintableFileIsRead(items: seq<Item>, newline: string)
    requires forall i :: 0 <= i < |items| ==> Printable(items[i])
    requires |items| >= 2 && items[0].Quoted? && items[|items| - 1].Quoted? && IsNewline(newline)
    ensures ReadLines(Reading("", map[]), ReadAllLines(Trim(Joined(LinesOf(items), newline)))) ==
      ReadItems(Reading("", map[]), items)
  {
    FileIsItsLines(items, newline);
    ItemsAreRead(Reading("", map[]), items);
  }

  /** No two entries share a key, so each value can be looked up. */
  lemma ValuesAreFound(a: Auth)
    ensures Expected(a)[KeyOf("User", "Username")] == a.username
    ensures Expected(a)[KeyOf("User", "Password")] == a.password
    ensures Expected(a)[KeyOf("User", "AccountId")] == a.accountId
    ensures Expected(a)[KeyOf("Networking", "IpAddress")] == a.bindIp
    ensures Expected(a)[KeyOf("", "ConfigServer")] == a.configServer
    ensures Expected(a)[KeyOf("", "ApiServer")] == a.apiServer
  {
    assert |KeyOf("", "ConfigServer")| == 12 && |KeyOf("", "ApiServer")| == 9;
    assert |KeyOf("User", "Username")| == 13 && |KeyOf("User", "Password")| == 13 && |KeyOf("Logging", "Level")| == 13;
    assert |KeyOf("User", "AccountId")| == 14 && |KeyOf("Networking", "IpAddress")| == 20;
    assert KeyOf("User", "Username")[5] == 'u' && KeyOf("User", "Password")[5] == 'p';
    assert KeyOf("User", "Username")[0] == 'u' && KeyOf("User", "Password")[0] == 'u';
    assert KeyOf("Logging", "Level")[0] == 'l';
  }
}
