/** White space and trimming, as .NET and Go agree on them, letter case of ASCII letters, and
    decimal and hexadecimal text. */
module Text {
  import opened Common

  predicate IsSpace(c: char) {
    || c in {' ', '\t', '\n', '\r', '\U{0B}', '\U{0C}', '\U{85}', '\U{A0}', '\U{1680}'}
    || '\U{2000}' <= c <= '\U{200A}'
    || c in {'\U{2028}', '\U{2029}', '\U{202F}', '\U{205F}', '\U{3000}'}
  }

  function TrimStart(s: string): (r: string)
    ensures |r| <= |s|
    ensures r != [] ==> !IsSpace(r[0])
  {
    if s != [] && IsSpace(s[0]) then TrimStart(s[1..]) else s
  }

  function TrimEnd(s: string): (r: string)
    ensures |r| <= |s| && r == s[..|r|]
    ensures r != [] ==> !IsSpace(r[|r| - 1])
    decreases |s|
  {
    if s != [] && IsSpace(s[|s| - 1]) then TrimEnd(s[..|s| - 1]) else s
  }

  function Trim(s: string): string { TrimEnd(TrimStart(s)) }

  predicate Blank(s: string) { Trim(s) == [] }

  lemma {:induction false} TrimStartSplits(s: string) returns (space: string)
    ensures s == space + TrimStart(s) && forall i :: 0 <= i < |space| ==> IsSpace(space[i])
  {
    space := [];
    if s != [] && IsSpace(s[0]) {
      space := TrimStartSplits(s[1..]);
      space := [s[0]] + space;
    }
  }

  lemma {:induction false} TrimEndSplits(s: string) returns (space: string)
    ensures s == TrimEnd(s) + space && forall i :: 0 <= i < |space| ==> IsSpace(space[i])
    decreases |s|
  {
    space := [];
    if s != [] && IsSpace(s[|s| - 1]) {
      space := TrimEndSplits(s[..|s| - 1]);
      space := space + [s[|s| - 1]];
    }
  }

  /** Trimming takes white space off both ends, all of it and nothing else. */
  lemma TrimSplits(s: string) returns (before: string, after: string)
    ensures s == before + Trim(s) + after
    ensures forall i :: 0 <= i < |before| ==> IsSpace(before[i])
    ensures forall i :: 0 <= i < |after| ==> IsSpace(after[i])
    ensures Trim(s) != "" ==> !IsSpace(Trim(s)[0]) && !IsSpace(Trim(s)[|Trim(s)| - 1])
  {
    before := TrimStartSplits(s);
    after := TrimEndSplits(TrimStart(s));
  }

  /** A text whose ends are not white space is already trimmed. */
  lemma TrimIsIdentity(s: string)
    requires s != [] ==> !IsSpace(s[0]) && !IsSpace(s[|s| - 1])
    ensures Trim(s) == s
  {
  }

  function LowerChar(c: char): char { if 'A' <= c <= 'Z' then c - 'A' + 'a' else c }

  function UpperChar(c: char): char { if 'a' <= c <= 'z' then c - 'a' + 'A' else c }

  function Lower(s: string): string { seq(|s|, i requires 0 <= i < |s| => LowerChar(s[i])) }

  function Upper(s: string): string { seq(|s|, i requires 0 <= i < |s| => UpperChar(s[i])) }

  predicate EqualIgnoringCase(a: string, b: string) { Lower(a) == Lower(b) }

  predicate IsDigit(c: char) { '0' <= c <= '9' }

  function Digit(d: int): char requires 0 <= d < 10 { '0' + d as char }

  function Decimal(n: nat): (s: string)
    ensures s != [] && forall i :: 0 <= i < |s| ==> IsDigit(s[i])
  {
    if n < 10 then [Digit(n)] else Decimal(n / 10) + [Digit(n % 10)]
  }

  predicate IsHexDigit(c: char) { IsDigit(c) || 'a' <= c <= 'f' || 'A' <= c <= 'F' }

  /** SHA-256 in hexadecimal. */
  predicate IsSha256(s: string) { |s| == 64 && forall i :: 0 <= i < 64 ==> IsHexDigit(s[i]) }

  /** Two texts are equal ignoring case exactly when they have the same length and differ at most in
      the case of letters. */
  lemma EqualIgnoringCaseIff(a: string, b: string)
    ensures EqualIgnoringCase(a, b) <==>
      |a| == |b| && forall i :: 0 <= i < |a| ==> SameLetter(a[i], b[i])
  {
    assert |Lower(a)| == |a| && |Lower(b)| == |b|;
    if EqualIgnoringCase(a, b) {
      forall i | 0 <= i < |a|
        ensures SameLetter(a[i], b[i])
      {
        assert Lower(a)[i] == Lower(b)[i];
      }
    }
  }

  /** Changing case changes nothing but the case of letters, and leaves none of the other case. */
  lemma CaseChanges(s: string, i: nat)
    requires i < |s|
    ensures |Upper(s)| == |Lower(s)| == |s|
    ensures SameLetter(Upper(s)[i], s[i]) && !('a' <= Upper(s)[i] <= 'z')
    ensures SameLetter(Lower(s)[i], s[i]) && !('A' <= Lower(s)[i] <= 'Z')
  {
  }

  predicate SameLetter(a: char, b: char) {
    a == b || ('A' <= a <= 'Z' && b as int == a as int + 32) || ('A' <= b <= 'Z' && a as int == b as int + 32)
  }

  // ---- hexadecimal ----

  function HexText(bytes: seq<byte>): (s: string)
    ensures |s| == 2 * |bytes|
  {
    if bytes == [] then ""
    else ["0123456789abcdef"[bytes[0] / 16], "0123456789abcdef"[bytes[0] % 16]] + HexText(bytes[1..])
  }

  predicate AllHex(s: string) {
    forall i :: 0 <= i < |s| ==> IsHexDigit(s[i])
  }

  lemma HexDigitsAre(c: char) returns (d: int)
    requires IsHexDigit(c)
    ensures 0 <= d < 16 && LowerChar(c) == "0123456789abcdef"[d]
  {
    d := if IsDigit(c) then (c - '0') as int else if c >= 'a' then 10 + (c - 'a') as int else 10 + (c - 'A') as int;
  }

  lemma HexOneMore(high: int, low: int, rest: seq<byte>)
    requires 0 <= high < 16 && 0 <= low < 16
    ensures HexText([16 * high + low] + rest) == ["0123456789abcdef"[high], "0123456789abcdef"[low]] + HexText(rest)
  {
    var bytes: seq<byte> := [16 * high + low] + rest;
    assert bytes[1..] == rest && bytes[0] / 16 == high && bytes[0] % 16 == low;
  }

  lemma {:induction false} HexIsRead(s: string) returns (bytes: seq<byte>)
    requires |s| % 2 == 0 && AllHex(s)
    ensures 2 * |bytes| == |s| && Lower(s) == HexText(bytes)
    decreases |s|
  {
    bytes := [];
    if s != [] {
      var high := HexDigitsAre(s[0]);
      var low := HexDigitsAre(s[1]);
      var rest := HexIsRead(s[2..]);
      bytes := [16 * high + low] + rest;
      HexOneMore(high, low, rest);
      assert Lower(s) == [LowerChar(s[0]), LowerChar(s[1])] + Lower(s[2..]);
    }
  }

  lemma {:induction false} HexIsHex(bytes: seq<byte>, s: string)
    requires Lower(s) == HexText(bytes)
    ensures |s| == 2 * |bytes| && AllHex(s)
    decreases |bytes|
  {
    assert |Lower(s)| == |s|;
    if bytes != [] {
      assert Lower(s[2..]) == Lower(s)[2..];
      HexIsHex(bytes[1..], s[2..]);
      assert LowerChar(s[0]) == Lower(s)[0] && LowerChar(s[1]) == Lower(s)[1];
      assert AllHex(s) by {
        forall i | 0 <= i < |s|
          ensures IsHexDigit(s[i])
        {
          if i >= 2 { assert s[2..][i - 2] == s[i]; }
        }
      }
    }
  }

  /** A text passes for a SHA-256 exactly when it is, in either case, 32 bytes in hexadecimal. */
  lemma Sha256Iff(s: string)
    ensures IsSha256(s) <==> exists bytes :: |bytes| == 32 && Lower(s) == HexText(bytes)
  {
    if IsSha256(s) {
      assert AllHex(s);
      var bytes := HexIsRead(s);
    }
    if bytes :| |bytes| == 32 && Lower(s) == HexText(bytes) {
      HexIsHex(bytes, s);
      assert AllHex(s);
    }
  }

  lemma {:induction false} HexHasNoNewline(bytes: seq<byte>)
    ensures '\n' !in HexText(bytes)
  {
    if bytes != [] {
      HexHasNoNewline(bytes[1..]);
    }
  }
}
