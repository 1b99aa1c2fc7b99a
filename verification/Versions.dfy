/** Component version progression: no downgrade, and no new content under an unchanged version. */
module Versions {
  import opened Text

  const MAX_INT := 0x7FFF_FFFF

  /** How many digits `s` starts with. */
  function DigitsAhead(s: string): (k: nat)
    ensures k <= |s|
    ensures s != [] && IsDigit(s[0]) ==> k > 0
  {
    if s == [] || !IsDigit(s[0]) then 0 else 1 + DigitsAhead(s[1..])
  }

  function Number(digits: string): nat
    decreases |digits|
  {
    if digits == [] then 0
    else
      var c := digits[|digits| - 1];
      10 * Number(digits[..|digits| - 1]) + if IsDigit(c) then (c - '0') as int else 0
  }

  /** The values of the matches of [0-9]+, in order. */
  function Numbers(s: string): seq<nat>
    decreases |s|
  {
    if s == [] then []
    else if IsDigit(s[0]) then [Number(s[..DigitsAhead(s)])] + Numbers(s[DigitsAhead(s)..])
    else Numbers(s[1..])
  }

  /** int.Parse throws on a number that does not fit. */
  predicate Fits(ns: seq<nat>) { forall i :: 0 <= i < |ns| ==> ns[i] <= MAX_INT }

  function At(ns: seq<nat>, i: nat): nat { if i < |ns| then ns[i] else 0 }

  function Sign(a: int, b: int): int { if a < b then -1 else if a == b then 0 else 1 }

  function Max(a: int, b: int): int { if a < b then b else a }

  /** The first difference among components i..length, missing components being zero. */
  function CompareFrom(l: seq<nat>, r: seq<nat>, i: nat, length: nat): int
    decreases length - i
  {
    if i >= length then 0
    else if At(l, i) != At(r, i) then Sign(At(l, i), At(r, i))
    else CompareFrom(l, r, i + 1, length)
  }

  function Compare(l: seq<nat>, r: seq<nat>): int { CompareFrom(l, r, 0, Max(|l|, |r|)) }

  datatype Comparison = Order(sign: int) | NoDigits | Overflow

  method CompareComponentVersions(current: string, candidate: string) returns (c: Comparison)
    ensures c == CompareVersions(current, candidate)
  {
    var left, right := Numbers(current), Numbers(candidate);
    if !Fits(left) || !Fits(right) { return Overflow; }
    if |left| == 0 || |right| == 0 { return NoDigits; }
    var length := Max(|left|, |right|);
    for index := 0 to length
      invariant Compare(left, right) == CompareFrom(left, right, index, length)
    {
      var lhs := if index < |left| then left[index] else 0;
      var rhs := if index < |right| then right[index] else 0;
      if Sign(lhs, rhs) != 0 { return Order(Sign(lhs, rhs)); }
    }
    c := Order(0);
  }

  function CompareVersions(current: string, candidate: string): Comparison {
    var l, r := Numbers(current), Numbers(candidate);
    if !Fits(l) || !Fits(r) then Overflow
    else if l == [] || r == [] then NoDigits
    else Order(Compare(l, r))
  }

  // ---- the numbers in a text ----

  lemma {:induction false} NumberOfDecimal(n: nat)
    ensures Number(Decimal(n)) == n
  {
    var s := Decimal(n);
    if n >= 10 {
      NumberOfDecimal(n / 10);
      assert s[..|s| - 1] == Decimal(n / 10);
    } else {
      assert s == ['0' + n as char] && s[..0] == [];
    }
  }

  /** A version as it is usually written: numbers in decimal, joined by dots. */
  function Dotted(ns: seq<nat>): string
    requires ns != []
  {
    if |ns| == 1 then Decimal(ns[0]) else Decimal(ns[0]) + "." + Dotted(ns[1..])
  }

  lemma {:induction false} RunEnds(digits: string, rest: string)
    requires forall i :: 0 <= i < |digits| ==> IsDigit(digits[i])
    requires rest == [] || !IsDigit(rest[0])
    ensures DigitsAhead(digits + rest) == |digits|
  {
    if digits == [] {
      assert digits + rest == rest;
    } else {
      RunEnds(digits[1..], rest);
      assert (digits + rest)[1..] == digits[1..] + rest;
    }
  }

  /** A dotted version is read as exactly its numbers. */
  lemma {:induction false} DottedReadsBack(ns: seq<nat>)
    requires ns != []
    ensures Numbers(Dotted(ns)) == ns
  {
    var s, digits := Dotted(ns), Decimal(ns[0]);
    var rest := if |ns| == 1 then [] else "." + Dotted(ns[1..]);
    assert s == digits + rest;
    RunEnds(digits, rest);
    assert s[..|digits|] == digits && s[|digits|..] == rest;
    NumberOfDecimal(ns[0]);
    if |ns| > 1 {
      DottedReadsBack(ns[1..]);
      assert rest[1..] == Dotted(ns[1..]);
    }
  }

  // ---- the order ----

  /** Extra zero components make no difference. */
  lemma {:induction false} LongerComparison(l: seq<nat>, r: seq<nat>, i: nat, length: nat, longer: nat)
    requires |l| <= length && |r| <= length <= longer
    ensures CompareFrom(l, r, i, longer) == CompareFrom(l, r, i, length)
    decreases longer - i
  {
    if i < longer { LongerComparison(l, r, i + 1, length, longer); }
  }

  lemma {:induction false} FlipFrom(l: seq<nat>, r: seq<nat>, i: nat, length: nat)
    ensures CompareFrom(r, l, i, length) == -CompareFrom(l, r, i, length)
    decreases length - i
  {
    if i < length { FlipFrom(l, r, i + 1, length); }
  }

  lemma {:induction false} ChainFrom(a: seq<nat>, b: seq<nat>, c: seq<nat>, i: nat, length: nat)
    requires CompareFrom(a, b, i, length) <= 0 && CompareFrom(b, c, i, length) <= 0
    ensures CompareFrom(a, c, i, length) <= 0
    ensures CompareFrom(a, c, i, length) == 0 ==> CompareFrom(a, b, i, length) == 0 && CompareFrom(b, c, i, length) == 0
    decreases length - i
  {
    if i < length && At(a, i) == At(b, i) == At(c, i) { ChainFrom(a, b, c, i + 1, length); }
  }

  /** A total preorder on versions of any lengths: the sign flips with the sides, and it is transitive. */
  lemma VersionsAreTotallyPreordered(a: seq<nat>, b: seq<nat>, c: seq<nat>)
    ensures Compare(a, a) == 0 && Compare(b, a) == -Compare(a, b)
    ensures Compare(a, b) <= 0 && Compare(b, c) <= 0 ==> Compare(a, c) <= 0
    ensures Compare(a, b) <= 0 && Compare(b, c) <= 0 && Compare(a, c) == 0 ==> Compare(a, b) == 0 && Compare(b, c) == 0
  {
    var all := Max(|a|, Max(|b|, |c|));
    LongerComparison(a, b, 0, Max(|a|, |b|), all);
    LongerComparison(b, c, 0, Max(|b|, |c|), all);
    LongerComparison(a, c, 0, Max(|a|, |c|), all);
    FlipFrom(a, b, 0, Max(|a|, |b|));
    FlipFrom(a, a, 0, |a|);
    if Compare(a, b) <= 0 && Compare(b, c) <= 0 {
      ChainFrom(a, b, c, 0, all);
    }
  }

  /** Versions compare equal exactly when they agree after padding with zeros. */
  lemma {:induction false} EqualFrom(a: seq<nat>, b: seq<nat>, i: nat, length: nat)
    ensures CompareFrom(a, b, i, length) == 0 <==> forall k :: i <= k < length ==> At(a, k) == At(b, k)
    decreases length - i
  {
    if i < length { EqualFrom(a, b, i + 1, length); }
  }

  /** `l` is lower than `r` at its first difference, component `k`. */
  predicate LowerAt(l: seq<nat>, r: seq<nat>, k: nat) {
    k < |r| && (if k < |l| then l[k] < r[k] else 0 < r[k]) && forall j: nat :: j < k ==> SameAt(l, r, j)
  }

  /** Equal in component `j`, a missing one being zero. */
  predicate SameAt(l: seq<nat>, r: seq<nat>, j: nat) {
    if j < |l| && j < |r| then l[j] == r[j]
    else if j < |l| then l[j] == 0
    else j < |r| ==> r[j] == 0
  }

  ghost predicate Below(l: seq<nat>, r: seq<nat>) {
    exists k: nat :: LowerAt(l, r, k)
  }

  lemma {:induction false} LowerFrom(l: seq<nat>, r: seq<nat>, i: nat, length: nat)
    requires i <= length && |l| <= length && |r| <= length && forall j: nat :: j < i ==> At(l, j) == At(r, j)
    ensures CompareFrom(l, r, i, length) < 0 <==> Below(l, r)
    decreases length - i
  {
    assert forall j: nat :: SameAt(l, r, j) <==> At(l, j) == At(r, j);
    assert forall k: nat :: LowerAt(l, r, k) ==> At(l, k) < At(r, k);
    if i == length {
      assert forall k: nat :: At(l, k) == At(r, k);
    } else if At(l, i) == At(r, i) {
      LowerFrom(l, r, i + 1, length);
    } else if At(l, i) < At(r, i) {
      assert LowerAt(l, r, i);
    } else {
      assert forall k: nat :: LowerAt(l, r, k) ==> k == i;
    }
  }

  /** The comparison is lexicographic: 1.0 comes before 1.1, and 1.9 before 1.10. */
  lemma NegativeIffBelow(l: seq<nat>, r: seq<nat>)
    ensures Compare(l, r) < 0 <==> Below(l, r)
    ensures Compare(l, r) > 0 <==> Below(r, l)
    ensures Compare(l, r) == 0 <==> forall k: nat :: SameAt(l, r, k)
  {
    LowerFrom(l, r, 0, Max(|l|, |r|));
    LowerFrom(r, l, 0, Max(|l|, |r|));
    FlipFrom(l, r, 0, Max(|l|, |r|));
    EqualFrom(l, r, 0, Max(|l|, |r|));
    assert forall k: nat :: SameAt(l, r, k) <==> At(l, k) == At(r, k);
  }

  // ---- progression ----

  /** A component as recorded: its version text and the hash of its file. */
  datatype Component = Component(version: string, sha256: string)

  /** ^[0-9a-fA-F]{64}$, whose end also matches before a final newline. */
  predicate HashMatches(s: string) {
    IsSha256(if s != [] && s[|s| - 1] == '\n' then s[..|s| - 1] else s)
  }

  datatype Progression = Accepted | Downgrade | SameVersionNewHash | BadVersion

  function Validate(current: Component, candidate: Component): Progression {
    match CompareVersions(current.version, candidate.version)
    case Order(c) =>
      if c > 0 then Downgrade
      else if c == 0 && EqualIgnoringCase(current.version, candidate.version)
              && HashMatches(current.sha256) && !EqualIgnoringCase(current.sha256, candidate.sha256)
      then SameVersionNewHash
      else Accepted
    case _ => BadVersion
  }

  ghost predicate AcceptedChain(cs: seq<Component>) {
    forall i :: 0 < i < |cs| ==> Validate(cs[i - 1], cs[i]) == Accepted
  }

  lemma FitsIffSmall(ns: seq<nat>)
    ensures Fits(ns) <==> forall n :: n in ns ==> n <= 2_147_483_647
  {
    if forall n :: n in ns ==> n <= 2_147_483_647 {
      assert forall i :: 0 <= i < |ns| ==> ns[i] in ns;
    }
  }

  /** A recorded hash counts exactly if it is 32 bytes in hexadecimal, a final newline aside. */
  lemma HashMatchesIff(s: string)
    ensures HashMatches(s) <==>
      exists bytes :: |bytes| == 32 && (Lower(s) == HexText(bytes) || Lower(s) == HexText(bytes) + "\n")
  {
    assert |Lower(s)| == |s|;
    if s != [] && s[|s| - 1] == '\n' {
      var t := s[..|s| - 1];
      assert Lower(s) == Lower(t) + "\n";
      Sha256Iff(t);
      forall bytes | |bytes| == 32
        ensures Lower(s) == HexText(bytes) + "\n" <==> Lower(t) == HexText(bytes)
        ensures Lower(s) != HexText(bytes)
      {
        HexHasNoNewline(bytes);
        if Lower(s) == HexText(bytes) + "\n" {
          assert Lower(t) == Lower(s)[..|s| - 1] == HexText(bytes);
        }
        assert Lower(s)[|s| - 1] == '\n';
      }
    } else {
      Sha256Iff(s);
      assert s != [] ==> Lower(s)[|s| - 1] != '\n';
      forall bytes | |bytes| == 32
        ensures Lower(s) != HexText(bytes) + "\n"
      {
        assert (HexText(bytes) + "\n")[|HexText(bytes)|] == '\n';
      }
    }
  }

  /** An update is accepted exactly when both texts are version numbers, the candidate is not lower,
      and the same text does not come with another hash than the valid one on record. */
  lemma AcceptedIff(current: Component, candidate: Component)
    ensures var l, r := Numbers(current.version), Numbers(candidate.version);
      Validate(current, candidate) == Accepted <==>
        && l != [] && r != [] && !Below(r, l)
        && (forall n :: n in l ==> n <= 2_147_483_647) && (forall n :: n in r ==> n <= 2_147_483_647)
        && (EqualIgnoringCase(current.version, candidate.version) && HashMatches(current.sha256) ==>
              EqualIgnoringCase(current.sha256, candidate.sha256))
  {
    NegativeIffBelow(Numbers(current.version), Numbers(candidate.version));
    FitsIffSmall(Numbers(current.version));
    FitsIffSmall(Numbers(candidate.version));
    if EqualIgnoringCase(current.version, candidate.version) {
      SameNumbers(current.version, candidate.version);
      FlipFrom(Numbers(current.version), Numbers(current.version), 0, |Numbers(current.version)|);
    }
  }

  lemma {:induction false} ChainIsSorted(cs: seq<Component>, i: nat, j: nat)
    requires AcceptedChain(cs) && i < j < |cs|
    ensures Compare(Numbers(cs[i].version), Numbers(cs[j].version)) <= 0
    decreases j - i
  {
    assert Validate(cs[j - 1], cs[j]) == Accepted;
    if i < j - 1 {
      ChainIsSorted(cs, i, j - 1);
      VersionsAreTotallyPreordered(Numbers(cs[i].version), Numbers(cs[j - 1].version), Numbers(cs[j].version));
    }
  }

  /** Along any chain of accepted updates no version is lower than any earlier one. */
  lemma ChainsNeverDecrease(cs: seq<Component>, i: nat, j: nat)
    requires AcceptedChain(cs) && i < j < |cs|
    ensures !Below(Numbers(cs[j].version), Numbers(cs[i].version))
  {
    ChainIsSorted(cs, i, j);
    NegativeIffBelow(Numbers(cs[j].version), Numbers(cs[i].version));
    VersionsAreTotallyPreordered(Numbers(cs[i].version), Numbers(cs[j].version), []);
  }

  /** While the version text stays the same, so does a valid hash. */
  lemma {:induction false} SameTextKeepsHash(cs: seq<Component>, i: nat, j: nat)
    requires AcceptedChain(cs) && i <= j < |cs| && HashMatches(cs[i].sha256)
    requires forall k :: i <= k <= j ==> EqualIgnoringCase(cs[k].version, cs[i].version)
    ensures EqualIgnoringCase(cs[i].sha256, cs[j].sha256) && HashMatches(cs[j].sha256)
    decreases j - i
  {
    if i < j {
      SameTextKeepsHash(cs, i, j - 1);
      assert Validate(cs[j - 1], cs[j]) == Accepted;
      SameNumbers(cs[j - 1].version, cs[j].version);
      VersionsAreTotallyPreordered(Numbers(cs[j].version), Numbers(cs[j].version), Numbers(cs[j].version));
      SameHexDigits(cs[j - 1].sha256, cs[j].sha256);
    }
  }

  lemma SameHexDigits(a: string, b: string)
    requires EqualIgnoringCase(a, b) && HashMatches(a)
    ensures HashMatches(b)
  {
    assert |Lower(a)| == |a| && |Lower(b)| == |b|;
    forall i | 0 <= i < |b|
      ensures (IsHexDigit(a[i]) ==> IsHexDigit(b[i])) && (a[i] == '\n' <==> b[i] == '\n')
    {
      assert Lower(a)[i] == Lower(b)[i];
    }
  }

  lemma SameDigits(a: string, b: string, i: nat)
    requires EqualIgnoringCase(a, b) && i < |a|
    ensures |a| == |b| && (IsDigit(a[i]) <==> IsDigit(b[i])) && (IsDigit(a[i]) ==> a[i] == b[i])
  {
    assert |Lower(a)| == |a| && |Lower(b)| == |b| && Lower(a)[i] == Lower(b)[i];
  }

  lemma SameSuffix(a: string, b: string, k: nat)
    requires EqualIgnoringCase(a, b) && k <= |a|
    ensures |a| == |b| && EqualIgnoringCase(a[k..], b[k..])
  {
    assert |Lower(a)| == |a| && |Lower(b)| == |b|;
    assert Lower(a[k..]) == Lower(a)[k..] && Lower(b[k..]) == Lower(b)[k..];
  }

  lemma {:induction false} SameDigitsAhead(a: string, b: string)
    requires EqualIgnoringCase(a, b)
    ensures DigitsAhead(a) == DigitsAhead(b) && |a| == |b| && a[..DigitsAhead(a)] == b[..DigitsAhead(b)]
  {
    SameSuffix(a, b, 0);
    if a != [] {
      SameDigits(a, b, 0);
      if IsDigit(a[0]) {
        SameSuffix(a, b, 1);
        SameDigitsAhead(a[1..], b[1..]);
        assert a[..DigitsAhead(a)] == [a[0]] + a[1..][..DigitsAhead(a[1..])];
        assert b[..DigitsAhead(b)] == [b[0]] + b[1..][..DigitsAhead(b[1..])];
      }
    }
  }

  /** Letter case has no part in the numbers of a version. */
  lemma {:induction false} SameNumbers(a: string, b: string)
    requires EqualIgnoringCase(a, b)
    ensures Numbers(a) == Numbers(b)
    decreases |a|
  {
    SameSuffix(a, b, 0);
    if a != [] {
      SameDigits(a, b, 0);
      SameDigitsAhead(a, b);
      var k := if IsDigit(a[0]) then DigitsAhead(a) else 1;
      SameSuffix(a, b, k);
      SameNumbers(a[k..], b[k..]);
    }
  }

  // ---- when the hash of a version can change ----

  function Chain(vs: seq<string>, hs: seq<string>): (cs: seq<Component>)
    requires |vs| == |hs|
    ensures |cs| == |vs| && forall i :: 0 <= i < |cs| ==> cs[i] == Component(vs[i], hs[i])
  {
    seq(|vs|, i requires 0 <= i < |vs| => Component(vs[i], hs[i]))
  }

  /** Each text is a version not lower than the one before. */
  ghost predicate Progresses(vs: seq<string>) {
    forall i :: 0 < i < |vs| ==>
      CompareVersions(vs[i - 1], vs[i]).Order? && CompareVersions(vs[i - 1], vs[i]).sign <= 0
  }

  ghost predicate SameTexts(vs: seq<string>) {
    forall i :: 0 <= i < |vs| ==> EqualIgnoringCase(vs[i], vs[0])
  }

  /** The hashes `hs` make an accepted chain of `vs` that begins with a valid hash and loses it. */
  ghost predicate LosesHash(vs: seq<string>, hs: seq<string>) {
    && |vs| == |hs| > 0 && AcceptedChain(Chain(vs, hs)) && HashMatches(hs[0])
    && exists k :: 0 <= k < |hs| && !EqualIgnoringCase(hs[k], hs[0])
  }

  /** `h` up to version `k`, and `h'` from there on. */
  function Switch(n: nat, k: nat, h: string, h': string): seq<string> {
    seq(n, i requires 0 <= i < n => if i < k then h else h')
  }

  /** Where the text changes the hash may too, whatever the two hashes are. */
  lemma SwitchIsAccepted(vs: seq<string>, k: nat, h: string, h': string)
    requires Progresses(vs) && 0 < k < |vs| && !EqualIgnoringCase(vs[k - 1], vs[k])
    ensures AcceptedChain(Chain(vs, Switch(|vs|, k, h, h')))
  {
  }

  lemma {:induction false} TextChangesSomewhere(vs: seq<string>) returns (k: nat)
    requires vs != [] && !SameTexts(vs)
    ensures 0 < k < |vs| && !EqualIgnoringCase(vs[k - 1], vs[k])
    decreases |vs|
  {
    k := |vs| - 1;
    var shorter := vs[..k];
    if |vs| > 1 && EqualIgnoringCase(vs[k - 1], vs[k]) {
      assert forall i :: 0 <= i < k ==> shorter[i] == vs[i];
      k := TextChangesSomewhere(shorter);
    }
  }

  ghost predicate CanLoseHash(vs: seq<string>) {
    exists hs :: LosesHash(vs, hs)
  }

  lemma LosingNeedsChange(vs: seq<string>, hs: seq<string>)
    requires LosesHash(vs, hs)
    ensures Progresses(vs) && !SameTexts(vs)
  {
    var cs := Chain(vs, hs);
    var k :| 0 <= k < |hs| && !EqualIgnoringCase(hs[k], hs[0]);
    assert forall i :: 0 < i < |vs| ==> Validate(cs[i - 1], cs[i]) == Accepted;
    if SameTexts(vs) {
      SameTextKeepsHash(cs, 0, k);
    }
  }

  lemma ChangeCanLose(vs: seq<string>)
    requires vs != [] && Progresses(vs) && !SameTexts(vs)
    ensures CanLoseHash(vs)
  {
    var k := TextChangesSomewhere(vs);
    var h, h' := seq(64, _ => '0'), seq(64, _ => '1');
    SwitchIsAccepted(vs, k, h, h');
    assert Lower(h)[0] == '0' && Lower(h')[0] == '1';
    var hs := Switch(|vs|, k, h, h');
    assert hs[0] == h && hs[k] == h';
    assert LosesHash(vs, hs);
  }

  /** A sequence of version texts lets a valid hash change along some accepted chain exactly when
      the versions never decrease and their texts are not all the same. */
  lemma HashCanChangeIff(vs: seq<string>)
    requires vs != []
    ensures CanLoseHash(vs) <==> Progresses(vs) && !SameTexts(vs)
  {
    if CanLoseHash(vs) {
      var hs :| LosesHash(vs, hs);
      LosingNeedsChange(vs, hs);
    }
    if Progresses(vs) && !SameTexts(vs) {
      ChangeCanLose(vs);
    }
  }

  /** Another spelling of the version `ns`: the same with a zero component added. */
  lemma {:induction false} LongerSpelling(ns: seq<nat>)
    requires ns != []
    ensures |Dotted(ns + [0])| > |Dotted(ns)|
  {
    if |ns| > 1 {
      assert (ns + [0])[1..] == ns[1..] + [0];
      LongerSpelling(ns[1..]);
    } else {
      assert (ns + [0])[1..] == [0];
    }
  }

  lemma OtherSpellingIsAccepted(current: Component, candidate: Component)
    requires var l, r := Numbers(current.version), Numbers(candidate.version);
      l != [] && r != [] && Fits(l) && Fits(r) && Compare(l, r) == 0
    requires |current.version| != |candidate.version|
    ensures Validate(current, candidate) == Accepted
  {
    assert |Lower(current.version)| == |current.version| && |Lower(candidate.version)| == |candidate.version|;
  }

  /** A detour through another spelling of the same version lets its content change: 1.0, 1.0.0 and
      1.0 again, say, is an accepted chain whatever the three hashes are. */
  lemma RespellingCanChangeHash(ns: seq<nat>, h0: string, h1: string, h2: string)
    requires ns != [] && Fits(ns)
    ensures AcceptedChain([Component(Dotted(ns), h0), Component(Dotted(ns + [0]), h1), Component(Dotted(ns), h2)])
    ensures CanLoseHash([Dotted(ns), Dotted(ns + [0]), Dotted(ns)])
  {
    var v, v' := Dotted(ns), Dotted(ns + [0]);
    DottedReadsBack(ns);
    DottedReadsBack(ns + [0]);
    EqualFrom(ns, ns + [0], 0, |ns| + 1);
    EqualFrom(ns + [0], ns, 0, |ns| + 1);
    LongerSpelling(ns);
    OtherSpellingIsAccepted(Component(v, h0), Component(v', h1));
    OtherSpellingIsAccepted(Component(v', h1), Component(v, h2));
    var vs := [v, v', v];
    assert |Lower(v)| == |v| && |Lower(v')| == |v'| && !EqualIgnoringCase(vs[1], vs[0]);
    HashCanChangeIff(vs);
  }
}
