/** Signed control-plane requests: the canonical message both sides sign, the server's check,
    and the client's recovery from a wrong clock.
    Text stands for its UTF-8 bytes; HMAC-SHA256 in hexadecimal is an arbitrary function. */
module Signing {
  import opened Common
  import opened Text

  const MAX_CLOCK_SKEW_SECONDS := 90
  const MAX_ATTEMPTS := 2

  type Mac = (string, string) -> string

  // ---- decimal numbers ----

  function Print(n: int): string { if n < 0 then "-" + Decimal(-n) else Decimal(n) }

  function ParseNat(s: string): Option<nat>
    decreases |s|
  {
    if s == [] || !('0' <= s[|s| - 1] <= '9') then None
    else
      var d := (s[|s| - 1] - '0') as int;
      if |s| == 1 then Some(d)
      else match ParseNat(s[..|s| - 1])
        case None => None
        case Some(n) => Some(10 * n + d)
  }

  /** Python's int() on plain decimal text. */
  function Parse(s: string): Option<int> {
    if s != [] && s[0] == '-' then
      match ParseNat(s[1..])
      case None => None
      case Some(n) => var magnitude: int := n; Some(-magnitude)
    else ParseNat(s)
  }

  lemma {:induction false} ParseDecimal(n: nat)
    ensures ParseNat(Decimal(n)) == Some(n)
  {
    if n >= 10 {
      ParseDecimal(n / 10);
      var s := Decimal(n);
      assert s[..|s| - 1] == Decimal(n / 10);
    }
  }

  lemma ParsePrint(n: int)
    ensures Parse(Print(n)) == Some(n)
    ensures '\n' !in Print(n) && Print(n) != "" && (Print(n)[0] == '-' <==> n < 0)
  {
    if n < 0 {
      ParseDecimal(-n);
      ParseNegative(Decimal(-n));
    } else {
      ParseDecimal(n);
    }
    DigitsOnly(Decimal(if n < 0 then -n else n));
  }

  lemma ParseNegative(s: string)
    ensures Parse("-" + s) == match ParseNat(s) case None => None case Some(n) => Some(-(n as int))
  {
    assert ("-" + s)[1..] == s;
  }

  lemma DigitsOnly(s: string)
    requires s != [] && forall i :: 0 <= i < |s| ==> '0' <= s[i] <= '9'
    ensures s[0] != '-' && '\n' !in s
  {
  }

  // ---- the canonical message ----

  function Canonical(timestamp: string, verb: string, path: string, body: string): string {
    timestamp + "\n" + Upper(verb) + "\n" + path + "\n" + body
  }

  lemma SplitAtFirstNewline(a: string, x: string, b: string, y: string)
    requires '\n' !in a && '\n' !in b
    requires a + "\n" + x == b + "\n" + y
    ensures a == b && x == y
  {
    var s, t := a + "\n" + x, b + "\n" + y;
    assert s[|a|] == '\n' && t[|b|] == '\n';
    assert |a| == |b|;
    assert a == s[..|a|] && b == t[..|b|];
    assert x == s[|a| + 1..] && y == t[|b| + 1..];
  }

  lemma UpperHasNoNewline(s: string)
    requires '\n' !in s
    ensures '\n' !in Upper(s)
  {
    forall i | 0 <= i < |s|
      ensures Upper(s)[i] != '\n'
    {
      assert s[i] in s;
    }
  }

  /** Two requests have the same signed message only if they agree in every part. */
  lemma CanonicalIsInjective(ts: string, verb: string, path: string, body: string,
                             ts': string, verb': string, path': string, body': string)
    requires '\n' !in ts && '\n' !in ts' && '\n' !in verb && '\n' !in verb' && '\n' !in path && '\n' !in path'
    requires Canonical(ts, verb, path, body) == Canonical(ts', verb', path', body')
    ensures ts == ts' && Upper(verb) == Upper(verb') && path == path' && body == body'
  {
    UpperHasNoNewline(verb);
    UpperHasNoNewline(verb');
    var tail, tail' := Upper(verb) + "\n" + (path + "\n" + body), Upper(verb') + "\n" + (path' + "\n" + body');
    assert Canonical(ts, verb, path, body) == ts + "\n" + tail;
    assert Canonical(ts', verb', path', body') == ts' + "\n" + tail';
    SplitAtFirstNewline(ts, tail, ts', tail');
    SplitAtFirstNewline(Upper(verb), path + "\n" + body, Upper(verb'), path' + "\n" + body');
    SplitAtFirstNewline(path, body, path', body');
  }

  // ---- client and server ----

  /** ControlPlaneService.Sign */
  function Sign(mac: Mac, secret: string, timestamp: int, verb: string, path: string, body: string): string {
    Lower(mac(secret, Canonical(Print(timestamp), verb, path, body)))
  }

  /** expected_signature: hexdigest() is lower case already. */
  function ExpectedSignature(mac: Mac, secret: string, timestamp: string, verb: string, path: string,
                             body: string): string {
    Lower(mac(secret, Canonical(timestamp, verb, path, body)))
  }

  datatype Verdict =
    | Accepted | NoServerSecret | MissingTimestamp | InvalidTimestamp | ClockSkew | MissingSignature | InvalidSignature

  function Abs(x: int): nat { if x < 0 then -x else x }

  /** authorization_failure_reason; `now` is the server's clock in whole seconds. */
  function Authorize(mac: Mac, secret: string, now: int, timestamp: string, signature: string,
                     verb: string, path: string, body: string): Verdict {
    if secret == "" then NoServerSecret
    else if timestamp == "" then MissingTimestamp
    else
      match Parse(timestamp)
      case None => InvalidTimestamp
      case Some(ts) =>
        if Abs(now - ts) > MAX_CLOCK_SKEW_SECONDS then ClockSkew
        else if signature == "" then MissingSignature
        else if ExpectedSignature(mac, secret, timestamp, verb, path, body) == Lower(signature) then Accepted
        else InvalidSignature
  }

  lemma LowerTwice(s: string)
    ensures Lower(Lower(s)) == Lower(s)
  {
  }

  /** Decimal text, perhaps with a minus sign, and nothing else is read as a number. */
  lemma {:induction false} ParseNatReadsDigits(s: string)
    ensures ParseNat(s).Some? <==> s != [] && forall i :: 0 <= i < |s| ==> IsDigit(s[i])
    decreases |s|
  {
    if |s| > 1 {
      ParseNatReadsDigits(s[..|s| - 1]);
      assert s == s[..|s| - 1] + [s[|s| - 1]];
    }
  }

  lemma ParseHasNoNewline(s: string)
    requires Parse(s).Some?
    ensures '\n' !in s && s != ""
  {
    ParseNatReadsDigits(s);
    if s != [] && s[0] == '-' { ParseNatReadsDigits(s[1..]); }
  }

  /** Exactly the requests with a timely number for a timestamp and with the mac of their own
      message for a signature are accepted. */
  lemma AcceptedIff(mac: Mac, secret: string, now: int, timestamp: string, signature: string,
                    verb: string, path: string, body: string)
    ensures Authorize(mac, secret, now, timestamp, signature, verb, path, body) == Accepted <==>
      && secret != "" && signature != ""
      && (exists ts :: Parse(timestamp) == Some(ts) && now - 90 <= ts <= now + 90)
      && Lower(signature) == Lower(mac(secret, timestamp + "\n" + Upper(verb) + "\n" + path + "\n" + body))
    ensures Authorize(mac, secret, now, timestamp, signature, verb, path, body) == ClockSkew <==>
      secret != "" && exists ts :: Parse(timestamp) == Some(ts) && !(now - 90 <= ts <= now + 90)
  {
    if Parse(timestamp).Some? { ParseHasNoNewline(timestamp); }
  }

  /** With a mac that tells messages apart, the signature of one request opens no other one. */
  lemma SignatureOpensOnlyItsRequest(mac: Mac, secret: string, now: int, timestamp: int, verb: string, path: string,
                                     body: string, ts': string, verb': string, path': string, body': string)
    requires forall m, m' :: Lower(mac(secret, m)) == Lower(mac(secret, m')) ==> m == m'
    requires '\n' !in verb && '\n' !in verb' && '\n' !in path && '\n' !in path'
    requires var signature := Sign(mac, secret, timestamp, verb, path, body);
      Authorize(mac, secret, now, ts', signature, verb', path', body') == Accepted
    ensures ts' == Print(timestamp) && Upper(verb') == Upper(verb) && path' == path && body' == body
  {
    var signature := Sign(mac, secret, timestamp, verb, path, body);
    AcceptedIff(mac, secret, now, ts', signature, verb', path', body');
    LowerTwice(mac(secret, Canonical(Print(timestamp), verb, path, body)));
    ParseHasNoNewline(ts');
    ParsePrint(timestamp);
    CanonicalIsInjective(Print(timestamp), verb, path, body, ts', verb', path', body');
  }

  /** A request signed with the server's secret is refused for its clock alone: it is accepted
      exactly when the timestamp is at most 90 seconds off. */
  lemma SignedRequestIsAcceptedIff(mac: Mac, secret: string, now: int, timestamp: int, verb: string, path: string,
                                   body: string)
    requires secret != "" && forall m :: mac(secret, m) != ""
    ensures var signature := Sign(mac, secret, timestamp, verb, path, body);
      var v := Authorize(mac, secret, now, Print(timestamp), signature, verb, path, body);
      && (v == Accepted <==> Abs(now - timestamp) <= MAX_CLOCK_SKEW_SECONDS)
      && (v == ClockSkew <==> Abs(now - timestamp) > MAX_CLOCK_SKEW_SECONDS)
  {
    ParsePrint(timestamp);
    LowerTwice(mac(secret, Canonical(Print(timestamp), verb, path, body)));
  }

  // ---- the retry loop ----

  /** What one attempt gets back: success, another status with the reason and the serverTimeUnixMs of
      its body, no answer (a timeout or a transient exception), or an answer of no use (invalid
      JSON or a final exception). */
  datatype Reply =
    | Success
    | Status(code: int, reason: string, serverTimeMs: Option<int>)
    | NoAnswer
    | Unusable

  /** One attempt: the local clock in milliseconds when signing and when the reply is handled. */
  datatype Attempt = Attempt(signedAt: int, reply: Reply, handledAt: int)

  function Seconds(ms: int): int { ms / 1000 }

  predicate IsTransientStatus(code: int) {
    code == 408 || code == 429 || code >= 500
  }

  /** A clock_skew rejection that tells the server's time. */
  predicate IsSkewRejection(r: Reply) {
    r.Status? && r.code == 401 && EqualIgnoringCase(r.reason, "clock_skew") && r.serverTimeMs.Some?
  }

  predicate Retries(r: Reply) {
    IsSkewRejection(r) || (r.Status? && IsTransientStatus(r.code)) || r.NoAnswer?
  }

  /** What is worth a second attempt: request timeout, too many requests, any server error, no answer
      at all, and a wrong clock whose error is known; nothing else. */
  lemma RetriesIff(r: Reply)
    ensures Retries(r) <==>
      match r
      case NoAnswer => true
      case Status(code, reason, time) =>
        code in {408, 429} || code > 499 || (code == 401 && Lower(reason) == "clock_skew" && time != None)
      case _ => false
  {
    assert Lower("clock_skew") == "clock_skew";
  }

  /** The clock offset after a reply that will be retried. */
  function OffsetAfter(offset: int, a: Attempt): int {
    if IsSkewRejection(a.reply)
    then Seconds(a.reply.serverTimeMs.value) - Seconds(a.handledAt)
    else offset
  }

  class ControlPlaneClient {
    var clockOffset: int

    constructor ()
      ensures clockOffset == 0
    {
      clockOffset := 0;
    }

    /** SendAsync: `attempts` is what the network and the clock would do.
        `stamps` are the timestamps of the requests actually sent. */
    method Send(attempts: seq<Attempt>) returns (ok: bool, stamps: seq<int>)
      requires |attempts| == MAX_ATTEMPTS
      modifies this
      ensures var first, offset := attempts[0], OffsetAfter(old(clockOffset), attempts[0]);
        if Retries(first.reply)
        then && stamps == [Seconds(first.signedAt) + old(clockOffset), Seconds(attempts[1].signedAt) + offset]
             && clockOffset == offset && ok == attempts[1].reply.Success?
        else && stamps == [Seconds(first.signedAt) + old(clockOffset)]
             && clockOffset == old(clockOffset) && ok == first.reply.Success?
    {
      ok, stamps := false, [];
      var attempt := 1;
      while attempt <= MAX_ATTEMPTS
        invariant 1 <= attempt <= MAX_ATTEMPTS + 1 && !ok
        invariant attempt == 1 ==> stamps == [] && clockOffset == old(clockOffset)
        invariant attempt == 2 ==>
          && Retries(attempts[0].reply)
          && stamps == [Seconds(attempts[0].signedAt) + old(clockOffset)]
          && clockOffset == OffsetAfter(old(clockOffset), attempts[0])
        invariant attempt <= 2
      {
        var a := attempts[attempt - 1];
        stamps := stamps + [Seconds(a.signedAt) + clockOffset];
        if a.reply.Success? { return true, stamps; }
        if IsSkewRejection(a.reply) && attempt < MAX_ATTEMPTS {
          clockOffset := Seconds(a.reply.serverTimeMs.value) - Seconds(a.handledAt);
        } else if !(((a.reply.Status? && IsTransientStatus(a.reply.code)) || a.reply.NoAnswer?)
                    && attempt < MAX_ATTEMPTS) {
          return false, stamps;
        }
        attempt := attempt + 1;
      }
    }
  }

  /** The timestamp of the retry is off by no more than the time the two clocks did not see
      together (the reply on its way and the retry on its way) plus under two seconds of rounding. */
  lemma RetryTimestampError(rejectedAt: int, handledAt: int, signedAt: int, checkedAt: int, elapsed: int)
    // The server's clock at the rejection and at the second check, the client's in between.
    requires elapsed == checkedAt - rejectedAt
    requires 0 <= signedAt - handledAt <= elapsed
    ensures var stamp := Seconds(signedAt) + (Seconds(rejectedAt) - Seconds(handledAt));
      var onTheWire := elapsed - (signedAt - handledAt);
      && checkedAt - onTheWire - 2000 < 1000 * stamp < checkedAt - onTheWire + 1000
      && 1000 * Abs(Seconds(checkedAt) - stamp) < onTheWire + 2000
  {
  }

  /** After a clock_skew rejection the retry is accepted, however wrong the client's clock is,
      as long as reply and retry spend less than 88 seconds on the wire. */
  lemma SkewedClientRecovers(mac: Mac, secret: string, offset: int, first: Attempt, second: Attempt, checkedAt: int,
                             verb: string, path: string, body: string)
    requires secret != "" && forall m :: mac(secret, m) != ""
    requires first.reply.Status? && first.reply.code == 401 && first.reply.reason == "clock_skew"
    requires first.reply.serverTimeMs.Some?
    requires first.handledAt <= second.signedAt
    requires var onTheWire := (checkedAt - first.reply.serverTimeMs.value) - (second.signedAt - first.handledAt);
      0 <= onTheWire <= 88_000
    ensures Retries(first.reply)
    ensures var stamp := Seconds(second.signedAt) + OffsetAfter(offset, first);
      var signature := Sign(mac, secret, stamp, verb, path, body);
      Authorize(mac, secret, Seconds(checkedAt), Print(stamp), signature, verb, path, body)
        == Accepted
  {
    var stamp := Seconds(second.signedAt) + OffsetAfter(offset, first);
    RetryTimestampError(first.reply.serverTimeMs.value, first.handledAt, second.signedAt, checkedAt,
                        checkedAt - first.reply.serverTimeMs.value);
    SignedRequestIsAcceptedIff(mac, secret, Seconds(checkedAt), stamp, verb, path, body);
  }
}
