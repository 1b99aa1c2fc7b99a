/** The rate-limited log of refused control-plane requests.  Times are milliseconds. */
module AuthLogs {

  const LOG_INTERVAL_MS := 30_000

  /** A printed line for a key (source, endpoint, reason), reporting earlier suppressed ones. */
  datatype Line = Line(key: string, at: int, suppressed: nat)

  type Counts = map<string, nat>

  function Count(m: Counts, key: string): nat { if key in m then m[key] else 0 }

  /** Printed lines of a key, together with the suppressed rejections they report. */
  function Told(lines: seq<Line>, key: string): nat
    decreases |lines|
  {
    if lines == [] then 0
    else
      var last := lines[|lines| - 1];
      Told(lines[..|lines| - 1], key) + if last.key == key then 1 + last.suppressed else 0
  }

  /** Every rejection was printed, is reported by a printed line, or still counts as suppressed. */
  ghost predicate Balanced(rejections: Counts, lines: seq<Line>, suppressed: Counts) {
    forall key :: Count(rejections, key) == Told(lines, key) + Count(suppressed, key)
  }

  /** Lines of one key are at least 30 seconds apart, the last one being remembered. */
  ghost predicate Spaced(lines: seq<Line>, lastMs: map<string, int>) {
    && (forall i, j :: 0 <= i < j < |lines| && lines[i].key == lines[j].key ==>
          lines[j].at - lines[i].at >= 30_000)
    && (forall i :: 0 <= i < |lines| ==> lines[i].key in lastMs && lines[i].at <= lastMs[lines[i].key])
    && (forall key :: key in lastMs ==> PrintedAt(lines, key, lastMs[key]))
  }

  ghost predicate PrintedAt(lines: seq<Line>, key: string, at: int) {
    exists i :: 0 <= i < |lines| && lines[i].key == key && lines[i].at == at
  }

  /** A line of the key was printed less than 30 seconds ago; of a key without lines one is taken
      to have been printed at time 0. */
  ghost predicate JustPrinted(lines: seq<Line>, key: string, now: int) {
    || (exists i :: 0 <= i < |lines| && lines[i].key == key && now - lines[i].at < 30_000)
    || (now < 30_000 && forall i :: 0 <= i < |lines| ==> lines[i].key != key)
  }

  lemma ToldOneMore(lines: seq<Line>, line: Line, key: string)
    ensures Told(lines + [line], key) == Told(lines, key) + if line.key == key then 1 + line.suppressed else 0
  {
    assert (lines + [line])[..|lines|] == lines;
  }

  lemma SuppressingKeepsBalance(rejections: Counts, lines: seq<Line>, suppressed: Counts, key: string)
    requires Balanced(rejections, lines, suppressed)
    ensures Balanced(rejections[key := Count(rejections, key) + 1], lines,
                     suppressed[key := Count(suppressed, key) + 1])
  {
  }

  lemma PrintingKeepsBalance(rejections: Counts, lines: seq<Line>, suppressed: Counts, key: string, now: int)
    requires Balanced(rejections, lines, suppressed)
    ensures Balanced(rejections[key := Count(rejections, key) + 1], lines + [Line(key, now, Count(suppressed, key))],
                     suppressed - {key})
  {
    forall k
      ensures Count(rejections[key := Count(rejections, key) + 1], k) ==
        Told(lines + [Line(key, now, Count(suppressed, key))], k) + Count(suppressed - {key}, k)
    {
      ToldOneMore(lines, Line(key, now, Count(suppressed, key)), k);
    }
  }

  lemma PrintingKeepsSpacing(lines: seq<Line>, lastMs: map<string, int>, line: Line)
    requires Spaced(lines, lastMs) && (line.key in lastMs ==> line.at - lastMs[line.key] >= LOG_INTERVAL_MS)
    ensures Spaced(lines + [line], lastMs[line.key := line.at])
  {
    var more := lines + [line];
    assert more[|lines|] == line;
    forall key | key in lastMs && key != line.key
      ensures PrintedAt(more, key, lastMs[key])
    {
      var i :| 0 <= i < |lines| && lines[i].key == key && lines[i].at == lastMs[key];
      assert more[i] == lines[i];
    }
  }

  lemma LastTellsIffPrinted(lines: seq<Line>, lastMs: map<string, int>, key: string, now: int)
    requires Spaced(lines, lastMs)
    ensures now - (if key in lastMs then lastMs[key] else 0) < LOG_INTERVAL_MS <==> JustPrinted(lines, key, now)
  {
    if key in lastMs {
      var i :| 0 <= i < |lines| && lines[i].key == key && lines[i].at == lastMs[key];
    }
  }

  class AuthLog {
    var lastMs: map<string, int>
    var suppressed: Counts
    /** Everything printed so far. */
    var lines: seq<Line>
    /** How often each key was rejected. */
    ghost var rejections: Counts

    ghost predicate Valid() reads this {
      Balanced(rejections, lines, suppressed) && Spaced(lines, lastMs)
    }

    constructor ()
      ensures Valid() && lines == [] && rejections == map[]
    {
      lastMs, suppressed, lines, rejections := map[], map[], [], map[];
    }

    method LogRejection(key: string, now: int)
      requires Valid()
      modifies this
      ensures Valid()
      ensures rejections == old(rejections)[key := Count(old(rejections), key) + 1]
      ensures lines == if JustPrinted(old(lines), key, now) then old(lines)
                       else old(lines) + [Line(key, now, Count(old(suppressed), key))]
      ensures suppressed == if JustPrinted(old(lines), key, now)
                            then old(suppressed)[key := Count(old(suppressed), key) + 1] else old(suppressed) - {key}
    {
      var wait := MustWait(key, now);
      if wait {
        Suppress(key);
      } else {
        Print(key, now);
      }
    }

    method MustWait(key: string, now: int) returns (wait: bool)
      requires Valid()
      ensures wait == JustPrinted(lines, key, now)
      ensures !wait && key in lastMs ==> now - lastMs[key] >= LOG_INTERVAL_MS
    {
      LastTellsIffPrinted(lines, lastMs, key, now);
      var last := if key in lastMs then lastMs[key] else 0;
      wait := now - last < LOG_INTERVAL_MS;
    }

    method Suppress(key: string)
      requires Valid()
      modifies this
      ensures Valid() && lines == old(lines) && lastMs == old(lastMs)
      ensures rejections == old(rejections)[key := Count(old(rejections), key) + 1]
      ensures suppressed == old(suppressed)[key := Count(old(suppressed), key) + 1]
    {
      SuppressingKeepsBalance(rejections, lines, suppressed, key);
      suppressed := suppressed[key := Count(suppressed, key) + 1];
      rejections := rejections[key := Count(rejections, key) + 1];
    }

    method Print(key: string, now: int)
      requires Valid() && (key in lastMs ==> now - lastMs[key] >= LOG_INTERVAL_MS)
      modifies this
      ensures Valid() && suppressed == old(suppressed) - {key} && lastMs == old(lastMs)[key := now]
      ensures rejections == old(rejections)[key := Count(old(rejections), key) + 1]
      ensures lines == old(lines) + [Line(key, now, Count(old(suppressed), key))]
    {
      var line := Line(key, now, Count(suppressed, key));
      var more, told := lines + [line], lastMs[key := now];
      PrintingKeepsBalance(rejections, lines, suppressed, key, now);
      PrintingKeepsSpacing(lines, lastMs, line);
      assert Spaced(more, told);
      rejections := rejections[key := Count(rejections, key) + 1];
      suppressed, lastMs, lines := suppressed - {key}, told, more;
    }
  }
}
