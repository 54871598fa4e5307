/**
 The streaming hold-back that retracts a looping reply.  `Fed` is one call of
 `feed` on values, the class does the same on its fields, and the lemmas speak
 about whole runs of chunks.
 */
module LoopGuards {
  import opened Wrappers
  import opened Words
  import opened Repetition

  const DEFAULT_HOLD: nat := 1500
  const HOLD_FLOOR: nat := 300
  const SHRINK_AFTER_FEEDS: nat := 40
  const SHRINK_PER_FEED: nat := 30

  datatype Guard = Guard(buf: string, emitted: nat, baseHold: nat, feeds: nat, loopStart: int, detected: bool)

  function Initial(hold: nat): Guard {
    Guard("", 0, hold, 0, -1, false)
  }

  /** The hold-back size after `feeds` calls: it shrinks linearly for slow streams. */
  function HoldAt(baseHold: nat, feeds: nat): nat {
    var over := feeds - SHRINK_AFTER_FEEDS;
    if over <= 0 then baseHold else Max(HOLD_FLOOR, baseHold - over * SHRINK_PER_FEED)
  }

  /** `s[a:b]` for non-negative bounds, clamped as Python clamps them. */
  function Slice(s: string, a: nat, b: nat): string {
    if a <= b && a <= |s| then s[a..Min(b, |s|)] else ""
  }

  /** Where the loop begins, counted from the start of the whole text. */
  function LoopStart(text: string): Option<nat> {
    var cutoff := Cutoff(text, Some(SCAN_LIMIT));
    if cutoff.None? then None else Some(|text| - Min(|text|, SCAN_LIMIT) + cutoff.value)
  }

  lemma LoopStartInside(text: string)
    ensures LoopStart(text).Some? ==> LoopStart(text).value < |text|
  {
    var scan := Scan(text, Some(SCAN_LIMIT));
    if Cutoff(text, Some(SCAN_LIMIT)).Some? {
      OccurrenceEntry(Probe(scan), scan, 0);
    }
  }

  /** Only the last 4096 characters are searched; a text under 600 never shows a loop. */
  lemma LoopStartIff(text: string, scan: string)
    requires scan == if |text| > 4096 then text[|text| - 4096..] else text
    ensures |text| < 600 ==> LoopStart(text).None?
    ensures |text| >= 600 ==> (LoopStart(text).Some? <==> exists d: nat :: EvenCopies(scan, d))
  {
    if |text| >= 600 {
      FlaggedIff(text, Some(SCAN_LIMIT));
    }
  }

  /** The loop starts at the first copy of the last 200 characters in that part. */
  lemma LoopStartIs(text: string, scan: string, d: nat, k: nat)
    requires |text| >= 600 && scan == if |text| > 4096 then text[|text| - 4096..] else text
    requires EvenCopies(scan, d)
    requires var probe := scan[|scan| - 200..];
      OccursAt(probe, scan, k) && forall i | 0 <= i < k :: !OccursAt(probe, scan, i)
    ensures LoopStart(text) == Some(|text| - |scan| + k)
  {
    LoopStartIff(text, scan);
    CutAtFirstCopy(text, Some(SCAN_LIMIT));
  }

  function Release(g: Guard, limit: nat): (Guard, string) {
    if limit > g.emitted then (g.(emitted := limit), Slice(g.buf, g.emitted, limit)) else (g, "")
  }

  /** One `feed`: the new state and the text handed on. */
  function Fed(g: Guard, text: string): (Guard, string) {
    var g1 := g.(feeds := g.feeds + 1, buf := g.buf + text);
    if g.detected then Release(g1, Max(0, g.loopStart))
    else
      var start := LoopStart(g1.buf);
      if start.Some? then
        Release(g1.(loopStart := start.value, detected := true, buf := Slice(g1.buf, 0, start.value)), start.value)
      else
        Release(g1, Max(0, |g1.buf| - HoldAt(g1.baseHold, g1.feeds)))
  }

  /** What `flush` hands on at a clean end of the stream. */
  function Flushed(g: Guard): string {
    if g.detected then "" else Slice(g.buf, g.emitted, |g.buf|)
  }

  function Retracted(g: Guard): int {
    if g.detected then |g.buf| - g.emitted else 0
  }

  /** The detector on the scan window, its answer translated to the whole text. */
  method FindLoopStart(text: string) returns (r: Option<nat>)
    ensures r == LoopStart(text)
  {
    var cutoff := RepetitionCutoff(text, Some(SCAN_LIMIT));
    r := if cutoff.Some? then Some(|text| - Min(|text|, SCAN_LIMIT) + cutoff.value) else None;
  }

  class LoopGuard {
    var buf: string
    var emitted: nat
    var baseHold: nat
    var feeds: nat
    var loopStart: int
    var detected: bool

    ghost function State(): Guard
      reads this
    {
      Guard(buf, emitted, baseHold, feeds, loopStart, detected)
    }

    constructor (hold: nat)
      ensures State() == Initial(hold)
    {
      buf := "";
      emitted := 0;
      baseHold := hold;
      feeds := 0;
      loopStart := -1;
      detected := false;
    }

    function Hold(): nat
      reads this
    {
      HoldAt(baseHold, feeds)
    }

    method Feed(text: string) returns (out: string)
      modifies this
      ensures (State(), out) == Fed(old(State()), text)
    {
      feeds := feeds + 1;
      buf := buf + text;
      if !detected {
        var start := FindLoopStart(buf);
        if start.Some? {
          loopStart := start.value;
          detected := true;
          buf := Slice(buf, 0, loopStart);
        }
      }
      var limit := if detected then loopStart else |buf| - Hold();
      if limit < 0 {
        limit := 0;
      }
      if limit > emitted {
        out := Slice(buf, emitted, limit);
        emitted := limit;
      } else {
        out := "";
      }
    }

    method Flush() returns (out: string)
      modifies this`emitted
      ensures out == Flushed(old(State()))
      ensures State() == if old(detected) then old(State()) else old(State()).(emitted := |buf|)
    {
      if detected {
        return "";
      }
      out := Slice(buf, emitted, |buf|);
      emitted := |buf|;
    }
  }

  // ---- whole runs -----------------------------------------------------------

  /** State and released text after feeding the chunks one by one. */
  function Run(hold: nat, chunks: seq<string>): (Guard, string) {
    if chunks == [] then (Initial(hold), "")
    else
      var (g, out) := Run(hold, chunks[..|chunks| - 1]);
      var (g1, more) := Fed(g, chunks[|chunks| - 1]);
      (g1, out + more)
  }

  /** The number of chunks after which a loop is first visible in the text so far. */
  function FirstLoop(chunks: seq<string>): Option<nat> {
    if chunks == [] then None
    else
      var earlier := FirstLoop(chunks[..|chunks| - 1]);
      if earlier.Some? then earlier
      else if LoopStart(Concat(chunks)).Some? then Some(|chunks|)
      else None
  }

  lemma {:induction false} FirstLoopIsFirst(chunks: seq<string>)
    ensures var k := FirstLoop(chunks);
      && (k.Some? ==> 0 < k.value <= |chunks| && LoopStart(Concat(chunks[..k.value])).Some?)
      && forall i | 0 < i <= |chunks| && LoopStart(Concat(chunks[..i])).Some? :: k.Some? && k.value <= i
  {
    if chunks != [] {
      var front := chunks[..|chunks| - 1];
      FirstLoopIsFirst(front);
      assert chunks[..|chunks|] == chunks;
      assert forall i | 0 <= i < |chunks| :: chunks[..i] == front[..i];
    }
  }

  /** As long as no loop shows, the guard holds the whole input and has released a prefix of it. */
  ghost predicate Clean(hold: nat, input: string, g: Guard, out: string) {
    && !g.detected && g.buf == input && g.baseHold == hold
    && out <= input && |out| == g.emitted
    && |input| - |out| >= Min(|input|, Min(hold, HOLD_FLOOR))
  }

  lemma CleanStep(hold: nat, input: string, g: Guard, out: string, text: string)
    requires Clean(hold, input, g, out)
    requires LoopStart(input + text).None?
    ensures var (g1, more) := Fed(g, text); Clean(hold, input + text, g1, out + more)
  {
  }

  /** Exactly what has gone out once a loop is seen. */
  ghost predicate Stopped(input: string, released: string, g: Guard, out: string) {
    && LoopStart(input).Some? && released <= input
    && g.detected && g.loopStart == LoopStart(input).value
    && g.emitted == Max(|released|, g.loopStart)
    && g.loopStart < |input|
    && out == input[..Max(|released|, g.loopStart)]
  }

  lemma StopStep(hold: nat, input: string, g: Guard, out: string, text: string)
    requires Clean(hold, input, g, out)
    requires LoopStart(input + text).Some?
    ensures var (g1, more) := Fed(g, text);
      Stopped(input + text, out, g1, out + more)
      && Retracted(g1) == Min(0, LoopStart(input + text).value - |out|)
  {
    LoopStartInside(input + text);
  }

  lemma StoppedStep(input: string, released: string, g: Guard, out: string, text: string)
    requires Stopped(input, released, g, out)
    ensures var (g1, more) := Fed(g, text);
      more == "" && Stopped(input, released, g1, out + more)
  {
  }

  /** After the feeds the guard has stopped, at chunk `k`. */
  ghost predicate StoppedAt(hold: nat, chunks: seq<string>, k: nat) {
    && 0 < k <= |chunks|
    && var (g, out) := Run(hold, chunks);
       Stopped(Concat(chunks[..k]), Run(hold, chunks[..k - 1]).1, g, out)
  }

  /**
   Every run: while no prefix of the stream shows a loop the guard is clean; from
   the first chunk at which one does, the released text is the input up to the
   start of the loop, or what had been released before if that is longer.
   */
  lemma {:induction false} GuardRun(hold: nat, chunks: seq<string>)
    ensures var (g, out) := Run(hold, chunks);
      if FirstLoop(chunks).None? then Clean(hold, Concat(chunks), g, out)
      else StoppedAt(hold, chunks, FirstLoop(chunks).value)
  {
    if chunks != [] {
      var front := chunks[..|chunks| - 1];
      GuardRun(hold, front);
      if FirstLoop(front).Some? {
        GuardRunLater(hold, chunks, FirstLoop(front).value);
      } else {
        GuardRunFirst(hold, chunks);
      }
    }
  }

  /** A step behind the one at which the run stopped. */
  lemma GuardRunLater(hold: nat, chunks: seq<string>, k: nat)
    requires chunks != [] && StoppedAt(hold, chunks[..|chunks| - 1], k)
    ensures StoppedAt(hold, chunks, k)
  {
    var front := chunks[..|chunks| - 1];
    assert front[..k] == chunks[..k] && front[..k - 1] == chunks[..k - 1];
    var (g, out) := Run(hold, front);
    StoppedStep(Concat(chunks[..k]), Run(hold, chunks[..k - 1]).1, g, out, chunks[|chunks| - 1]);
  }

  /** The step at which the run stays clean or stops. */
  lemma GuardRunFirst(hold: nat, chunks: seq<string>)
    requires chunks != [] && FirstLoop(chunks[..|chunks| - 1]).None?
    requires var (g, out) := Run(hold, chunks[..|chunks| - 1]);
      Clean(hold, Concat(chunks[..|chunks| - 1]), g, out)
    ensures var (g, out) := Run(hold, chunks);
      if FirstLoop(chunks).None? then Clean(hold, Concat(chunks), g, out)
      else FirstLoop(chunks) == Some(|chunks|) && StoppedAt(hold, chunks, |chunks|)
  {
    var front, last := chunks[..|chunks| - 1], chunks[|chunks| - 1];
    ConcatFront(chunks);
    assert chunks[..|chunks|] == chunks;
    var (g, out) := Run(hold, front);
    if LoopStart(Concat(chunks)).Some? {
      StopStep(hold, Concat(front), g, out, last);
    } else {
      CleanStep(hold, Concat(front), g, out, last);
    }
  }

  /** The flag is up exactly when some chunk boundary showed a loop. */
  lemma DetectedIffLoop(hold: nat, chunks: seq<string>)
    ensures Run(hold, chunks).0.detected <==> FirstLoop(chunks).Some?
  {
    GuardRun(hold, chunks);
  }

  // ---- how much is held back ----------------------------------------------------------------

  /** All of the hold for forty feeds, then 30 characters less with every feed, down to 300. */
  function HeldAfter(hold: nat, feeds: nat): nat {
    if feeds <= 40 then hold else Max(300, hold - 30 * (feeds - 40))
  }

  lemma {:induction false} FeedsCounted(hold: nat, chunks: seq<string>)
    ensures Run(hold, chunks).0.feeds == |chunks|
  {
    if chunks != [] {
      FeedsCounted(hold, chunks[..|chunks| - 1]);
    }
  }

  /** What had to be out after chunk `i`. */
  function DueAt(hold: nat, chunks: seq<string>, i: nat): int
    requires i <= |chunks|
  {
    |Concat(chunks[..i])| - HeldAfter(hold, i)
  }

  lemma CleanReleases(hold: nat, input: string, g: Guard, out: string, text: string)
    requires Clean(hold, input, g, out) && LoopStart(input + text).None?
    ensures |out + Fed(g, text).1| == Max(|out|, |input + text| - HeldAfter(hold, g.feeds + 1))
  {
  }

  lemma LastRelease(hold: nat, chunks: seq<string>, front: seq<string>)
    requires chunks != [] && front == chunks[..|chunks| - 1] && FirstLoop(chunks).None?
    ensures FirstLoop(front).None?
    ensures |Run(hold, chunks).1| == Max(|Run(hold, front).1|, DueAt(hold, chunks, |chunks|))
  {
    GuardRun(hold, front);
    FeedsCounted(hold, front);
    ConcatFront(chunks);
    CleanReleases(hold, Concat(front), Run(hold, front).0, Run(hold, front).1, chunks[|chunks| - 1]);
    assert chunks[..|chunks|] == chunks;
  }

  /** Without a loop the guard has released, at every moment, exactly the most that any feed so far made due. */
  lemma {:induction false} ReleasedExactly(hold: nat, chunks: seq<string>)
    requires FirstLoop(chunks).None?
    ensures forall i: nat | i <= |chunks| && i > 0 :: |Run(hold, chunks).1| >= DueAt(hold, chunks, i)
    ensures Run(hold, chunks).1 == ""
            || exists i: nat | i <= |chunks| && i > 0 :: |Run(hold, chunks).1| == DueAt(hold, chunks, i)
  {
    if chunks != [] {
      var front := chunks[..|chunks| - 1];
      ReleasedExactly(hold, front);
      LastRelease(hold, chunks, front);
      assert forall i: nat | i < |chunks| :: chunks[..i] == front[..i];
      assert forall i: nat | i < |chunks| :: DueAt(hold, chunks, i) == DueAt(hold, front, i);
    }
  }

  /** The guard of the stream holds 1500 characters back. */
  lemma FirstRelease(x: string)
    requires LoopStart(x).None?
    ensures Run(DEFAULT_HOLD, [x]).1 == x[..Max(0, |x| - 1500)]
  {
    var (g, out) := Run(DEFAULT_HOLD, [x]);
    assert [x][..0] == [] && Run(DEFAULT_HOLD, []) == (Initial(DEFAULT_HOLD), "");
    assert "" + x == x;
  }

  lemma CleanFlush(hold: nat, input: string, g: Guard, out: string)
    requires Clean(hold, input, g, out)
    ensures out + Flushed(g) == input
    ensures |Flushed(g)| >= Min(|input|, Min(hold, 300))
  {
  }

  /** A stream without a loop reaches the client whole, and its last characters only at the flush. */
  lemma CleanStreamConserved(hold: nat, chunks: seq<string>)
    requires FirstLoop(chunks).None?
    ensures var (g, out) := Run(hold, chunks);
      && out + Flushed(g) == Concat(chunks)
      && |Flushed(g)| >= Min(|Concat(chunks)|, Min(hold, 300))
  {
    GuardRun(hold, chunks);
    var (g, out) := Run(hold, chunks);
    CleanFlush(hold, Concat(chunks), g, out);
  }

  lemma StoppedOutput(input: string, released: string, g: Guard, out: string)
    requires Stopped(input, released, g, out)
    ensures released <= out <= input && |out| == Max(|released|, LoopStart(input).value)
    ensures Flushed(g) == ""
  {
  }

  /**
   A stream that ran into a loop: the output is a prefix of the text seen at
   detection, later chunks and the flush add nothing, and nothing from the
   loop's start on goes out unless it was already out.
   */
  lemma LoopRetracted(hold: nat, chunks: seq<string>, k: nat)
    requires FirstLoop(chunks) == Some(k)
    ensures 0 < k <= |chunks| && LoopStart(Concat(chunks[..k])).Some?
    ensures var seen := Concat(chunks[..k]);
      var before := Run(hold, chunks[..k - 1]).1;
      var (g, out) := Run(hold, chunks);
      && before <= out <= seen
      && |out| == Max(|before|, LoopStart(seen).value)
      && Flushed(g) == ""
  {
    FirstLoopIsFirst(chunks);
    GuardRun(hold, chunks);
    var (g, out) := Run(hold, chunks);
    StoppedOutput(Concat(chunks[..k]), Run(hold, chunks[..k - 1]).1, g, out);
  }

  /** Streams that end in a short loop at some chunk boundary are stopped there or before. */
  lemma ShortLoopStopsStream(hold: nat, chunks: seq<string>, i: nat, p: nat)
    requires 0 < i <= |chunks|
    requires |Concat(chunks[..i])| >= WINDOW * MIN_COUNT && PeriodicTail(Concat(chunks[..i]), p)
    ensures FirstLoop(chunks).Some? && FirstLoop(chunks).value <= i
    ensures var text := Concat(chunks[..i]);
      LoopStart(text).Some? && LoopStart(text).value <= |text| - WINDOW - 2 * p
  {
    DetectionComplete(Concat(chunks[..i]), Some(SCAN_LIMIT), p);
    FirstLoopIsFirst(chunks);
  }

  /**
   The count of suppressed characters is never positive when the loop is reported: it is
   how far the loop starts in front of what is already out, as a negative number.
   */
  lemma RetractedNeverCounts(hold: nat, chunks: seq<string>)
    requires FirstLoop(chunks) == Some(|chunks|)
    ensures LoopStart(Concat(chunks)).Some?
    ensures Retracted(Run(hold, chunks).0)
         == Min(0, LoopStart(Concat(chunks)).value - |Run(hold, chunks[..|chunks| - 1]).1|)
  {
    var front, last := chunks[..|chunks| - 1], chunks[|chunks| - 1];
    LoopAtEnd(chunks, front);
    GuardRun(hold, front);
    ConcatFront(chunks);
    StopStep(hold, Concat(front), Run(hold, front).0, Run(hold, front).1, last);
  }

  lemma LoopAtEnd(chunks: seq<string>, front: seq<string>)
    requires FirstLoop(chunks) == Some(|chunks|) && chunks != [] && front == chunks[..|chunks| - 1]
    ensures FirstLoop(front).None? && LoopStart(Concat(chunks)).Some?
  {
    FirstLoopIsFirst(front);
  }

  /** Without a loop the count is 0. */
  lemma NothingRetracted(hold: nat, chunks: seq<string>)
    requires FirstLoop(chunks).None?
    ensures Retracted(Run(hold, chunks).0) == 0
  {
    DetectedIffLoop(hold, chunks);
  }
}
