/**
 The filter that drops a chain-of-thought head from a stream of plain text.
 The marker patterns stay abstract: any function may say where the last marker
 of a text ends.
 */
module ReasoningStreams {
  import opened Wrappers
  import opened Words
  import opened Whitespace
  import opened LoopGuards

  const REASONING_HOLD: nat := 500

  /** End of the last marker, if the text has one. */
  type Markers = string -> Option<nat>

  function LastMarker(markers: Markers, text: string): Option<nat> {
    match markers(text)
    case None => None
    case Some(end) => Some(Min(end, |text|))
  }

  /** First index at or after `i` that is not white space. */
  function Align(text: string, i: nat): (r: nat)
    requires i <= |text|
    ensures i <= r <= |text|
    ensures forall k | i <= k < r :: IsSpace(text[k])
    ensures r < |text| ==> !IsSpace(text[r])
    decreases |text| - i
  {
    if i < |text| && IsSpace(text[i]) then Align(text, i + 1) else i
  }

  /** A serialized reply: JSON, a code fence, or nothing but white space so far. */
  predicate LooksStructured(text: string) {
    var head := text[Align(text, 0)..];
    head == "" || head[0] == '{' || head[0] == '[' || "```" <= head
  }

  datatype Filter = Filter(buf: string, baseHold: nat, feeds: nat, emitted: nat, structured: bool)

  predicate FilterOk(f: Filter) {
    f.emitted <= |f.buf|
  }

  function FreshFilter(hold: nat): Filter {
    Filter("", hold, 0, 0, false)
  }

  function Marked(markers: Markers, f: Filter): Option<nat> {
    if f.structured then None else LastMarker(markers, f.buf)
  }

  /** Where the not yet emitted answer starts. */
  function AnswerStart(markers: Markers, f: Filter): nat
    requires FilterOk(f)
  {
    var m := Marked(markers, f);
    if f.emitted == 0 && m.Some? then Align(f.buf, m.value) else f.emitted
  }

  /** The state after appending a chunk, before anything is emitted. */
  function Appended(f: Filter, chunk: string): Filter
    requires FilterOk(f)
    ensures FilterOk(Appended(f, chunk))
  {
    var text := f.buf + chunk;
    Filter(text, f.baseHold, f.feeds + 1, f.emitted, f.structured || LooksStructured(text))
  }

  function FilterFed(markers: Markers, f: Filter, chunk: string): (r: (Filter, string))
    requires FilterOk(f)
    ensures FilterOk(r.0)
  {
    var g := Appended(f, chunk);
    var start := AnswerStart(markers, g);
    var hold := HoldAt(g.baseHold, g.feeds);
    if Marked(markers, g).None? then (g.(emitted := |g.buf|), g.buf[g.emitted..])
    else if |g.buf| - start <= hold then (g, "")
    else (g.(emitted := |g.buf| - hold), g.buf[start..|g.buf| - hold])
  }

  function FilterTail(markers: Markers, f: Filter): string
    requires FilterOk(f)
  {
    f.buf[AnswerStart(markers, f)..]
  }

  class ReasoningStreamFilter {
    const markers: Markers
    var buf: string
    var baseHold: nat
    var feeds: nat
    var emitted: nat
    var structured: bool

    ghost function State(): Filter
      reads this
    {
      Filter(buf, baseHold, feeds, emitted, structured)
    }

    ghost predicate Valid()
      reads this
    {
      FilterOk(State())
    }

    constructor (markers: Markers, hold: nat)
      ensures Valid() && State() == FreshFilter(hold) && this.markers == markers
    {
      this.markers := markers;
      buf, baseHold, feeds, emitted, structured := "", hold, 0, 0, false;
    }

    function Hold(): nat
      reads this
    {
      HoldAt(baseHold, feeds)
    }

    /** Skips the marker head while nothing of the answer has gone out. */
    method Start(marker: Option<nat>) returns (start: nat)
      requires Valid() && marker == Marked(markers, State())
      ensures start == AnswerStart(markers, State())
    {
      start := emitted;
      if start == 0 && marker.Some? {
        start := marker.value;
        while start < |buf| && IsSpace(buf[start])
          invariant marker.value <= start <= |buf|
          invariant Align(buf, marker.value) == Align(buf, start)
        {
          start := start + 1;
        }
      }
    }

    method Feed(chunk: string) returns (out: string)
      requires Valid()
      modifies this
      ensures Valid() && (State(), out) == FilterFed(markers, old(State()), chunk)
    {
      feeds := feeds + 1;
      buf := buf + chunk;
      if !structured && LooksStructured(buf) {
        structured := true;
      }
      var marker := if structured then None else LastMarker(markers, buf);
      if marker.None? {
        out := buf[emitted..];
        emitted := |buf|;
        return;
      }
      var start := Start(marker);
      if |buf| - start <= Hold() {
        return "";
      }
      var safeEnd := |buf| - Hold();
      out := buf[start..safeEnd];
      emitted := safeEnd;
    }

    method Flush() returns (out: string)
      requires Valid()
      modifies this`emitted
      ensures Valid() && out == FilterTail(markers, old(State()))
      ensures State() == old(State()).(emitted := |buf|)
    {
      var marker := if structured then None else LastMarker(markers, buf);
      var start := Start(marker);
      out := buf[start..];
      emitted := |buf|;
    }
  }

  // ---- whole runs ----------------------------------------------------------------

  /** State and emitted text after feeding the chunks one by one. */
  function FilterRun(markers: Markers, hold: nat, chunks: seq<string>): (r: (Filter, string))
    ensures FilterOk(r.0)
  {
    if chunks == [] then (FreshFilter(hold), "")
    else
      var (f, out) := FilterRun(markers, hold, chunks[..|chunks| - 1]);
      var (g, more) := FilterFed(markers, f, chunks[|chunks| - 1]);
      (g, out + more)
  }

  /** The text looks structured after `k` chunks. */
  predicate StructuredAt(chunks: seq<string>, k: nat) {
    0 < k <= |chunks| && LooksStructured(Concat(chunks[..k]))
  }

  /** The text looked structured at some chunk boundary. */
  predicate StructuredBy(chunks: seq<string>) {
    exists k: nat | k <= |chunks| :: StructuredAt(chunks, k)
  }

  lemma StructuredAtFront(chunks: seq<string>, front: seq<string>, k: nat)
    requires front <= chunks && k <= |front|
    ensures StructuredAt(front, k) <==> StructuredAt(chunks, k)
  {
    assert chunks[..k] == front[..k];
  }

  lemma StructuredAtEnd(chunks: seq<string>)
    requires chunks != []
    ensures StructuredAt(chunks, |chunks|) <==> LooksStructured(Concat(chunks))
  {
    assert chunks[..|chunks|] == chunks;
  }

  lemma StructuredBySnoc(chunks: seq<string>, front: seq<string>)
    requires chunks != [] && front == chunks[..|chunks| - 1]
    ensures StructuredBy(chunks) <==> StructuredBy(front) || StructuredAt(chunks, |chunks|)
  {
    forall k: nat | k <= |front| ensures StructuredAt(front, k) <==> StructuredAt(chunks, k) {
      StructuredAtFront(chunks, front, k);
    }
  }

  /** The structure flag is up exactly when some boundary looked structured. */
  lemma {:induction false} StructuredIff(markers: Markers, hold: nat, chunks: seq<string>)
    ensures var f := FilterRun(markers, hold, chunks).0;
      f.buf == Concat(chunks) && f.baseHold == hold && (f.structured <==> StructuredBy(chunks))
  {
    if chunks != [] {
      StructuredIff(markers, hold, chunks[..|chunks| - 1]);
      ConcatFront(chunks);
      StructuredBySnoc(chunks, chunks[..|chunks| - 1]);
      StructuredAtEnd(chunks);
    }
  }

  /** Where the answer starts if emission begins after these chunks: behind the last marker and its white space. */
  function HeadEnd(markers: Markers, chunks: seq<string>): nat {
    var marker := LastMarker(markers, Concat(chunks));
    if StructuredBy(chunks) || marker.None? then 0 else Align(Concat(chunks), marker.value)
  }

  /** Emission began with chunk number `at`. */
  ghost predicate BeganAt(markers: Markers, hold: nat, chunks: seq<string>, at: nat) {
    && 0 < at <= |chunks|
    && FilterRun(markers, hold, chunks[..at - 1]).0.emitted == 0 < FilterRun(markers, hold, chunks[..at]).0.emitted
  }

  /** The emitted text so far is one slice of the input that begins at `start`. */
  ghost predicate OneSlice(input: string, f: Filter, out: string, start: nat) {
    && f.buf == input && f.emitted <= |input|
    && if f.emitted == 0 then out == "" else start < f.emitted && out == input[start..f.emitted]
  }

  /** The first piece starts where the answer does; every later piece where the last one ended. */
  lemma FedSlice(markers: Markers, f: Filter, chunk: string)
    requires FilterOk(f)
    ensures var (g, more) := FilterFed(markers, f, chunk);
      && g.buf == f.buf + chunk
      && if g.emitted == 0 then more == "" && f.emitted == 0
         else AnswerStart(markers, Appended(f, chunk)) <= g.emitted
              && more == g.buf[AnswerStart(markers, Appended(f, chunk))..g.emitted]
    ensures f.emitted > 0 ==> AnswerStart(markers, Appended(f, chunk)) == f.emitted
    ensures f.emitted == 0 < FilterFed(markers, f, chunk).0.emitted ==>
      AnswerStart(markers, Appended(f, chunk)) < FilterFed(markers, f, chunk).0.emitted
  {
  }

  lemma SliceGrows(input: string, chunk: string, start: nat, a: nat, b: nat)
    requires start <= a <= |input| && a <= b <= |input + chunk|
    ensures (input + chunk)[start..b] == input[start..a] + (input + chunk)[a..b]
  {
    SliceOfLonger(input, chunk, start, a);
    SliceJoin(input + chunk, start, a, b);
  }

  lemma SliceStep(markers: Markers, input: string, f: Filter, out: string, start: nat, chunk: string) returns (start': nat)
    requires OneSlice(input, f, out, start)
    ensures var (g, more) := FilterFed(markers, f, chunk);
      OneSlice(input + chunk, g, out + more, start')
    ensures f.emitted > 0 ==> start' == start
    ensures f.emitted == 0 ==> start' == AnswerStart(markers, Appended(f, chunk))
  {
    FedSlice(markers, f, chunk);
    start' := if f.emitted > 0 then start else AnswerStart(markers, Appended(f, chunk));
    var g := FilterFed(markers, f, chunk).0;
    if f.emitted > 0 {
      SliceGrows(input, chunk, start, f.emitted, g.emitted);
    }
  }

  /**
   Never a splice: over every run, what was emitted plus the final flush is the
   input from one place on.  That place follows the last marker, and its white
   space, of the text at the boundary where emission began, or at the end if the
   flush is the first to emit; it is the beginning when that text shows no marker
   or has looked structured.
   */
  lemma {:induction false} NeverSplices(markers: Markers, hold: nat, chunks: seq<string>) returns (at: nat)
    ensures if FilterRun(markers, hold, chunks).0.emitted == 0 then at == |chunks| else BeganAt(markers, hold, chunks, at)
    ensures var (f, out) := FilterRun(markers, hold, chunks);
      && HeadEnd(markers, chunks[..at]) <= |Concat(chunks)|
      && out + FilterTail(markers, f) == Concat(chunks)[HeadEnd(markers, chunks[..at])..]
  {
    var start;
    at, start := EmittedSlice(markers, hold, chunks);
    var (f, out) := FilterRun(markers, hold, chunks);
    SliceTail(markers, Concat(chunks), f, out, start);
    if f.emitted == 0 {
      at := |chunks|;
      StructuredIff(markers, hold, chunks);
      assert chunks[..|chunks|] == chunks;
    }
  }

  lemma SliceTail(markers: Markers, input: string, f: Filter, out: string, start: nat)
    requires OneSlice(input, f, out, start)
    ensures out + FilterTail(markers, f) == input[if f.emitted == 0 then AnswerStart(markers, f) else start..]
  {
    if f.emitted > 0 {
      SliceJoin(input, start, f.emitted, |input|);
    }
  }

  lemma {:induction false} EmittedSlice(markers: Markers, hold: nat, chunks: seq<string>) returns (at: nat, start: nat)
    ensures var (f, out) := FilterRun(markers, hold, chunks);
      && OneSlice(Concat(chunks), f, out, start)
      && (f.emitted > 0 ==> BeganAt(markers, hold, chunks, at) && start == HeadEnd(markers, chunks[..at]))
  {
    at, start := 0, 0;
    if chunks != [] {
      var n := |chunks|;
      var front := chunks[..n - 1];
      at, start := EmittedSlice(markers, hold, front);
      ConcatFront(chunks);
      var (f, out) := FilterRun(markers, hold, front);
      start := SliceStep(markers, Concat(front), f, out, start, chunks[n - 1]);
      if f.emitted == 0 {
        at := n;
        BeginsHere(markers, hold, chunks);
      } else {
        assert chunks[..at] == front[..at] && chunks[..at - 1] == front[..at - 1];
      }
    }
  }

  /** A filter that has emitted nothing yet starts behind the head of what it has seen. */
  lemma BeginsHere(markers: Markers, hold: nat, chunks: seq<string>)
    requires chunks != [] && FilterRun(markers, hold, chunks[..|chunks| - 1]).0.emitted == 0
    ensures var n := |chunks|;
      && chunks[..n] == chunks
      && AnswerStart(markers, Appended(FilterRun(markers, hold, chunks[..n - 1]).0, chunks[n - 1])) == HeadEnd(markers, chunks)
  {
    var front := chunks[..|chunks| - 1];
    StructuredIff(markers, hold, front);
    StructuredBySnoc(chunks, front);
    StructuredAtEnd(chunks);
    ConcatFront(chunks);
  }

  /** No marker shows at the last boundary, or the text has looked structured. */
  predicate FreeAtEnd(markers: Markers, chunks: seq<string>) {
    StructuredBy(chunks) || LastMarker(markers, Concat(chunks)).None?
  }

  /** After a feed without a marker everything is out. */
  lemma FreeFeed(markers: Markers, f: Filter, chunk: string)
    requires FilterOk(f) && Marked(markers, Appended(f, chunk)).None?
    ensures var g := FilterFed(markers, f, chunk).0; g.emitted == |g.buf| && Marked(markers, g).None?
  {
  }

  /** After a feed with one something is held back. */
  lemma MarkedFeed(markers: Markers, f: Filter, chunk: string)
    requires FilterOk(f) && Marked(markers, Appended(f, chunk)).Some? && f.baseHold > 0 && chunk != ""
    ensures var g := FilterFed(markers, f, chunk).0; g.emitted > 0 ==> g.emitted < |g.buf|
  {
  }

  lemma TailOfOut(markers: Markers, f: Filter)
    requires FilterOk(f)
    ensures f.emitted > 0 || Marked(markers, f).None? ==> |FilterTail(markers, f)| == |f.buf| - f.emitted
  {
  }

  /** Then the flush has nothing to add. */
  lemma FreeEndNoTail(markers: Markers, hold: nat, chunks: seq<string>)
    requires FreeAtEnd(markers, chunks)
    ensures FilterTail(markers, FilterRun(markers, hold, chunks).0) == ""
  {
    StructuredIff(markers, hold, chunks);
    TailOfOut(markers, FilterRun(markers, hold, chunks).0);
    if chunks != [] {
      FreeFeed(markers, FilterRun(markers, hold, chunks[..|chunks| - 1]).0, chunks[|chunks| - 1]);
    }
  }

  /** Otherwise, once something was emitted, it has. */
  lemma MarkedEndHasTail(markers: Markers, hold: nat, chunks: seq<string>)
    requires !FreeAtEnd(markers, chunks) && hold > 0
    requires chunks != [] && chunks[|chunks| - 1] != ""
    ensures var f := FilterRun(markers, hold, chunks).0; f.emitted > 0 ==> FilterTail(markers, f) != ""
  {
    StructuredIff(markers, hold, chunks);
    StructuredIff(markers, hold, chunks[..|chunks| - 1]);
    TailOfOut(markers, FilterRun(markers, hold, chunks).0);
    MarkedFeed(markers, FilterRun(markers, hold, chunks[..|chunks| - 1]).0, chunks[|chunks| - 1]);
  }

  /** Everything received has been passed on. */
  ghost predicate Untouched(input: string, f: Filter, out: string) {
    f.buf == input && out == input && f.emitted == |input|
  }

  lemma UntouchedStep(markers: Markers, input: string, f: Filter, out: string, chunk: string)
    requires Untouched(input, f, out)
    requires Marked(markers, Appended(f, chunk)).None?
    ensures var (g, more) := FilterFed(markers, f, chunk); Untouched(input + chunk, g, out + more)
  {
    DropConcat(input, chunk);
  }

  /** No chunk boundary shows a marker. */
  ghost predicate MarkerFree(markers: Markers, chunks: seq<string>) {
    chunks != [] ==> LastMarker(markers, Concat(chunks)).None? && MarkerFree(markers, chunks[..|chunks| - 1])
  }

  /** A stream without a marker at any chunk boundary is passed on at once and whole. */
  lemma {:induction false} HealthyStreamUntouched(markers: Markers, hold: nat, chunks: seq<string>)
    requires MarkerFree(markers, chunks)
    ensures var (f, out) := FilterRun(markers, hold, chunks);
      Untouched(Concat(chunks), f, out) && FilterTail(markers, f) == ""
  {
    if chunks != [] {
      var front, last := chunks[..|chunks| - 1], chunks[|chunks| - 1];
      HealthyStreamUntouched(markers, hold, front);
      ConcatFront(chunks);
      var (f, out) := FilterRun(markers, hold, front);
      UntouchedStep(markers, Concat(front), f, out, last);
    }
  }

  /**
   From the first boundary on at which a reply looks structured nothing is dropped
   or held back: everything not yet emitted there goes out as it came.
   */
  lemma {:induction false} StructuredVerbatim(markers: Markers, hold: nat, chunks: seq<string>, k: nat)
    requires StructuredAt(chunks, k)
    ensures var (f, out) := FilterRun(markers, hold, chunks);
      f.structured && PassedFrom(f, out, FilterRun(markers, hold, chunks[..k - 1]), Concat(chunks))
  {
    var front, last := chunks[..|chunks| - 1], chunks[|chunks| - 1];
    ConcatFront(chunks);
    StructuredIff(markers, hold, front);
    StructuredIff(markers, hold, chunks);
    var (f, out) := FilterRun(markers, hold, front);
    if k < |chunks| {
      StructuredAtFront(chunks, front, k);
      StructuredVerbatim(markers, hold, front, k);
      assert front[..k - 1] == chunks[..k - 1];
      PassedStep(markers, f, out, FilterRun(markers, hold, chunks[..k - 1]), Concat(front), last);
    }
  }

  /** All that was not emitted in `before` has been, and nothing is left. */
  ghost predicate PassedFrom(f: Filter, out: string, before: (Filter, string), text: string) {
    && f.buf == text && f.emitted == |text|
    && before.0.emitted <= |text| && out == before.1 + text[before.0.emitted..]
  }

  lemma PassedStep(markers: Markers, f: Filter, out: string, before: (Filter, string), text: string, chunk: string)
    requires f.structured && PassedFrom(f, out, before, text)
    ensures var (g, more) := FilterFed(markers, f, chunk); PassedFrom(g, out + more, before, text + chunk)
  {
    VerbatimStep(text, chunk, before.0.emitted, before.1);
  }

  lemma NothingLeft(markers: Markers, f: Filter)
    requires f.structured && f.emitted == |f.buf|
    ensures FilterTail(markers, f) == ""
  {
  }

  lemma VerbatimStep(text: string, chunk: string, from: nat, sent: string)
    requires from <= |text|
    ensures (sent + text[from..]) + (text + chunk)[|text|..] == sent + (text + chunk)[from..]
  {
    SplitConcat(text, chunk, from);
    DropConcat(text, chunk);
    Assoc(sent, text[from..], chunk);
  }

  predicate Blank(text: string) {
    Align(text, 0) == |text|
  }

  /** A reply with visible text that opens neither JSON nor a code fence. */
  predicate ProseReply(text: string) {
    !Blank(text) && !LooksStructured(text)
  }

  lemma {:induction false} AlignOfPrefix(a: string, b: string, i: nat)
    requires i <= |a| && Align(a, i) < |a|
    ensures Align(a + b, i) == Align(a, i)
    decreases |a| - i
  {
    if IsSpace(a[i]) {
      AlignOfPrefix(a, b, i + 1);
    }
  }

  lemma ProsePrefix(a: string, b: string)
    requires ProseReply(a + b)
    ensures LooksStructured(a) <==> Blank(a)
  {
    if !Blank(a) {
      AlignOfPrefix(a, b, 0);
      assert a[Align(a, 0)..][0] == a[Align(a, 0)];
    }
  }

  /**
   Marker stripping of a reply that starts with prose is off exactly when its
   first chunk is blank: then the reply goes out whole, whatever markers it shows.
   */
  lemma ProseUnstrippedIff(markers: Markers, hold: nat, chunks: seq<string>)
    requires ProseReply(Concat(chunks))
    ensures var (f, out) := FilterRun(markers, hold, chunks);
      && (f.structured <==> Blank(chunks[0]))
      && (f.structured ==> out == Concat(chunks) && FilterTail(markers, f) == "")
  {
    StructuredIff(markers, hold, chunks);
    ProseStructuredIff(chunks);
    if Blank(chunks[0]) {
      FirstBoundary(chunks);
      StructuredVerbatim(markers, hold, chunks, 1);
      NothingLeft(markers, FilterRun(markers, hold, chunks).0);
      assert chunks[..0] == [] && "" + Concat(chunks)[0..] == Concat(chunks);
    }
  }

  lemma FirstBoundary(chunks: seq<string>)
    requires chunks != [] && Blank(chunks[0])
    ensures StructuredAt(chunks, 1)
  {
    assert chunks[..1] == [chunks[0]] && Concat([chunks[0]]) == chunks[0] + Concat([]) == chunks[0];
  }

  lemma ProseStructuredIff(chunks: seq<string>)
    requires ProseReply(Concat(chunks))
    ensures StructuredBy(chunks) <==> Blank(chunks[0])
  {
    if Blank(chunks[0]) {
      FirstBoundary(chunks);
    }
    forall k: nat | k <= |chunks| && StructuredAt(chunks, k) ensures Blank(chunks[0]) {
      ConcatAppend(chunks[..k], chunks[k..]);
      assert chunks[..k] + chunks[k..] == chunks;
      ProsePrefix(Concat(chunks[..k]), Concat(chunks[k..]));
      if !Blank(chunks[0]) {
        LaterNotBlank(chunks, k);
      }
    }
  }

  lemma LaterNotBlank(chunks: seq<string>, k: nat)
    requires 0 < k <= |chunks| && !Blank(chunks[0])
    ensures !Blank(Concat(chunks[..k]))
  {
    assert Concat(chunks[..k]) == chunks[0] + Concat(chunks[..k][1..]);
    AlignOfPrefix(chunks[0], Concat(chunks[..k][1..]), 0);
  }

  /** Blank text counts as structured, and of prose nothing else does. */
  lemma BlankLooksStructured(text: string, more: string)
    requires ProseReply(text + more)
    ensures LooksStructured(text) <==> forall c | c in text :: IsSpace(c)
  {
    ProsePrefix(text, more);
    if Blank(text) {
      assert text[..|text|] == text;
    } else {
      assert text[Align(text, 0)] in text;
    }
  }

  lemma {:induction false} AlignBehindBlank(blank: string, s: string, i: nat)
    requires (forall c | c in blank :: IsSpace(c)) && (s == "" || !IsSpace(s[0])) && i <= |blank|
    ensures Align(blank + s, i) == |blank|
    decreases |blank| - i
  {
    if i < |blank| {
      assert (blank + s)[i] == blank[i] && blank[i] in blank;
      AlignBehindBlank(blank, s, i + 1);
    } else {
      assert s != "" ==> (blank + s)[i] == s[0];
    }
  }

  /** JSON objects and arrays, code fences and blank text count as structured, and nothing else. */
  lemma LooksStructuredIff(blank: string, s: string)
    requires (forall c | c in blank :: IsSpace(c)) && (s == "" || !IsSpace(s[0]))
    ensures LooksStructured(blank + s) <==> s == "" || s[0] in "{[" || (|s| >= 3 && s[0] == s[1] == s[2] == '`')
  {
    AlignBehindBlank(blank, s, 0);
    assert (blank + s)[|blank|..] == s;
    assert |"```"| == 3 && forall k | 0 <= k < 3 :: "```"[k] == '`';
  }
}
