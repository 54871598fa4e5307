/**
 Runs of the composed filters in which the loop guard sees a loop.  A loop that first
 shows when the leftover thinking buffer is fed does not stop the reasoning tail.
 */
module LateLoops {
  import opened Wrappers
  import opened Words
  import opened Repetition
  import opened LoopGuards
  import opened ReasoningStreams
  import opened StreamPipeline
  import opened StreamOrder
  import TF = ThinkingFilter

  lemma TextStays(chunks: seq<string>, k: nat, front: seq<string>)
    requires k <= |chunks| && front == chunks[..k] && Concat(front) != ""
    ensures Concat(chunks) != ""
  {
    var back := chunks[k..];
    assert chunks == front + back;
    ConcatAppend(front, back);
  }

  lemma LoopShown(chunks: seq<string>) returns (k: nat)
    requires FirstLoop(chunks).Some?
    ensures k <= |chunks| && Concat(chunks[..k]) != ""
  {
    FirstLoopIsFirst(chunks);
    k := FirstLoop(chunks).value;
    LoopStartInside(Concat(chunks[..k]));
  }

  /** A chunk list that shows a loop carries text. */
  lemma LoopHasText(chunks: seq<string>)
    requires FirstLoop(chunks).Some?
    ensures Concat(chunks) != ""
  {
    var k := LoopShown(chunks);
    TextStays(chunks, k, chunks[..k]);
  }

  lemma LoopMeansReleased(markers: Markers, contents: seq<string>)
    requires FirstLoop(Outs(markers, AllPieces(contents))).Some?
    ensures !NothingReleased(markers, contents)
  {
    LoopHasText(Outs(markers, AllPieces(contents)));
    OutsConcat(markers, AllPieces(contents));
    ReleasedIff(markers, REASONING_HOLD, AllPieces(contents));
  }

  /** A loop seen while chunks come stays the end of the client's text. */
  lemma EarlyLoop(markers: Markers, contents: seq<string>)
    requires FirstLoop(Outs(markers, Pieces(contents))).Some?
    ensures ClientText(markers, contents) == Run(DEFAULT_HOLD, Outs(markers, AllPieces(contents))).1
  {
    assert Pieces(contents) <= AllPieces(contents);
    OutsGrow(markers, Pieces(contents), AllPieces(contents));
    SilentAfterLoop(DEFAULT_HOLD, Outs(markers, Pieces(contents)), Outs(markers, AllPieces(contents)));
  }

  /** A loop first seen at the last feed: the reasoning tail follows, and it is empty only if no marker shows. */
  lemma LateLoop(markers: Markers, contents: seq<string>)
    requires FirstLoop(Outs(markers, Pieces(contents))).None?
    requires FirstLoop(Outs(markers, AllPieces(contents))).Some?
    ensures ClientText(markers, contents)
         == Run(DEFAULT_HOLD, Outs(markers, AllPieces(contents))).1 + ReasoningTail(markers, contents)
    ensures ReasoningTail(markers, contents) == "" <==> FreeAtEnd(markers, AllPieces(contents))
  {
    var outs := Outs(markers, AllPieces(contents));
    LoopRetracted(DEFAULT_HOLD, outs, FirstLoop(outs).value);
    LoopMeansReleased(markers, contents);
    EndCases(markers, contents);
    var text := Run(DEFAULT_HOLD, outs).1 + ReasoningTail(markers, contents);
    assert text + "" == text;
  }

  lemma AddsNothingIff(sent: string, tail: string)
    ensures sent + tail == sent <==> tail == ""
  {
    assert |sent + tail| == |sent| + |tail|;
    assert sent + "" == sent;
  }

  /**
   Every run in which the guard sees a loop: the client gets what the guard released
   and nothing more exactly when the loop showed before the last feed, or no marker
   shows at the end.
   */
  lemma LoopEndsTextIff(markers: Markers, contents: seq<string>)
    requires FirstLoop(Outs(markers, AllPieces(contents))).Some?
    ensures ClientText(markers, contents) == Run(DEFAULT_HOLD, Outs(markers, AllPieces(contents))).1
            <==> FirstLoop(Outs(markers, Pieces(contents))).Some? || FreeAtEnd(markers, AllPieces(contents))
  {
    if FirstLoop(Outs(markers, Pieces(contents))).Some? {
      EarlyLoop(markers, contents);
    } else {
      LateLoop(markers, contents);
      AddsNothingIff(Run(DEFAULT_HOLD, Outs(markers, AllPieces(contents))).1, ReasoningTail(markers, contents));
    }
  }

  // ---- a family of replies whose loop reaches the client ---------------------------------

  /** Length of the shortest text in which a loop can show. */
  const SHORTEST: nat := WINDOW * MIN_COUNT

  lemma ShortNoLoop(text: string)
    requires |text| < SHORTEST
    ensures LoopStart(text).None?
  {
  }

  lemma FeedMarked(markers: Markers, f: Filter, chunk: string, g: Filter, start: nat, end: nat)
    requires FilterOk(f) && g == Appended(f, chunk)
    requires Marked(markers, g).Some? && AnswerStart(markers, g) == start < end
    requires end == |g.buf| - HoldAt(g.baseHold, g.feeds)
    ensures end <= |g.buf| && FilterFed(markers, f, chunk) == (g.(emitted := end), g.buf[start..end])
  {
  }

  lemma AppendFirst(a: string)
    requires !LooksStructured(a)
    ensures Appended(FreshFilter(REASONING_HOLD), a) == Filter(a, REASONING_HOLD, 1, 0, false)
  {
    assert "" + a == a;
  }

  /** A first piece longer than the hold: all but the hold goes out. */
  lemma LongFirstFeed(markers: Markers, a: string, m: nat, end: nat)
    requires MarkedHead(markers, a, m) && end == |a| - REASONING_HOLD > m
    ensures FilterFed(markers, FreshFilter(REASONING_HOLD), a) == (Filter(a, REASONING_HOLD, 1, end, false), a[m..end])
  {
    MarkedStart(markers, a, m, 1);
    AppendFirst(a);
    FeedMarked(markers, FreshFilter(REASONING_HOLD), a, Filter(a, REASONING_HOLD, 1, 0, false), m, end);
  }

  /** A later piece moves the hold on. */
  lemma LaterFeed(markers: Markers, a: string, b: string, c: string, m: nat, start: nat, end: nat)
    requires c == a + b && b != "" && MarkedHead(markers, c, m)
    requires 0 < start == |a| - REASONING_HOLD && end == |c| - REASONING_HOLD
    ensures FilterFed(markers, Filter(a, REASONING_HOLD, 1, start, false), b)
         == (Filter(c, REASONING_HOLD, 2, end, false), c[start..end])
  {
  }

  lemma OneRun(markers: Markers, a: string, f: Filter, u: string)
    requires FilterFed(markers, FreshFilter(REASONING_HOLD), a) == (f, u) && u != ""
    ensures FilterRun(markers, REASONING_HOLD, [a]).0 == f && Outs(markers, [a]) == [u]
  {
    RunSnoc(markers, [], a);
    assert [] + [a] == [a] && [] + [u] == [u];
  }

  lemma TwoRun(markers: Markers, a: string, f: Filter, u: string, b: string, g: Filter, v: string)
    requires FilterRun(markers, REASONING_HOLD, [a]).0 == f && Outs(markers, [a]) == [u]
    requires FilterOk(f) && FilterFed(markers, f, b) == (g, v) && v != ""
    ensures FilterRun(markers, REASONING_HOLD, [a, b]).0 == g && Outs(markers, [a, b]) == [u, v]
  {
    RunSnoc(markers, [a], b);
    assert [a] + [b] == [a, b] && [u] + [v] == [u, v];
  }

  /** Two pieces of a marked reply. */
  lemma TwoFeeds(markers: Markers, a: string, b: string, c: string, m: nat, start: nat, end: nat)
    requires c == a + b && b != "" && MarkedHead(markers, a, m) && MarkedHead(markers, c, m)
    requires m < start == |a| - REASONING_HOLD && end == |c| - REASONING_HOLD
    ensures FilterRun(markers, REASONING_HOLD, [a, b]).0 == Filter(c, REASONING_HOLD, 2, end, false)
    ensures Outs(markers, [a]) == [a[m..start]]
    ensures Outs(markers, [a, b]) == [a[m..start], c[start..end]]
  {
    LongFirstFeed(markers, a, m, start);
    LaterFeed(markers, a, b, c, m, start, end);
    OneRun(markers, a, Filter(a, REASONING_HOLD, 1, start, false), a[m..start]);
    TwoRun(markers, a, Filter(a, REASONING_HOLD, 1, start, false), a[m..start],
           b, Filter(c, REASONING_HOLD, 2, end, false), c[start..end]);
  }

  lemma TwoConcat(u: string, v: string)
    ensures Concat([u]) == u && Concat([u, v]) == u + v
  {
    assert Concat([u]) == u + Concat([]);
    assert [] + [u] == [u] && [u] + [v] == [u, v];
    ConcatSnoc([u], v);
  }

  /** A loop that the second of two pieces completes. */
  lemma TwoLoop(u: string, v: string)
    requires |u| < SHORTEST && LoopStart(u + v).Some?
    ensures FirstLoop([u]).None? && FirstLoop([u, v]) == Some(2)
  {
    TwoConcat(u, v);
    ShortNoLoop(u);
    assert [u][..0] == [] && [u, v][..1] == [u];
  }

  lemma FirstHeld(u: string)
    requires |u| <= DEFAULT_HOLD && LoopStart(u).None?
    ensures Run(DEFAULT_HOLD, [u]).1 == ""
  {
    assert [u][..0] == [];
    assert "" + u == u;
  }

  /** Then exactly what stands before the loop goes out. */
  lemma TwoOuts(u: string, v: string)
    requires |u| < SHORTEST && LoopStart(u + v).Some?
    ensures LoopStart(u + v).value <= |u + v| && Run(DEFAULT_HOLD, [u, v]).1 == (u + v)[..LoopStart(u + v).value]
  {
    TwoConcat(u, v);
    TwoLoop(u, v);
    ShortNoLoop(u);
    FirstHeld(u);
    LoopStartInside(u + v);
    assert [u, v][..1] == [u] && [u, v][..2] == [u, v];
    LoopRetracted(DEFAULT_HOLD, [u, v], 2);
  }

  /** The first piece alone is the first of the two. */
  lemma PiecesOf(c: string)
    requires '<' !in c && |c| > TF.HOLD_BACK
    ensures var n := |c| - TF.HOLD_BACK;
      Pieces([c]) == [c[..n]] && AllPieces([c]) == [c[..n], c[n..]]
  {
    PlainPieces(c);
    var s := TF.Stream([c]);
    assert Pieces([c]) == AllPieces([c])[..1] || Pieces([c]) == AllPieces([c]);
  }

  /** What the stages hand on of a marked chunk that is split into two pieces. */
  lemma Stages(markers: Markers, a: string, b: string, c: string, m: nat, start: nat, end: nat)
    requires Pieces([c]) == [a] && AllPieces([c]) == [a, b]
    requires c == a + b && b != "" && MarkedHead(markers, a, m) && MarkedHead(markers, c, m)
    requires m < start == |a| - REASONING_HOLD && end == |c| - REASONING_HOLD
    ensures Outs(markers, Pieces([c])) == [a[m..start]]
    ensures Outs(markers, AllPieces([c])) == [a[m..start], c[start..end]]
    ensures ReasoningTail(markers, [c]) == c[end..]
  {
    TwoFeeds(markers, a, b, c, m, start, end);
    TailFrom(markers, c, end);
  }

  /** If the second output completes a loop, what stands before the loop goes out, and then the tail. */
  lemma LoopThenTail(markers: Markers, c: string, u: string, v: string, tail: string)
    requires Outs(markers, Pieces([c])) == [u] && Outs(markers, AllPieces([c])) == [u, v]
    requires ReasoningTail(markers, [c]) == tail
    requires |u| < SHORTEST && LoopStart(u + v).Some?
    ensures FirstLoop(Outs(markers, Pieces([c]))).None? && FirstLoop(Outs(markers, AllPieces([c]))).Some?
    ensures LoopStart(u + v).value <= |u + v| && ClientText(markers, [c]) == (u + v)[..LoopStart(u + v).value] + tail
  {
    TwoLoop(u, v);
    TwoOuts(u, v);
    LateLoop(markers, [c]);
  }

  /** A slice of the first part of a cut is a slice of the whole. */
  lemma CutAt(c: string, n: nat, i: nat, j: nat)
    requires i <= j <= n <= |c|
    ensures c == c[..n] + c[n..] && c[..n][i..j] == c[i..j]
  {
  }

  /** The outputs for a marked chunk that is longer than head and the two holds. */
  lemma Outputs(markers: Markers, c: string, m: nat, start: nat, end: nat)
    requires '<' !in c && m < start && start + TF.HOLD_BACK == end == |c| - REASONING_HOLD
    requires MarkedHead(markers, c, m) && MarkedHead(markers, c[..|c| - TF.HOLD_BACK], m)
    ensures Outs(markers, Pieces([c])) == [c[m..start]]
    ensures Outs(markers, AllPieces([c])) == [c[m..start], c[start..end]]
    ensures ReasoningTail(markers, [c]) == c[end..]
  {
    var n := |c| - TF.HOLD_BACK;
    PiecesOf(c);
    CutAt(c, n, m, start);
    Stages(markers, c[..n], c[n..], c, m, start, end);
  }

  /**
   A chunk with a marked head of `m` characters, 600 to 629 characters that end in a
   loop, and 500 more: no loop shows while chunks come, one shows at the last feed,
   and the last 500 characters are sent behind it all the same.
   */
  lemma TailSentAfterLoop(markers: Markers, c: string, m: nat, end: nat)
    requires '<' !in c && end == |c| - 500 && m + 600 <= end < m + 630
    requires MarkedHead(markers, c, m) && MarkedHead(markers, c[..|c| - 30], m)
    requires LoopStart(c[m..end]).Some?
    ensures FirstLoop(Outs(markers, Pieces([c]))).None? && FirstLoop(Outs(markers, AllPieces([c]))).Some?
    ensures var k := LoopStart(c[m..end]).value;
      k <= |c[m..end]| && ClientText(markers, [c]) == c[m..end][..k] + c[end..]
  {
    var start := end - TF.HOLD_BACK;
    Outputs(markers, c, m, start, end);
    SliceJoin(c, m, start, end);
    LoopThenTail(markers, c, c[m..start], c[start..end], c[end..]);
  }

  /** In particular the last 500 characters of every loop with a period of at most a window. */
  lemma LoopReachesClient(markers: Markers, c: string, m: nat, end: nat, p: nat) returns (k: nat)
    requires '<' !in c && end == |c| - 500 && m + 600 <= end < m + 630
    requires MarkedHead(markers, c, m) && MarkedHead(markers, c[..|c| - 30], m)
    requires p <= WINDOW && HasPeriod(c[m..], p)
    ensures FirstLoop(Outs(markers, Pieces([c]))).None? && FirstLoop(Outs(markers, AllPieces([c]))).Some?
    ensures m + k + WINDOW + 2 * p <= end && ClientText(markers, [c]) == c[m..m + k] + c[end..]
  {
    SliceFront(c, m, end);
    LoopInPrefix(c[m..], p, c[m..end]);
    k := LoopStart(c[m..end]).value;
    TailSentAfterLoop(markers, c, m, end);
    SliceStart(c, m, end, k);
  }

  lemma SliceFront(c: string, m: nat, end: nat)
    requires m <= end <= |c|
    ensures c[m..end] <= c[m..]
  {
  }

  lemma SliceStart(c: string, m: nat, end: nat, k: nat)
    requires m + k <= end <= |c|
    ensures c[m..end][..k] == c[m..m + k]
  {
  }

  lemma LoopInPrefix(x: string, p: nat, seen: string)
    requires p <= WINDOW && HasPeriod(x, p) && seen <= x && |seen| >= SHORTEST
    ensures LoopStart(seen).Some? && LoopStart(seen).value + WINDOW + 2 * p <= |seen|
  {
    assert HasPeriod(seen, p);
    SuffixPeriod(seen, p, WINDOW + 2 * p);
    DetectionComplete(seen, Some(SCAN_LIMIT), p);
  }
}
