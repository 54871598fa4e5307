/**
 What the composed filters deliver.  Quiet replies arrive whole and in order.
 The reasoning tail is sent before the loop guard's older text; order survives when
 one of the two is empty, and otherwise only when the two words commute.
 */
module StreamOrder {
  import opened Words
  import opened LoopGuards
  import opened ReasoningStreams
  import opened StreamPipeline
  import TF = ThinkingFilter
  import TB = ThinkingBatch

  /** No prefix of the text shows a marker or a loop. */
  ghost predicate Quiet(markers: Markers, text: string) {
    forall n | 0 <= n <= |text| :: LastMarker(markers, text[..n]).None? && LoopStart(text[..n]).None?
  }

  lemma QuietPrefix(markers: Markers, a: string, b: string)
    requires Quiet(markers, a + b)
    ensures Quiet(markers, a)
  {
    forall n | 0 <= n <= |a| ensures LastMarker(markers, a[..n]).None? && LoopStart(a[..n]).None? {
      assert (a + b)[..n] == a[..n];
    }
  }

  lemma QuietWhole(markers: Markers, a: string)
    requires Quiet(markers, a)
    ensures LastMarker(markers, a).None? && LoopStart(a).None?
  {
    assert a[..|a|] == a;
  }

  lemma {:induction false} QuietChunks(markers: Markers, chunks: seq<string>)
    requires Quiet(markers, Concat(chunks))
    ensures MarkerFree(markers, chunks) && FirstLoop(chunks).None?
  {
    if chunks != [] {
      ConcatFront(chunks);
      QuietPrefix(markers, Concat(chunks[..|chunks| - 1]), chunks[|chunks| - 1]);
      QuietWhole(markers, Concat(chunks));
      QuietChunks(markers, chunks[..|chunks| - 1]);
    }
  }

  lemma {:induction false} NoLoopBefore(outs: seq<string>, all: seq<string>)
    requires outs <= all && FirstLoop(all).None?
    ensures FirstLoop(outs).None?
    decreases |all|
  {
    if |outs| < |all| {
      NoLoopBefore(outs, all[..|all| - 1]);
    } else {
      assert outs == all;
    }
  }

  /** The client text of a run without a loop, stage by stage. */
  lemma ClientTextWithoutLoop(markers: Markers, contents: seq<string>)
    requires FirstLoop(Outs(markers, AllPieces(contents))).None?
    ensures var (g, sent) := Run(DEFAULT_HOLD, Outs(markers, AllPieces(contents)));
      ClientText(markers, contents)
        == (sent + FilterTail(markers, FilterRun(markers, REASONING_HOLD, AllPieces(contents)).0)) + Flushed(g)
  {
    assert Pieces(contents) <= AllPieces(contents);
    OutsGrow(markers, Pieces(contents), AllPieces(contents));
    NoLoopBefore(Outs(markers, Pieces(contents)), Outs(markers, AllPieces(contents)));
  }

  /**
   Every chunking of a reply whose text outside the thinking blocks is quiet
   delivers exactly that text.
   */
  lemma QuietReplyDelivered(markers: Markers, contents: seq<string>)
    requires Quiet(markers, TB.Delivered(TF.Process(Concat(contents), false)))
    ensures ClientText(markers, contents) == TB.Delivered(TF.Process(Concat(contents), false))
  {
    TF.ChunkingIndependent(contents);
    AllPiecesConcat(contents);
    var pieces := AllPieces(contents);
    QuietChunks(markers, pieces);
    HealthyStreamUntouched(markers, REASONING_HOLD, pieces);
    OutsConcat(markers, pieces);
    QuietChunks(markers, Outs(markers, pieces));
    ClientTextWithoutLoop(markers, contents);
    CleanStreamConserved(DEFAULT_HOLD, Outs(markers, pieces));
    var sent := Run(DEFAULT_HOLD, Outs(markers, pieces)).1;
    assert sent + "" == sent;
  }

  // ---- the order at the end of the stream -------------------------------------------

  function Power(w: string, n: nat): string {
    if n == 0 then "" else w + Power(w, n - 1)
  }

  lemma {:induction false} PowerSum(w: string, i: nat, j: nat)
    ensures Power(w, i) + Power(w, j) == Power(w, i + j)
  {
    if i > 0 {
      PowerSum(w, i - 1, j);
      Assoc(w, Power(w, i - 1), Power(w, j));
    } else {
      assert "" + Power(w, j) == Power(w, j);
    }
  }

  /** Two words commute exactly when both are powers of one word. */
  lemma CommuteIffPowers(u: string, v: string)
    ensures u + v == v + u <==> exists w, i, j :: u == Power(w, i) && v == Power(w, j)
  {
    if u + v == v + u {
      var w, i, j := CommonRoot(u, v);
    }
    if w, i, j :| u == Power(w, i) && v == Power(w, j) {
      PowerSum(w, i, j);
      PowerSum(w, j, i);
    }
  }

  lemma {:induction false} CommonRoot(u: string, v: string) returns (w: string, i: nat, j: nat)
    requires u + v == v + u
    ensures u == Power(w, i) && v == Power(w, j)
    decreases |u| + |v|, if u == "" || |u| <= |v| then 0 else 1
  {
    if u == "" {
      w, i, j := v, 0, 1;
      assert v + "" == v;
    } else if |u| <= |v| {
      var rest := v[|u|..];
      CancelCommon(u, v);
      w, i, j := CommonRoot(u, rest);
      PowerSum(w, i, j);
      j := i + j;
    } else {
      w, j, i := CommonRoot(v, u);
    }
  }

  lemma CancelCommon(u: string, v: string)
    requires u + v == v + u && |u| <= |v|
    ensures v == u + v[|u|..]
    ensures u + v[|u|..] == v[|u|..] + u
  {
    assert (u + v)[..|u|] == u && (v + u)[..|u|] == v[..|u|];
    var rest := v[|u|..];
    assert v == u + rest;
    assert (u + v)[|u|..] == v;
    assert (v + u)[|u|..] == rest + u;
  }

  /** Sending `tail` before `held` is harmless exactly when the two words commute. */
  lemma SwapTail(sent: string, held: string, tail: string)
    ensures (sent + tail) + held == (sent + held) + tail <==> tail + held == held + tail
  {
    Assoc(sent, tail, held);
    Assoc(sent, held, tail);
    if sent + (tail + held) == sent + (held + tail) {
      DropConcat(sent, tail + held);
      DropConcat(sent, held + tail);
    }
  }

  /** What the swap makes of an answer. */
  lemma SwapOutcome(client: string, answer: string, sent: string, held: string, tail: string)
    requires client == (sent + tail) + held && answer == (sent + held) + tail
    ensures tail == "" || held == "" ==> client == answer
    ensures client == answer <==> exists w, i, j :: tail == Power(w, i) && held == Power(w, j)
  {
    SwapTail(sent, held, tail);
    CommuteIffPowers(tail, held);
    assert tail + "" == tail == "" + tail && held + "" == held == "" + held;
  }

  lemma {:induction false} PiecesNonEmpty(contents: seq<string>)
    ensures "" !in Pieces(contents)
  {
    if contents != [] {
      PiecesNonEmpty(contents[..|contents| - 1]);
    }
  }

  /** The reasoning filter's answer: the delivered text behind the marker head. */
  function Answer(markers: Markers, contents: seq<string>, at: nat): string
    requires at <= |AllPieces(contents)|
    requires HeadEnd(markers, AllPieces(contents)[..at]) <= |TB.Delivered(TF.Stream(contents))|
  {
    TB.Delivered(TF.Stream(contents))[HeadEnd(markers, AllPieces(contents)[..at])..]
  }

  /** What the guard still holds when the reasoning tail goes out. */
  function Held(markers: Markers, contents: seq<string>): string {
    Flushed(Run(DEFAULT_HOLD, Outs(markers, AllPieces(contents))).0)
  }

  /** What the reasoning filter still holds. */
  function ReasoningTail(markers: Markers, contents: seq<string>): string {
    FilterTail(markers, FilterRun(markers, REASONING_HOLD, AllPieces(contents)).0)
  }

  /** The filter has passed nothing on to the guard. */
  predicate NothingReleased(markers: Markers, contents: seq<string>) {
    FilterRun(markers, REASONING_HOLD, AllPieces(contents)).0.emitted == 0
  }

  /** Answer, tail and held-back text of a run without a loop. */
  lemma AnswerInStages(markers: Markers, contents: seq<string>) returns (at: nat, sent: string)
    requires FirstLoop(Outs(markers, AllPieces(contents))).None?
    ensures at <= |AllPieces(contents)|
    ensures HeadEnd(markers, AllPieces(contents)[..at]) <= |TB.Delivered(TF.Stream(contents))|
    ensures NothingReleased(markers, contents) || BeganAt(markers, REASONING_HOLD, AllPieces(contents), at)
    ensures NothingReleased(markers, contents) ==> at == |AllPieces(contents)|
    ensures Answer(markers, contents, at) == (sent + Held(markers, contents)) + ReasoningTail(markers, contents)
    ensures ClientText(markers, contents) == (sent + ReasoningTail(markers, contents)) + Held(markers, contents)
    ensures Held(markers, contents) == "" <==> NothingReleased(markers, contents)
  {
    var pieces := AllPieces(contents);
    AllPiecesConcat(contents);
    at := NeverSplices(markers, REASONING_HOLD, pieces);
    OutsConcat(markers, pieces);
    ClientTextWithoutLoop(markers, contents);
    CleanStreamConserved(DEFAULT_HOLD, Outs(markers, pieces));
    ReleasedIff(markers, REASONING_HOLD, pieces);
    sent := Run(DEFAULT_HOLD, Outs(markers, pieces)).1;
  }

  lemma ReleasedIff(markers: Markers, hold: nat, chunks: seq<string>)
    ensures var (f, out) := FilterRun(markers, hold, chunks); out == "" <==> f.emitted == 0
  {
    var at, start := EmittedSlice(markers, hold, chunks);
  }

  /**
   Every run without a loop: the client receives the answer in order whenever no
   marker shows at the last boundary, or nothing was released before the end.
   Otherwise both stages still hold text, and the order is kept exactly when the
   two words are powers of one word.
   */
  lemma OrderKeptIff(markers: Markers, contents: seq<string>) returns (at: nat)
    requires FirstLoop(Outs(markers, AllPieces(contents))).None?
    ensures at <= |AllPieces(contents)|
    ensures HeadEnd(markers, AllPieces(contents)[..at]) <= |TB.Delivered(TF.Stream(contents))|
    ensures NothingReleased(markers, contents) || BeganAt(markers, REASONING_HOLD, AllPieces(contents), at)
    ensures NothingReleased(markers, contents) ==> at == |AllPieces(contents)|
    ensures if FreeAtEnd(markers, AllPieces(contents)) || NothingReleased(markers, contents)
      then ClientText(markers, contents) == Answer(markers, contents, at)
      else (
        var tail, held := ReasoningTail(markers, contents), Held(markers, contents);
        && tail != "" && held != ""
        && (ClientText(markers, contents) == Answer(markers, contents, at)
            <==> exists w, i, j :: tail == Power(w, i) && held == Power(w, j)))
  {
    var sent;
    at, sent := AnswerInStages(markers, contents);
    var tail, held := ReasoningTail(markers, contents), Held(markers, contents);
    SwapOutcome(ClientText(markers, contents), Answer(markers, contents, at), sent, held, tail);
    EndCases(markers, contents);
  }

  lemma EndCases(markers: Markers, contents: seq<string>)
    ensures FreeAtEnd(markers, AllPieces(contents)) ==> ReasoningTail(markers, contents) == ""
    ensures !FreeAtEnd(markers, AllPieces(contents)) && !NothingReleased(markers, contents) ==>
      ReasoningTail(markers, contents) != ""
  {
    var pieces := AllPieces(contents);
    if FreeAtEnd(markers, pieces) {
      FreeEndNoTail(markers, REASONING_HOLD, pieces);
    } else if pieces != [] {
      PiecesNonEmpty(contents);
      MarkedEndHasTail(markers, REASONING_HOLD, pieces);
    }
  }

  // ---- a family of replies that arrive rotated ----------------------------------------

  lemma PlainPieces(c: string)
    requires '<' !in c && |c| > TF.HOLD_BACK
    ensures AllPieces([c]) == [c[..|c| - TF.HOLD_BACK], c[|c| - TF.HOLD_BACK..]]
  {
    assert TF.FirstOpen(c, 0).None? by {
      assert TF.THINK[0] == TF.ANALYSIS[0] == '<';
      forall i: nat | i < |c| ensures !TF.OpensAt(c, i) {
        assert c[i + 0] in c;
      }
    }
    assert "" + c == c;
    assert [c][..0] == [];
    TF.ChunkingIndependent([c]);
    assert Concat([c]) == c + Concat([]);
    assert Pieces([c]) == AddPiece(Pieces([]), TF.Process("" + c, false).out);
  }

  /** The text is prose, and `m` is its first visible character behind the last marker. */
  predicate MarkedHead(markers: Markers, text: string, m: nat) {
    && !LooksStructured(text) && m < |text|
    && LastMarker(markers, text).Some? && Align(text, LastMarker(markers, text).value) == m
  }

  lemma MarkedStart(markers: Markers, text: string, m: nat, feeds: nat)
    requires MarkedHead(markers, text, m)
    ensures var f := Filter(text, REASONING_HOLD, feeds, 0, false);
      Marked(markers, f).Some? && AnswerStart(markers, f) == m
  {
  }

  lemma FirstFeed(markers: Markers, a: string, m: nat)
    requires MarkedHead(markers, a, m) && |a| - m <= REASONING_HOLD
    ensures FilterFed(markers, FreshFilter(REASONING_HOLD), a) == (Filter(a, REASONING_HOLD, 1, 0, false), "")
  {
    assert "" + a == a;
    MarkedStart(markers, a, m, 1);
  }

  lemma SecondFeed(markers: Markers, a: string, b: string, m: nat)
    requires MarkedHead(markers, a + b, m) && |a + b| - m > REASONING_HOLD
    ensures var end := |a + b| - REASONING_HOLD;
      FilterFed(markers, Filter(a, REASONING_HOLD, 1, 0, false), b)
      == (Filter(a + b, REASONING_HOLD, 2, end, false), (a + b)[m..end])
  {
    MarkedStart(markers, a + b, m, 2);
  }

  lemma RunSnoc(markers: Markers, front: seq<string>, last: string)
    ensures FilterRun(markers, REASONING_HOLD, front + [last]).0
         == FilterFed(markers, FilterRun(markers, REASONING_HOLD, front).0, last).0
    ensures Outs(markers, front + [last])
         == AddPiece(Outs(markers, front), FilterFed(markers, FilterRun(markers, REASONING_HOLD, front).0, last).1)
  {
    assert (front + [last])[..|front|] == front;
  }

  /** The filter swallows the first piece and releases the beginning of the answer with the second. */
  lemma MarkedRun(markers: Markers, a: string, b: string, m: nat)
    requires MarkedHead(markers, a, m) && |a| - m <= REASONING_HOLD
    requires MarkedHead(markers, a + b, m) && |a + b| - m > REASONING_HOLD
    ensures var end := |a + b| - REASONING_HOLD;
      && FilterRun(markers, REASONING_HOLD, [a, b]).0 == Filter(a + b, REASONING_HOLD, 2, end, false)
      && Outs(markers, [a, b]) == [(a + b)[m..end]]
  {
    FirstFeed(markers, a, m);
    SecondFeed(markers, a, b, m);
    RunSnoc(markers, [], a);
    RunSnoc(markers, [a], b);
    assert [] + [a] == [a] && [a] + [b] == [a, b];
  }

  /** A text too short to loop is held back whole. */
  lemma ShortHeld(x: string)
    requires |x| <= TF.HOLD_BACK
    ensures FirstLoop([x]).None?
    ensures var (g, sent) := Run(DEFAULT_HOLD, [x]); sent == "" && Flushed(g) == x
  {
    assert [x][..0] == [];
    assert Concat([x]) == x + Concat([]);
    assert "" + x == x;
  }

  /** A short piece stays in the guard until the reasoning tail is out. */
  lemma TailFirst(markers: Markers, contents: seq<string>, released: string)
    requires Outs(markers, AllPieces(contents)) == [released] && |released| <= TF.HOLD_BACK
    ensures ClientText(markers, contents) == ReasoningTail(markers, contents) + released
  {
    ShortHeld(released);
    ClientTextWithoutLoop(markers, contents);
    assert "" + ReasoningTail(markers, contents) == ReasoningTail(markers, contents);
  }

  /** The client text from the filter's last state and what it has released. */
  lemma TailThenReleased(markers: Markers, contents: seq<string>, pieces: seq<string>, text: string, end: nat, released: string)
    requires AllPieces(contents) == pieces && 0 < end <= |text| && |released| <= TF.HOLD_BACK
    requires FilterRun(markers, REASONING_HOLD, pieces).0 == Filter(text, REASONING_HOLD, 2, end, false)
    requires Outs(markers, pieces) == [released]
    ensures ClientText(markers, contents) == text[end..] + released
  {
    TailFirst(markers, contents, released);
    TailFrom(markers, text, end);
  }

  lemma TailFrom(markers: Markers, c: string, end: nat)
    requires 0 < end <= |c|
    ensures FilterTail(markers, Filter(c, REASONING_HOLD, 2, end, false)) == c[end..]
  {
  }

  lemma Rotated(markers: Markers, head: string, x: string, k: nat, c: string)
    requires c == head + x && 0 < k <= TF.HOLD_BACK && |x| == REASONING_HOLD + k && '<' !in c
    requires MarkedHead(markers, c, |head|) && MarkedHead(markers, c[..|c| - TF.HOLD_BACK], |head|)
    ensures ClientText(markers, [c]) == x[k..] + x[..k]
  {
    var n := |c| - TF.HOLD_BACK;
    PlainPieces(c);
    assert c[..n] + c[n..] == c;
    MarkedRun(markers, c[..n], c[n..], |head|);
    RotatedParts(head, x, k);
    TailThenReleased(markers, [c], [c[..n], c[n..]], c, |head| + k, x[..k]);
  }

  /**
   For any marker rule: a marked head and an answer up to thirty characters longer
   than the hold, in one chunk, reach the client with the answer rotated.
   */
  lemma AnswerRotated(markers: Markers, head: string, x: string, k: nat)
    requires 0 < k <= 30 && |x| == 500 + k && '<' !in head + x
    requires MarkedHead(markers, head + x, |head|)
    requires MarkedHead(markers, (head + x)[..|head + x| - 30], |head|)
    ensures ClientText(markers, [head + x]) == x[k..] + x[..k]
  {
    Rotated(markers, head, x, k, head + x);
  }

  lemma RotatedParts(head: string, x: string, k: nat)
    requires k <= |x|
    ensures (head + x)[|head|..|head| + k] == x[..k] && (head + x)[|head| + k..] == x[k..]
  {
  }
}
