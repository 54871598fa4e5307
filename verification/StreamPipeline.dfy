/**
 The three filters in the order a reasoning reply passes them: thinking tags,
 chain-of-thought head, loop guard, and what is flushed when the stream ends.
 */
module StreamPipeline {
  import opened Words
  import opened LoopGuards
  import opened ReasoningStreams
  import TF = ThinkingFilter
  import TB = ThinkingBatch

  /** `items` with `x` at the end, unless `x` is empty: empty pieces are not passed on. */
  function AddPiece(items: seq<string>, x: string): seq<string> {
    if x == "" then items else items + [x]
  }

  /** What the thinking filter passes on, piece by piece. */
  function Pieces(contents: seq<string>): seq<string> {
    if contents == [] then []
    else
      var front := contents[..|contents| - 1];
      var s := TF.Stream(front);
      AddPiece(Pieces(front), TF.Process(s.buffer + contents[|contents| - 1], s.thinking).out)
  }

  /** The pieces and, at the end of the stream, the buffered text outside a block. */
  function AllPieces(contents: seq<string>): seq<string> {
    var s := TF.Stream(contents);
    AddPiece(Pieces(contents), if s.thinking then "" else s.buffer)
  }

  /** What the reasoning filter passes on, piece by piece. */
  function Outs(markers: Markers, pieces: seq<string>): seq<string> {
    if pieces == [] then []
    else
      var front := pieces[..|pieces| - 1];
      AddPiece(Outs(markers, front),
               FilterFed(markers, FilterRun(markers, REASONING_HOLD, front).0, pieces[|pieces| - 1]).1)
  }

  /** Everything the client receives. */
  function ClientText(markers: Markers, contents: seq<string>): string {
    var outs := Outs(markers, Pieces(contents));
    if FirstLoop(outs).Some? then Run(DEFAULT_HOLD, outs).1
    else
      var pieces := AllPieces(contents);
      var (g, sent) := Run(DEFAULT_HOLD, Outs(markers, pieces));
      (sent + FilterTail(markers, FilterRun(markers, REASONING_HOLD, pieces).0)) + Flushed(g)
  }

  // ---- stages on lists -----------------------------------------------------------

  lemma AddPieceConcat(items: seq<string>, x: string)
    ensures Concat(AddPiece(items, x)) == Concat(items) + x
  {
    ConcatSnoc(items, x);
  }

  lemma AddPieceFront(items: seq<string>, x: string)
    requires x != ""
    ensures AddPiece(items, x)[..|items|] == items
  {
  }

  lemma {:induction false} PiecesConcat(contents: seq<string>)
    ensures Concat(Pieces(contents)) == TF.Stream(contents).out
  {
    if contents != [] {
      var front, last := contents[..|contents| - 1], contents[|contents| - 1];
      PiecesConcat(front);
      var s := TF.Stream(front);
      AddPieceConcat(Pieces(front), TF.Process(s.buffer + last, s.thinking).out);
    }
  }

  lemma AllPiecesConcat(contents: seq<string>)
    ensures Concat(AllPieces(contents)) == TB.Delivered(TF.Stream(contents))
  {
    PiecesConcat(contents);
    var s := TF.Stream(contents);
    AddPieceConcat(Pieces(contents), if s.thinking then "" else s.buffer);
    assert s.out + "" == s.out;
  }

  lemma {:induction false} OutsConcat(markers: Markers, pieces: seq<string>)
    ensures Concat(Outs(markers, pieces)) == FilterRun(markers, REASONING_HOLD, pieces).1
  {
    if pieces != [] {
      var front, last := pieces[..|pieces| - 1], pieces[|pieces| - 1];
      OutsConcat(markers, front);
      AddPieceConcat(Outs(markers, front),
                     FilterFed(markers, FilterRun(markers, REASONING_HOLD, front).0, last).1);
    }
  }

  // ---- the generator ----------------------------------------------------------------

  /** An empty chunk changes nothing, so the generator may skip it. */
  lemma SkipEmpty(front: seq<string>)
    ensures TF.Stream(front + [""]) == TF.Stream(front)
    ensures Pieces(front + [""]) == Pieces(front)
  {
    TF.ChunkingIndependent(front);
    TF.TwoChunks(Concat(front), "", false);
    assert Concat(front) + "" == Concat(front);
    assert (front + [""])[..|front|] == front;
    var s := TF.Stream(front);
    var next := TF.Process(s.buffer + "", s.thinking);
    assert |s.out + next.out| == |s.out| + |next.out|;
  }

  lemma StreamSnoc(front: seq<string>, last: string)
    ensures TF.Stream(front + [last]) == TF.Resume(TF.Stream(front), last)
    ensures var s := TF.Stream(front);
      Pieces(front + [last]) == AddPiece(Pieces(front), TF.Process(s.buffer + last, s.thinking).out)
  {
    assert (front + [last])[..|front|] == front;
  }

  /** The last two filters after some pieces, as their objects hold it. */
  ghost predicate Holds(markers: Markers, pieces: seq<string>, filter: ReasoningStreamFilter, guard: LoopGuard, sent: string)
    reads filter, guard
  {
    && filter.Valid() && filter.markers == markers
    && filter.State() == FilterRun(markers, REASONING_HOLD, pieces).0
    && (guard.State(), sent) == Run(DEFAULT_HOLD, Outs(markers, pieces))
  }

  /** One non-empty piece through the reasoning filter and the loop guard. */
  method PassOn(markers: Markers, ghost pieces: seq<string>, piece: string,
                filter: ReasoningStreamFilter, guard: LoopGuard, ghost sent: string) returns (out: string)
    requires piece != "" && Holds(markers, pieces, filter, guard, sent)
    modifies filter, guard
    ensures Holds(markers, pieces + [piece], filter, guard, sent + out)
  {
    assert (pieces + [piece])[..|pieces|] == pieces;
    var filtered := filter.Feed(piece);
    out := "";
    if filtered != "" {
      AddPieceFront(Outs(markers, pieces), filtered);
      out := guard.Feed(filtered);
    } else {
      assert sent + "" == sent;
    }
  }

  method ChatStream(markers: Markers, contents: seq<string>) returns (sent: string)
    ensures sent == ClientText(markers, contents)
  {
    var filter := new ReasoningStreamFilter(markers, REASONING_HOLD);
    var guard := new LoopGuard(DEFAULT_HOLD);
    var buffer, thinking := "", false;
    sent := "";
    ghost var pieces: seq<string> := [];
    for i := 0 to |contents|
      invariant fresh(filter) && fresh(guard)
      invariant TF.Stream(contents[..i]).buffer == buffer && TF.Stream(contents[..i]).thinking == thinking
      invariant pieces == Pieces(contents[..i])
      invariant Holds(markers, pieces, filter, guard, sent)
      invariant !guard.detected
    {
      assert contents[..i + 1] == contents[..i] + [contents[i]];
      if contents[i] == "" {
        SkipEmpty(contents[..i]);
        continue;
      }
      StreamSnoc(contents[..i], contents[i]);
      var output;
      output, buffer, thinking := TF.ProcessStreamChunk(buffer + contents[i], thinking);
      if output != "" {
        var out := PassOn(markers, pieces, output, filter, guard, sent);
        sent := sent + out;
        pieces := pieces + [output];
        if guard.detected {
          Aborted(markers, contents, i + 1);
          return;
        }
      }
    }
    assert contents[..|contents|] == contents;
    sent := Finish(markers, contents, buffer, thinking, filter, guard, sent);
  }

  /** The clean end of the stream: the thinking buffer, the reasoning tail, the held-back text. */
  method Finish(markers: Markers, ghost contents: seq<string>, buffer: string, thinking: bool,
                filter: ReasoningStreamFilter, guard: LoopGuard, sent0: string) returns (sent: string)
    requires var s := TF.Stream(contents); s.buffer == buffer && s.thinking == thinking
    requires Holds(markers, Pieces(contents), filter, guard, sent0) && !guard.detected
    modifies filter, guard
    ensures sent == ClientText(markers, contents)
  {
    DetectedIffLoop(DEFAULT_HOLD, Outs(markers, Pieces(contents)));
    sent := sent0;
    if buffer != "" && !thinking {
      var out := PassOn(markers, Pieces(contents), buffer, filter, guard, sent);
      sent := sent + out;
    }
    var tail := filter.Flush();
    sent := sent + tail;
    var guardedTail := guard.Flush();
    sent := sent + guardedTail;
  }

  /** A loop seen while chunks still come ends the client's text, whatever chunks follow. */
  lemma Aborted(markers: Markers, contents: seq<string>, i: nat)
    requires i <= |contents|
    requires Run(DEFAULT_HOLD, Outs(markers, Pieces(contents[..i]))).0.detected
    ensures ClientText(markers, contents) == Run(DEFAULT_HOLD, Outs(markers, Pieces(contents[..i]))).1
  {
    DetectedIffLoop(DEFAULT_HOLD, Outs(markers, Pieces(contents[..i])));
    PiecesGrow(contents, i);
    OutsGrow(markers, Pieces(contents[..i]), Pieces(contents));
    SilentAfterLoop(DEFAULT_HOLD, Outs(markers, Pieces(contents[..i])), Outs(markers, Pieces(contents)));
  }

  lemma {:induction false} PiecesGrow(contents: seq<string>, i: nat)
    requires i <= |contents|
    ensures Pieces(contents[..i]) <= Pieces(contents)
    decreases |contents|
  {
    if i < |contents| {
      var front := contents[..|contents| - 1];
      PiecesGrow(front, i);
      assert front[..i] == contents[..i];
    } else {
      assert contents[..i] == contents;
    }
  }

  lemma {:induction false} OutsGrow(markers: Markers, pieces: seq<string>, all: seq<string>)
    requires pieces <= all
    ensures Outs(markers, pieces) <= Outs(markers, all)
    decreases |all|
  {
    if |pieces| < |all| {
      assert pieces <= all[..|all| - 1];
      OutsGrow(markers, pieces, all[..|all| - 1]);
    } else {
      assert pieces == all;
    }
  }

  lemma {:induction false} SilentAfterLoop(hold: nat, outs: seq<string>, all: seq<string>)
    requires outs <= all && FirstLoop(outs).Some?
    ensures FirstLoop(all).Some? && Run(hold, all).1 == Run(hold, outs).1
    decreases |all|
  {
    if |outs| < |all| {
      var front := all[..|all| - 1];
      assert outs <= front;
      SilentAfterLoop(hold, outs, front);
      GuardRun(hold, front);
      var k := FirstLoop(front).value;
      var (g, out) := Run(hold, front);
      StoppedStep(Concat(front[..k]), Run(hold, front[..k - 1]).1, g, out, all[|all| - 1]);
      assert out + "" == out;
    } else {
      assert outs == all;
    }
  }
}
