/**
 Replies made of shown text and thinking blocks: what the stream delivers of them,
 what the batch filter stores, and when the two agree.
 */
module ThinkingReplies {
  import opened Wrappers
  import opened Words
  import opened Whitespace
  import opened ThinkingFilter
  import opened ThinkingBatch

  /** A closed thinking block and the shown text behind it. */
  datatype Block = Block(sep: char, body: string, after: string)

  /** An unclosed thinking block at the end. */
  datatype Thought = Thought(sep: char, body: string)

  predicate ThoughtOk(sep: char, body: string) {
    (IsSpace(sep) || sep == '>') && FirstClose(body, 0).None?
  }

  /** No opening tag stands in a shown text. */
  predicate BlocksOk(blocks: seq<Block>) {
    forall b | b in blocks :: ThoughtOk(b.sep, b.body) && FirstOpen(b.after, 0).None?
  }

  datatype Reply = Reply(shown: string, blocks: seq<Block>, open: Option<Thought>) {
    predicate Ok() {
      FirstOpen(shown, 0).None? && BlocksOk(blocks) && (open.Some? ==> ThoughtOk(open.value.sep, open.value.body))
    }
  }

  /** What stands behind a shown text: the next block and all after it. */
  function RenderTail(blocks: seq<Block>, open: Option<Thought>): string {
    if blocks == [] then (if open.Some? then THINK + [open.value.sep] + open.value.body else "")
    else
      var b := blocks[0];
      (THINK + [b.sep] + b.body) + (THINK_CLOSE + (b.after + RenderTail(blocks[1..], open)))
  }

  function Render(r: Reply): string {
    r.shown + RenderTail(r.blocks, r.open)
  }

  /** The shown texts behind the blocks, put together. */
  function Afters(blocks: seq<Block>): string {
    if blocks == [] then "" else blocks[0].after + Afters(blocks[1..])
  }

  function ShownText(r: Reply): string {
    r.shown + Afters(r.blocks)
  }

  function OpenText(open: Option<Thought>): string {
    RenderTail([], open)
  }

  // ---- the stream --------------------------------------------------------------------------

  lemma BlockOpens(sep: char, body: string, rest: string)
    requires IsSpace(sep) || sep == '>'
    ensures var t := (THINK + [sep] + body) + rest; ThinkAt(t, 0) && FirstOpen(t, 0) == Some(0)
  {
    var t := (THINK + [sep] + body) + rest;
    assert forall k | 0 <= k < |THINK| :: THINK[k] == t[0 + k];
  }

  /** Text that no opening tag starts in is delivered as it is. */
  lemma DeliveredAfter(a: string, rest: string)
    requires forall i | 0 <= i < |a| :: !OpensAt(a + rest, i)
    ensures Delivered(Process(a + rest, false)) == a + Delivered(Process(rest, false))
  {
    FirstOpenDrop(a + rest, |a|);
    DropConcat(a, rest);
    if FirstOpen(a + rest, 0).Some? {
      PlainThenOpen(a, rest, FirstOpen(rest, 0).value);
    } else {
      DeliveredPlain(a + rest);
      DeliveredPlain(rest);
    }
  }

  lemma DeliveredPlain(s: string)
    requires FirstOpen(s, 0).None?
    ensures Delivered(Process(s, false)) == s
  {
  }

  lemma PlainThenOpen(a: string, rest: string, o: nat)
    requires FirstOpen(a + rest, 0) == Some(|a| + o) && FirstOpen(rest, 0) == Some(o)
    ensures Delivered(Process(a + rest, false)) == a + Delivered(Process(rest, false))
  {
    OpenStep(a + rest, |a| + o);
    OpenStep(rest, o);
    assert (a + rest)[|a| + o..] == rest[o..];
    assert (a + rest)[..|a| + o] == a + rest[..o];
    var later := Process(rest[o..], true);
    Assoc(a, rest[..o], later.out);
    Assoc(a, rest[..o] + later.out, later.buffer);
    Assoc(a + rest[..o], later.out, later.buffer);
  }

  /** A well-formed block closes right after its body. */
  lemma BlockCloses(sep: char, body: string, rest: string)
    requires (IsSpace(sep) || sep == '>') && FirstClose(body, 0).None?
    ensures var t := (THINK + [sep] + body) + (THINK_CLOSE + rest);
      && FirstClose(t, 0) == Some(7 + |body|) && CloseEnd(t, 7 + |body|) == 15 + |body|
      && t[15 + |body|..] == rest
  {
    var front := THINK + [sep] + body;
    OccursBetween(THINK_CLOSE, front, rest);
    OccursBetween(THINK_CLOSE, "", rest);
    assert "" + (THINK_CLOSE + rest) == THINK_CLOSE + rest;
    NoCloseInBody(sep, body, THINK_CLOSE + rest);
    FirstCloseIs(front + (THINK_CLOSE + rest), 7 + |body|);
  }

  lemma CloseInDrop(s: string, k: nat, i: nat)
    requires k <= i && ClosesAt(s, i)
    ensures ClosesAt(s[k..], i - k)
  {
    OccursInDrop(THINK_CLOSE, s, k, i - k);
    OccursInDrop(END, s, k, i - k);
  }

  /** A closing tag that starts before a `<` ends before it. */
  lemma CloseEndsBefore(front: string, rest: string, i: nat)
    requires i < |front| && ClosesAt(front + rest, i)
    requires rest != "" ==> rest[0] == '<'
    ensures ClosesAt(front, i)
  {
    var t := front + rest;
    InsideClose(t, i);
    assert rest != "" ==> t[|front|] == rest[0];
    CloseWasThere(front, rest, i);
  }

  lemma OccursSecond(p: string, s: string)
    requires |p| > 1
    ensures OccursAt(p, s, 0) ==> s[1] == p[1]
  {
    if OccursAt(p, s, 0) {
      assert s[0 + 1] == p[1];
    }
  }

  /** A text that starts like a thinking block does not start with a closing tag. */
  lemma NotBoth(s: string)
    requires |s| > 1 && s[1] == THINK[1]
    ensures !ClosesAt(s, 0)
  {
    OccursSecond(THINK_CLOSE, s);
    OccursSecond(END, s);
  }

  lemma NoCloseInFront(sep: char, body: string, i: nat)
    requires (IsSpace(sep) || sep == '>') && FirstClose(body, 0).None?
    ensures !ClosesAt(THINK + [sep] + body, i)
  {
    var front := THINK + [sep] + body;
    assert front[1] == THINK[1];
    NotBoth(front);
    if ClosesAt(front, i) {
      InsideClose(front, i);
      assert front == THINK + ([sep] + body);
      assert forall k | 0 < k < 6 :: front[k] == THINK[k] != '<';
      assert front[6] == sep;
      assert front[7..] == body;
      CloseInDrop(front, 7, i);
    }
  }

  lemma NoCloseInBody(sep: char, body: string, rest: string)
    requires (IsSpace(sep) || sep == '>') && FirstClose(body, 0).None?
    requires rest != "" ==> rest[0] == '<'
    ensures var t := (THINK + [sep] + body) + rest;
      forall i | 0 <= i < 7 + |body| :: !ClosesAt(t, i)
  {
    var front := THINK + [sep] + body;
    forall i: nat | i < 7 + |body| ensures !ClosesAt(front + rest, i) {
      if ClosesAt(front + rest, i) {
        CloseEndsBefore(front, rest, i);
        NoCloseInFront(sep, body, i);
      }
    }
  }

  lemma ClosedBlockDelivers(sep: char, body: string, rest: string)
    requires ThoughtOk(sep, body)
    ensures Delivered(Process((THINK + [sep] + body) + (THINK_CLOSE + rest), false)) == Delivered(Process(rest, false))
  {
    BlockOpens(sep, body, THINK_CLOSE + rest);
    BlockCloses(sep, body, rest);
    BlockSkipped((THINK + [sep] + body) + (THINK_CLOSE + rest), 7 + |body|, rest);
  }

  lemma BlockSkipped(t: string, c: nat, rest: string)
    requires FirstOpen(t, 0) == Some(0) && FirstClose(t, 0) == Some(c) && t[CloseEnd(t, c)..] == rest
    ensures Delivered(Process(t, false)) == Delivered(Process(rest, false))
  {
    OpenStep(t, 0);
    assert t[0..] == t;
    CloseStep(t, c);
    NothingPrepended(Process(rest, false));
  }

  lemma NothingPrepended(r: Step)
    ensures forall front | front == "" :: Delivered(Prepend(front, r)) == Delivered(r)
  {
    assert "" + r.out == r.out;
  }

  lemma OpenBlockDelivers(sep: char, body: string)
    requires ThoughtOk(sep, body)
    ensures Delivered(Process(THINK + [sep] + body, false)) == ""
  {
    var t := THINK + [sep] + body;
    assert t + "" == t;
    BlockOpens(sep, body, "");
    NoCloseInBody(sep, body, "");
    OpenStep(t, 0);
    assert t[0..] == t && t[..0] == "";
  }

  /** A tail is empty or starts with a thinking block. */
  lemma TailOpens(blocks: seq<Block>, open: Option<Thought>)
    requires Reply("", blocks, open).Ok()
    ensures var tail := RenderTail(blocks, open); tail == "" || (ThinkAt(tail, 0) && FirstOpen(tail, 0) == Some(0))
  {
    if blocks != [] {
      assert blocks[0] in blocks;
      BlockOpens(blocks[0].sep, blocks[0].body, THINK_CLOSE + (blocks[0].after + RenderTail(blocks[1..], open)));
    } else if open.Some? {
      BlockOpens(open.value.sep, open.value.body, "");
      assert OpenText(open) + "" == OpenText(open);
    }
  }

  /** A shown text gets no opening tag from what stands behind it. */
  lemma NoOpenBefore(a: string, tail: string, i: nat)
    requires FirstOpen(a, 0).None? && i < |a| && (tail == "" || ThinkAt(tail, 0))
    ensures !OpensAt(a + tail, i)
  {
    if tail == "" {
      assert a + tail == a;
    } else if OpensAt(a + tail, i) {
      ThinkAtJoin(a, tail);
      OpenBeforeOpen(a + tail, i, |a|);
      OpenWasThere(a, tail, i);
    }
  }

  lemma ShownDelivered(a: string, tail: string)
    requires FirstOpen(a, 0).None? && (tail == "" || ThinkAt(tail, 0))
    ensures Delivered(Process(a + tail, false)) == a + Delivered(Process(tail, false))
  {
    forall i: nat | i < |a| ensures !OpensAt(a + tail, i) {
      NoOpenBefore(a, tail, i);
    }
    DeliveredAfter(a, tail);
  }

  lemma {:induction false} TailDelivered(blocks: seq<Block>, open: Option<Thought>)
    requires Reply("", blocks, open).Ok()
    ensures Delivered(Process(RenderTail(blocks, open), false)) == Afters(blocks)
    decreases blocks
  {
    if blocks != [] {
      var b, tail := blocks[0], RenderTail(blocks[1..], open);
      assert b in blocks && BlocksOk(blocks[1..]);
      TailDelivered(blocks[1..], open);
      TailOpens(blocks[1..], open);
      ShownDelivered(b.after, tail);
      ClosedBlockDelivers(b.sep, b.body, b.after + tail);
    } else if open.Some? {
      OpenBlockDelivers(open.value.sep, open.value.body);
    }
  }

  /** The stream delivers the shown text. */
  lemma ReplyDelivered(r: Reply)
    requires r.Ok()
    ensures Delivered(Process(Render(r), false)) == ShownText(r)
  {
    TailOpens(r.blocks, r.open);
    TailDelivered(r.blocks, r.open);
    ShownDelivered(r.shown, RenderTail(r.blocks, r.open));
  }

  // ---- the first batch pass ------------------------------------------------------------------

  /** Behind a shown text the first thinking tag is the one of the next block. */
  lemma FirstThinkBehind(a: string, tail: string)
    requires FirstOpen(a, 0).None? && ThinkAt(tail, 0)
    ensures FirstThink(a + tail, 0) == Some(|a|)
  {
    forall i: nat | i < |a| ensures !ThinkAt(a + tail, i) {
      NoOpenBefore(a, tail, i);
    }
    ThinkAtJoin(a, tail);
    FirstThinkIs(a + tail, |a|);
  }

  lemma NoThinkShown(a: string)
    requires FirstOpen(a, 0).None?
    ensures FirstThink(a, 0).None? && RemoveClosed(a) == a
  {
    var o := FirstThink(a, 0);
    assert o.Some? ==> OpensAt(a, o.value);
  }

  /** The first closing tag of a text, as the first pass looks for it. */
  lemma CloseFound(front: string, rest: string, tail: string)
    requires tail == front + (THINK_CLOSE + rest) && |front| >= 7 && FirstClose(tail, 0) == Some(|front|)
    ensures Find(THINK_CLOSE, tail, 7) == Some(|front|)
  {
    OccursBetween(THINK_CLOSE, front, rest);
    forall j: nat | j < |front| ensures !OccursAt(THINK_CLOSE, tail, j) {
      assert !ClosesAt(tail, j);
    }
    FindIs(THINK_CLOSE, tail, 7, |front|);
  }

  lemma CloseBehind(a: string, tail: string, c: nat)
    requires Find(THINK_CLOSE, tail, 7).Some? && Find(THINK_CLOSE, tail, 7).value == c
    ensures Find(THINK_CLOSE, a + tail, |a| + 7).Some? && Find(THINK_CLOSE, a + tail, |a| + 7).value == |a| + c
  {
    DropConcat(a, tail);
    FindInDrop(THINK_CLOSE, a + tail, |a|, 7);
  }

  lemma BehindClose(a: string, front: string, rest: string)
    ensures (a + (front + (THINK_CLOSE + rest)))[|a| + |front| + 8..] == rest
    ensures |a| + |front| + 8 <= |a + (front + (THINK_CLOSE + rest))|
    ensures (a + (front + (THINK_CLOSE + rest)))[..|a|] == a
  {
    assert |THINK_CLOSE| == 8;
    assert a + (front + (THINK_CLOSE + rest)) == (a + front + THINK_CLOSE) + rest;
    DropConcat(a + front + THINK_CLOSE, rest);
  }

  lemma BlockFound(a: string, b: Block, rest: string, tail: string)
    requires FirstOpen(a, 0).None? && ThoughtOk(b.sep, b.body)
    requires tail == (THINK + [b.sep] + b.body) + (THINK_CLOSE + rest)
    ensures FirstThink(a + tail, 0) == Some(|a|)
    ensures Find(THINK_CLOSE, a + tail, |a| + 7).Some?
    ensures Find(THINK_CLOSE, a + tail, |a| + 7).value == |a| + 7 + |b.body|
  {
    var front := THINK + [b.sep] + b.body;
    BlockOpens(b.sep, b.body, THINK_CLOSE + rest);
    BlockCloses(b.sep, b.body, rest);
    FirstThinkBehind(a, tail);
    CloseFound(front, rest, tail);
    CloseBehind(a, tail, |front|);
  }

  lemma RemoveTo(s: string, o: nat, d: nat, a: string, rest: string)
    requires FirstThink(s, 0).Some? && FirstThink(s, 0).value == o
    requires Find(THINK_CLOSE, s, o + 7).Some? && Find(THINK_CLOSE, s, o + 7).value == d && d + 8 <= |s|
    requires s[..o] == a && s[d + 8..] == rest
    ensures RemoveClosed(s) == a + RemoveClosed(rest)
  {
    RemoveStep(s, o, d);
  }

  lemma ClosedRemoved(a: string, b: Block, rest: string, tail: string)
    requires FirstOpen(a, 0).None? && ThoughtOk(b.sep, b.body)
    requires tail == (THINK + [b.sep] + b.body) + (THINK_CLOSE + rest)
    ensures RemoveClosed(a + tail) == a + RemoveClosed(rest)
  {
    BlockFound(a, b, rest, tail);
    BehindClose(a, THINK + [b.sep] + b.body, rest);
    RemoveTo(a + tail, |a|, |a| + 7 + |b.body|, a, rest);
  }

  lemma OpenKept(a: string, t: Thought)
    requires FirstOpen(a, 0).None? && ThoughtOk(t.sep, t.body)
    ensures RemoveClosed(a + (THINK + [t.sep] + t.body)) == a + (THINK + [t.sep] + t.body)
  {
    var front := THINK + [t.sep] + t.body;
    BlockOpens(t.sep, t.body, "");
    assert front + "" == front;
    FirstThinkBehind(a, front);
    var c := Find(THINK_CLOSE, a + front, |a| + 7);
    if c.Some? {
      OccursInDrop(THINK_CLOSE, a + front, |a|, c.value - |a|);
      assert (a + front)[|a|..] == front;
      NoCloseInFront(t.sep, t.body, c.value - |a|);
    }
  }

  /** The first pass drops the closed blocks and keeps the shown text and an unclosed block. */
  lemma {:induction false} FirstPassKeeps(a: string, blocks: seq<Block>, open: Option<Thought>)
    requires Reply(a, blocks, open).Ok()
    ensures RemoveClosed(a + RenderTail(blocks, open)) == (a + Afters(blocks)) + OpenText(open)
    decreases blocks
  {
    if blocks != [] {
      var b := blocks[0];
      assert b in blocks && BlocksOk(blocks[1..]);
      FirstPassKeeps(b.after, blocks[1..], open);
      ClosedRemoved(a, b, b.after + RenderTail(blocks[1..], open), RenderTail(blocks, open));
      Assoc(a, Afters(blocks), OpenText(open));
    } else {
      assert a + "" == a;
      if open.Some? {
        OpenKept(a, open.value);
      } else {
        NoThinkShown(a);
      }
    }
  }

  // ---- agreement ---------------------------------------------------------------------------

  lemma NoThinkNoTail(a: string, tail: string)
    requires tail == "" || ThinkAt(tail, 0)
    requires Find(THINK, a + tail, 0).None?
    ensures tail == ""
  {
    if tail != "" {
      ThinkAtJoin(a, tail);
    }
  }

  /** The early return: without either tag there is no block, and nothing to rewrite. */
  lemma NoTagPlain(r: Reply)
    requires r.Ok() && Find(THINK, Render(r), 0).None? && Find(CHANNEL, Render(r), 0).None?
    ensures ShownText(r) == Render(r) && !Rewritten(ShownText(r))
  {
    TailOpens(r.blocks, r.open);
    NoThinkNoTail(r.shown, RenderTail(r.blocks, r.open));
    NoTailNoBlocks(r.blocks, r.open);
    assert r.shown + "" == r.shown;
    NoTagsNothing(r.shown);
  }

  lemma NoTailNoBlocks(blocks: seq<Block>, open: Option<Thought>)
    requires RenderTail(blocks, open) == ""
    ensures blocks == []
  {
  }

  lemma NoTagsNothing(s: string)
    requires Find(THINK, s, 0).None? && Find(CHANNEL, s, 0).None?
    ensures !Rewritten(s)
  {
    if Find(ANALYSIS, s, 0).Some? {
      ChannelInside(s, Find(ANALYSIS, s, 0).value);
    }
    if Find(COMMENTARY, s, 0).Some? {
      ChannelInside(s, Find(COMMENTARY, s, 0).value);
    }
  }

  /**
   For every chunking of a reply the stream delivers the shown text, and the batch
   filter stores the same up to surrounding white space exactly when none of its
   later passes applies to the shown texts put together.
   */
  lemma ReplyMatchesIff(r: Reply, chunks: seq<string>)
    requires r.Ok() && Concat(chunks) == Render(r)
    ensures Delivered(Stream(chunks)) == ShownText(r)
    ensures Strip(StripThinkingTags(Concat(chunks))) == Strip(ShownText(r)) <==> !Rewritten(ShownText(r))
  {
    ChunkingIndependent(chunks);
    ReplyDelivered(r);
    var text, shown := Render(r), ShownText(r);
    if Find(THINK, text, 0).None? && Find(CHANNEL, text, 0).None? {
      NoTagPlain(r);
    } else {
      FirstPassKeeps(r.shown, r.blocks, r.open);
      TailOpens([], r.open);
      LaterPassesFade(shown, OpenText(r.open));
      var stored := ChannelPasses(RemoveUnclosed(RemoveClosed(text)));
      FadesStripped(shown, stored);
      StripTwice(stored);
    }
  }
}
