/**
 Tags that dropping a thinking block puts together.  Stream and batch filter agree
 on a reply of tag-free shown texts exactly when no such tag arises.
 */
module TagJoins {
  import opened Wrappers
  import opened Words
  import opened Whitespace
  import opened ThinkingFilter
  import opened ThinkingBatch
  import opened ThinkingReplies

  // ---- tags the later passes act on ---------------------------------------------------------

  /** A tag at `i` makes some later pass rewrite the text. */
  predicate HarmfulAt(s: string, i: nat) {
    || ThinkAt(s, i)
    || OccursAt(ANALYSIS, s, i)
    || (OccursAt(COMMENTARY, s, i) && Find(END, s, i + |COMMENTARY|).Some?)
    || MalformedAt(s, i)
  }

  lemma LaterFind(p: string, s: string, from: nat, later: nat)
    requires from <= later && Find(p, s, later).Some?
    ensures Find(p, s, from).Some?
  {
  }

  lemma HarmfulRewrites(s: string, i: nat)
    requires HarmfulAt(s, i)
    ensures Rewritten(s)
  {
    if OccursAt(COMMENTARY, s, i) && Find(END, s, i + |COMMENTARY|).Some? {
      LaterFind(END, s, Find(COMMENTARY, s, 0).value + |COMMENTARY|, i + |COMMENTARY|);
    }
    if MalformedAt(s, i) {
      TagStarts(CHANNEL, s, i);
    }
  }

  lemma RewrittenHarmful(s: string) returns (i: nat)
    requires Rewritten(s)
    ensures i < |s| && HarmfulAt(s, i)
  {
    if FirstThink(s, 0).Some? {
      i := FirstThink(s, 0).value;
    } else if Find(ANALYSIS, s, 0).Some? {
      i := Find(ANALYSIS, s, 0).value;
      TagStarts(ANALYSIS, s, i);
    } else if Encloses(s, COMMENTARY) {
      i := Find(COMMENTARY, s, 0).value;
      TagStarts(COMMENTARY, s, i);
    } else {
      i :| i < |s| && MalformedAt(s, i);
    }
  }

  // ---- the places where blocks stood ------------------------------------------------------------

  /** A block stood behind the first `b` characters of the shown text. */
  predicate IsBoundary(shown: string, blocks: seq<Block>, b: nat)
    decreases |blocks|
  {
    blocks != [] && (b == |shown| || (b > |shown| && IsBoundary(blocks[0].after, blocks[1..], b - |shown|)))
  }

  /** The pattern stands in no shown text by itself. */
  predicate NowhereIn(p: string, shown: string, blocks: seq<Block>) {
    Find(p, shown, 0).None? && forall b | b in blocks :: Find(p, b.after, 0).None?
  }

  lemma TailNowhere(p: string, shown: string, blocks: seq<Block>)
    requires NowhereIn(p, shown, blocks) && blocks != []
    ensures NowhereIn(p, blocks[0].after, blocks[1..])
  {
    assert blocks[0] in blocks;
  }

  /** An occurrence in two texts put together lies in one of them, or across the seam. */
  lemma OccursAcross(p: string, a: string, b: string, i: nat)
    requires OccursAt(p, a + b, i) && Find(p, a, 0).None?
    ensures i + |p| > |a| && (i >= |a| ==> OccursAt(p, b, i - |a|))
  {
    if i + |p| <= |a| {
      OccursInLonger(p, a, b, i);
    } else if i >= |a| {
      DropConcat(a, b);
      OccursInDrop(p, a + b, |a|, i - |a|);
    }
  }

  lemma SomeBlock(p: string, shown: string, blocks: seq<Block>, i: nat)
    requires OccursAt(p, shown + Afters(blocks), i) && Find(p, shown, 0).None?
    ensures blocks != []
  {
    assert blocks == [] ==> shown + Afters(blocks) == shown;
  }

  /** Such an occurrence in the shown text lies across a place where a block stood. */
  lemma {:induction false} OccursOverBoundary(p: string, shown: string, blocks: seq<Block>, i: nat) returns (b: nat)
    requires p != "" && OccursAt(p, shown + Afters(blocks), i) && NowhereIn(p, shown, blocks)
    ensures IsBoundary(shown, blocks, b) && i < b < i + |p|
    decreases blocks
  {
    SomeBlock(p, shown, blocks, i);
    OccursAcross(p, shown, Afters(blocks), i);
    b := |shown|;
    if i >= |shown| {
      TailNowhere(p, shown, blocks);
      b := OccursOverBoundary(p, blocks[0].after, blocks[1..], i - |shown|);
      b := b + |shown|;
    }
  }

  /** No tag of either kind stands in the text. */
  predicate TagFree(s: string) {
    FirstThink(s, 0).None? && Find(CHANNEL, s, 0).None?
  }

  predicate TagFreeReply(r: Reply) {
    TagFree(r.shown) && forall b | b in r.blocks :: TagFree(b.after)
  }

  predicate IsTag(p: string) {
    p == CHANNEL || (|p| == 7 && p[..6] == THINK && (IsSpace(p[6]) || p[6] == '>'))
  }

  lemma TagNotIn(p: string, s: string)
    requires IsTag(p) && TagFree(s)
    ensures Find(p, s, 0).None?
  {
    if p != CHANNEL && Find(p, s, 0).Some? {
      ThinkFromTag(p, s, Find(p, s, 0).value);
    }
  }

  lemma ThinkFromTag(p: string, s: string, i: nat)
    requires |p| == 7 && p[..6] == THINK && (IsSpace(p[6]) || p[6] == '>') && OccursAt(p, s, i)
    ensures ThinkAt(s, i)
  {
    PrefixOccurs(THINK, p, s, i);
    assert s[i + 6] == p[6];
  }

  lemma TagNowhere(p: string, r: Reply)
    requires IsTag(p) && TagFreeReply(r)
    ensures NowhereIn(p, r.shown, r.blocks)
  {
    TagNotIn(p, r.shown);
    forall b | b in r.blocks ensures Find(p, b.after, 0).None? {
      TagNotIn(p, b.after);
    }
  }

  /** Every harmful tag is, or starts with, one of the two kinds. */
  lemma HarmfulTag(s: string, i: nat) returns (p: string)
    requires HarmfulAt(s, i)
    ensures IsTag(p) && OccursAt(p, s, i) && |p| == TagLength(s, i)
  {
    if ThinkAt(s, i) {
      p := THINK + [s[i + 6]];
      assert forall k | 0 <= k < 6 :: p[k] == THINK[k];
    } else {
      p := CHANNEL;
      ChannelInside(s, i);
    }
  }

  /** Characters by which a tag is recognised. */
  function TagLength(s: string, i: nat): nat {
    if ThinkAt(s, i) then 7 else |CHANNEL|
  }

  // ---- agreement ------------------------------------------------------------------------------------

  /** A harmful tag at `i` was put together where a block stood at `b`. */
  predicate JoinedTag(r: Reply, i: nat, b: nat) {
    HarmfulAt(ShownText(r), i) && IsBoundary(r.shown, r.blocks, b) && i < b < i + TagLength(ShownText(r), i)
  }

  ghost predicate TagsJoin(r: Reply) {
    exists i, b :: JoinedTag(r, i, b)
  }

  lemma RewrittenIffJoined(r: Reply)
    requires TagFreeReply(r)
    ensures Rewritten(ShownText(r)) <==> TagsJoin(r)
  {
    if TagsJoin(r) {
      var i, b :| JoinedTag(r, i, b);
      HarmfulRewrites(ShownText(r), i);
    } else if Rewritten(ShownText(r)) {
      var i := RewrittenHarmful(ShownText(r));
      var p := HarmfulTag(ShownText(r), i);
      TagNowhere(p, r);
      var b := OccursOverBoundary(p, r.shown, r.blocks, i);
      assert JoinedTag(r, i, b);
    }
  }

  /**
   On tag-free shown texts, for every chunking: what the stream delivers and what the
   batch filter stores agree up to surrounding white space exactly when no thinking,
   analysis, closed commentary or malformed channel tag is put together across a block.
   */
  lemma StreamMatchesBatch(r: Reply, chunks: seq<string>)
    requires r.Ok() && TagFreeReply(r) && Concat(chunks) == Render(r)
    ensures Strip(StripThinkingTags(Concat(chunks))) == Strip(Delivered(Stream(chunks))) <==> !TagsJoin(r)
  {
    ReplyMatchesIff(r, chunks);
    RewrittenIffJoined(r);
  }

  // ---- a check on the ends of the shown texts -----------------------------------------------------

  predicate EndsWith(s: string, p: string) {
    |p| <= |s| && s[|s| - |p|..] == p
  }

  /** The text ends in a beginning of a tag. */
  predicate EndsInPartialTag(s: string) {
    || (exists n: nat | 0 < n <= |THINK| :: EndsWith(s, THINK[..n]))
    || (exists n: nat | 0 < n < |CHANNEL| :: EndsWith(s, CHANNEL[..n]))
  }

  /** No shown text in front of a block does. */
  predicate NoPartialTags(shown: string, blocks: seq<Block>)
    decreases |blocks|
  {
    blocks == [] || (!EndsInPartialTag(shown) && NoPartialTags(blocks[0].after, blocks[1..]))
  }

  lemma PartialAtEnd(p: string, a: string, b: string, i: nat)
    requires IsTag(p) && OccursAt(p, a + b, i) && i < |a| < i + |p|
    ensures EndsInPartialTag(a)
  {
    var n := |a| - i;
    forall k | 0 <= k < n ensures a[i..][k] == p[k] {
      assert p[k] == (a + b)[i + k];
    }
    assert a[i..] == p[..n];
    if p == CHANNEL {
      assert EndsWith(a, CHANNEL[..n]);
    } else {
      assert p[..n] == p[..6][..n];
      assert EndsWith(a, THINK[..n]);
    }
  }

  lemma {:induction false} NoTagArises(p: string, shown: string, blocks: seq<Block>, i: nat)
    requires IsTag(p) && NowhereIn(p, shown, blocks) && NoPartialTags(shown, blocks)
    ensures !OccursAt(p, shown + Afters(blocks), i)
    decreases blocks
  {
    if OccursAt(p, shown + Afters(blocks), i) {
      SomeBlock(p, shown, blocks, i);
      OccursAcross(p, shown, Afters(blocks), i);
      if i < |shown| {
        PartialAtEnd(p, shown, Afters(blocks), i);
      } else {
        TailNowhere(p, shown, blocks);
        NoTagArises(p, blocks[0].after, blocks[1..], i - |shown|);
      }
    }
  }

  /** If no shown text in front of a block ends in a beginning of a tag, the two filters agree. */
  lemma NoPartialTagsAgree(r: Reply, chunks: seq<string>)
    requires r.Ok() && TagFreeReply(r) && Concat(chunks) == Render(r) && NoPartialTags(r.shown, r.blocks)
    ensures Delivered(Stream(chunks)) == ShownText(r)
    ensures Strip(StripThinkingTags(Concat(chunks))) == Strip(ShownText(r))
  {
    ReplyMatchesIff(r, chunks);
    if Rewritten(ShownText(r)) {
      var i := RewrittenHarmful(ShownText(r));
      var p := HarmfulTag(ShownText(r), i);
      TagNowhere(p, r);
      NoTagArises(p, r.shown, r.blocks, i);
    }
  }

  lemma EndInside(s: string, p: string)
    requires p != "" && EndsWith(s, p)
    ensures p[0] in s
  {
    assert s[|s| - |p|..][0] == p[0];
  }

  lemma PlainNoPartialTag(s: string)
    requires '<' !in s
    ensures !EndsInPartialTag(s)
  {
    forall n: nat | 0 < n <= |THINK| ensures !EndsWith(s, THINK[..n]) {
      if EndsWith(s, THINK[..n]) {
        EndInside(s, THINK[..n]);
      }
    }
    forall n: nat | 0 < n < |CHANNEL| ensures !EndsWith(s, CHANNEL[..n]) {
      if EndsWith(s, CHANNEL[..n]) {
        EndInside(s, CHANNEL[..n]);
      }
    }
  }

  lemma {:induction false} PlainNoPartialTags(shown: string, blocks: seq<Block>)
    requires '<' !in shown && forall b | b in blocks :: '<' !in b.after
    ensures NoPartialTags(shown, blocks)
    decreases blocks
  {
    PlainNoPartialTag(shown);
    if blocks != [] {
      assert blocks[0] in blocks;
      PlainNoPartialTags(blocks[0].after, blocks[1..]);
    }
  }

  /** In particular the filters agree when no shown text has a `<`. */
  lemma PartsStreamMatchesBatch(r: Reply, chunks: seq<string>)
    requires r.Ok() && Concat(chunks) == Render(r)
    requires '<' !in r.shown && forall b | b in r.blocks :: '<' !in b.after
    ensures Delivered(Stream(chunks)) == ShownText(r)
    ensures Strip(StripThinkingTags(Concat(chunks))) == Strip(ShownText(r))
  {
    PlainHasNoTag(r.shown);
    forall b | b in r.blocks ensures TagFree(b.after) {
      PlainHasNoTag(b.after);
    }
    PlainNoPartialTags(r.shown, r.blocks);
    NoPartialTagsAgree(r, chunks);
  }

  // ---- every text is such a reply --------------------------------------------------------------------

  lemma NoneBefore(a: string, b: string)
    requires FirstThink(a + b, 0) == Some(|a|) && Find(ANALYSIS, a + b, 0).None?
    ensures FirstOpen(a, 0).None?
  {
    var o := FirstOpen(a, 0);
    if o.Some? {
      OpenStays(a, b, o.value);
    }
  }

  lemma NoCloseBody(body: string)
    requires Find(THINK_CLOSE, body, 0).None? && Find(END, body, 0).None?
    ensures FirstClose(body, 0).None?
  {
  }

  /** The block that opens at the start of `s`, up to `e`. */
  lemma BlockText(s: string, e: nat)
    requires ThinkAt(s, 0) && 7 <= e <= |s|
    ensures s[..e] == THINK + [s[6]] + s[7..e] && (IsSpace(s[6]) || s[6] == '>')
  {
    assert forall k | 0 <= k < 6 :: THINK[k] == s[0 + k];
  }

  lemma CloseText(s: string, c: nat)
    requires OccursAt(THINK_CLOSE, s, c)
    ensures c + 8 <= |s| && s[c..] == THINK_CLOSE + s[c + 8..]
  {
    assert forall k | 0 <= k < 8 :: THINK_CLOSE[k] == s[c + k];
  }

  /** No closing tag stands in the body that the first one ends. */
  lemma BodyOk(s: string, e: nat)
    requires ThinkAt(s, 0) && 7 <= e <= |s| && Find(END, s, 0).None?
    requires Find(THINK_CLOSE, s, 7).None? || e <= Find(THINK_CLOSE, s, 7).value
    ensures ThoughtOk(s[6], s[7..e])
  {
    BlockText(s, e);
    var body := s[7..e];
    var c := FirstClose(body, 0);
    if c.Some? {
      assert s == s[..7] + (body + s[e..]);
      CloseStays(body, s[e..], c.value);
      ClosesInDrop(s, body + s[e..], c.value);
    }
  }

  lemma ClosesInDrop(s: string, t: string, i: nat)
    requires |s| >= 7 && t == s[7..] && ClosesAt(t, i)
    ensures OccursAt(THINK_CLOSE, s, 7 + i) || OccursAt(END, s, 7 + i)
  {
    OccursInDrop(THINK_CLOSE, s, 7, i);
    OccursInDrop(END, s, 7, i);
  }

  /** Every text without analysis and end tags is made of shown texts and thinking blocks. */
  lemma {:induction false} EveryTextParses(text: string) returns (r: Reply)
    requires Find(ANALYSIS, text, 0).None? && Find(END, text, 0).None?
    ensures r.Ok() && Render(r) == text
    decreases |text|
  {
    var o := FirstThink(text, 0);
    if o.None? {
      FirstOpenIsThink(text);
      r := Reply(text, [], None);
      assert text + "" == text;
    } else {
      var a, s := text[..o.value], text[o.value..];
      assert text == a + s;
      NoneBefore(a, s);
      ThinkInDrop(text, o.value);
      FindNoneInDrop(END, text, o.value);
      FindNoneInDrop(ANALYSIS, text, o.value);
      r := ParseBlock(a, s);
    }
  }

  lemma {:induction false} ParseBlock(a: string, s: string) returns (r: Reply)
    requires FirstOpen(a, 0).None? && ThinkAt(s, 0) && Find(ANALYSIS, s, 0).None? && Find(END, s, 0).None?
    ensures r.Ok() && Render(r) == a + s
    decreases |s|, 0
  {
    var c := Find(THINK_CLOSE, s, 7);
    if c.None? {
      BlockText(s, |s|);
      BodyOk(s, |s|);
      r := Reply(a, [], Some(Thought(s[6], s[7..])));
      assert s[..|s|] == s && s[7..|s|] == s[7..];
    } else {
      BlockText(s, c.value);
      BodyOk(s, c.value);
      CloseText(s, c.value);
      var rest := s[c.value + 8..];
      FindNoneInDrop(ANALYSIS, s, c.value + 8);
      FindNoneInDrop(END, s, c.value + 8);
      var later := EveryTextParses(rest);
      r := WithBlock(a, Block(s[6], s[7..c.value], later.shown), later);
      assert s == s[..c.value] + s[c.value..];
    }
  }

  lemma WithBlock(a: string, b: Block, later: Reply) returns (r: Reply)
    requires FirstOpen(a, 0).None? && ThoughtOk(b.sep, b.body) && later.Ok() && b.after == later.shown
    ensures r.Ok() && Render(r) == a + ((THINK + [b.sep] + b.body) + (THINK_CLOSE + Render(later)))
  {
    r := Reply(a, [b] + later.blocks, later.open);
    assert ([b] + later.blocks)[1..] == later.blocks;
  }

  // ---- tags that do join --------------------------------------------------------------------------

  lemma PlainHasNoTag(s: string)
    requires '<' !in s
    ensures TagFree(s) && FirstOpen(s, 0).None?
  {
    assert THINK[0] == CHANNEL[0] == ANALYSIS[0] == '<';
    forall i: nat ensures !OpensAt(s, i) && !ThinkAt(s, i) && !OccursAt(CHANNEL, s, i) {
      assert i < |s| ==> s[i + 0] in s;
    }
  }

  predicate SplitTag(tag: string) {
    tag == THINK + ['>'] || tag == CHANNEL
  }

  lemma PartOfTag(tag: string, n: nat)
    requires SplitTag(tag) && 0 < n < |tag|
    ensures TagFree(tag[..n]) && FirstOpen(tag[..n], 0).None?
    ensures '<' !in tag[n..]
  {
    assert forall k | 0 < k < |tag| :: tag[k] != '<';
    var s := tag[..n];
    assert CHANNEL[1] == '|' != THINK[1];
    assert n > 1 && tag == CHANNEL ==> s[1] == CHANNEL[1];
    OccursSecond(THINK, s);
    forall i: nat ensures !ThinkAt(s, i) && !OccursAt(ANALYSIS, s, i) && !OccursAt(CHANNEL, s, i) {
      assert OccursAt(THINK, s, i) ==> s[i + 0] == '<';
    }
  }

  /** A text with a tag split around an empty block. */
  function Split(tag: string, n: nat, rest: string): Reply
    requires n <= |tag|
  {
    Reply(tag[..n], [Block('>', "", tag[n..] + rest)], None)
  }

  lemma SplitShown(tag: string, n: nat, rest: string)
    requires n <= |tag|
    ensures ShownText(Split(tag, n, rest)) == tag + rest
  {
    var r := Split(tag, n, rest);
    assert r.blocks[1..] == [];
    assert Afters(r.blocks) == (tag[n..] + rest) + "";
    assert tag[..n] + tag[n..] == tag;
  }

  lemma ThinkTagHarms(rest: string)
    ensures var v := (THINK + ['>']) + rest; HarmfulAt(v, 0)
  {
    var v := (THINK + ['>']) + rest;
    assert forall k | 0 <= k < 6 :: THINK[k] == v[0 + k];
    assert v[6] == '>';
  }

  lemma ChannelTagHarms(rest: string)
    requires '<' !in rest
    ensures HarmfulAt(CHANNEL + rest, 0)
  {
    var v := CHANNEL + rest;
    assert forall k | 0 <= k < |CHANNEL| :: CHANNEL[k] == v[0 + k];
    DropConcat(CHANNEL, rest);
  }

  lemma WholeTagHarms(tag: string, rest: string)
    requires SplitTag(tag) && '<' !in rest
    ensures HarmfulAt(tag + rest, 0)
  {
    ThinkTagHarms(rest);
    ChannelTagHarms(rest);
  }

  /**
   A thinking or channel tag split anywhere around a block: the stream shows it whole,
   and the batch filter cuts there.
   */
  lemma JoinedTagDiffers(tag: string, n: nat, rest: string, chunks: seq<string>)
    requires SplitTag(tag) && 0 < n < |tag| && '<' !in rest
    requires Concat(chunks) == tag[..n] + ((THINK + ['>']) + (THINK_CLOSE + (tag[n..] + rest)))
    ensures Delivered(Stream(chunks)) == tag + rest
    ensures Strip(StripThinkingTags(Concat(chunks))) != Strip(tag + rest)
  {
    var r := Split(tag, n, rest);
    PartOfTag(tag, n);
    PlainHasNoTag(tag[n..] + rest);
    PlainHasNoTag("");
    NoCloseBody("");
    SplitShown(tag, n, rest);
    SplitRenders(tag, n, rest);
    WholeTagHarms(tag, rest);
    HarmfulRewrites(tag + rest, 0);
    ReplyMatchesIff(r, chunks);
  }

  lemma SplitRenders(tag: string, n: nat, rest: string)
    requires n <= |tag|
    ensures Render(Split(tag, n, rest)) == tag[..n] + ((THINK + ['>']) + (THINK_CLOSE + (tag[n..] + rest)))
  {
    var blocks := Split(tag, n, rest).blocks;
    var after := tag[n..] + rest;
    OneBlock(blocks, '>', "", after);
    assert after + "" == after && (THINK + ['>']) + "" == THINK + ['>'];
  }

  lemma OneBlock(blocks: seq<Block>, sep: char, body: string, after: string)
    requires blocks == [Block(sep, body, after)]
    ensures RenderTail(blocks, None) == (THINK + [sep] + body) + (THINK_CLOSE + (after + ""))
  {
    assert blocks[1..] == [];
  }
}
