/**
 The batch filter for stored answers, and how it relates to what a stream
 delivers: `out` plus the buffer that is flushed when no block is open.
 */
module ThinkingBatch {
  import opened Wrappers
  import opened Words
  import opened Whitespace
  import opened ThinkingFilter

  /** Everything the client has received once the stream ended. */
  function Delivered(s: Step): string {
    if s.thinking then s.out else s.out + s.buffer
  }

  function FirstThink(s: string, from: nat): (r: Option<nat>)
    ensures r.Some? ==> from <= r.value && ThinkAt(s, r.value)
    ensures r.Some? ==> forall i | from <= i < r.value :: !ThinkAt(s, i)
    ensures r.None? ==> forall i | from <= i :: !ThinkAt(s, i)
    decreases |s| - from
  {
    if from >= |s| then None else if ThinkAt(s, from) then Some(from) else FirstThink(s, from + 1)
  }

  /** Pass 1: drop every `<think ...>...</think>`, shortest body first. */
  function RemoveClosed(s: string): string
    decreases |s|
  {
    var o := FirstThink(s, 0);
    if o.None? then s
    else
      var c := Find(THINK_CLOSE, s, o.value + 7);
      if c.None? then s else s[..o.value] + RemoveClosed(s[c.value + 8..])
  }

  /** Pass 2: drop an unclosed `<think ...` to the end. */
  function RemoveUnclosed(s: string): string {
    var o := FirstThink(s, 0);
    if o.None? then s else s[..o.value]
  }

  /** Passes 3 and 5: drop, or unwrap, `open ... <|end|>`. */
  function Enclosed(s: string, open: string, keep: bool): string
    requires |open| > 0
    decreases |s|, 1
  {
    var o := Find(open, s, 0);
    if o.None? then s
    else
      var c := Find(END, s, o.value + |open|);
      if c.None? then s
      else EnclosedFrom(s, open, keep, o.value, c.value)
  }

  /** Drops the block from `o` to the end tag at `c`, and the blocks behind it. */
  function EnclosedFrom(s: string, open: string, keep: bool, o: nat, c: nat): string
    requires |open| > 0 && o + |open| <= c && c + |END| <= |s|
    decreases |s|, 0
  {
    s[..o] + (if keep then s[o + |open|..c] else "") + Enclosed(s[c + |END|..], open, keep)
  }

  /** Pass 4: drop an unclosed analysis block to the end. */
  function CutAt(s: string, open: string): string {
    var o := Find(open, s, 0);
    if o.None? then s else s[..o.value]
  }

  /** Pass 6: drop a channel tag that no other tag follows, to the end. */
  function CutMalformed(s: string, from: nat): string
    decreases |s| - from
  {
    var o := Find(CHANNEL, s, from);
    if o.None? then s
    else if '<' in s[o.value + |CHANNEL|..] then CutMalformed(s, o.value + 1)
    else s[..o.value]
  }

  function ChannelPasses(s: string): string {
    CutMalformed(Enclosed(CutAt(Enclosed(s, ANALYSIS, false), ANALYSIS), COMMENTARY, true), 0)
  }

  /** The whole batch filter. */
  function StripThinkingTags(text: string): string {
    if Find(THINK, text, 0).None? && Find(CHANNEL, text, 0).None? then text
    else Strip(ChannelPasses(RemoveUnclosed(RemoveClosed(text))))
  }

  // ---- the stream and the first two passes ---------------------------------------

  /** Without channel tags the only opening tag is `<think` and the only closing one `</think>`. */
  lemma FirstOpenIsThink(s: string)
    requires Find(ANALYSIS, s, 0).None?
    ensures FirstOpen(s, 0) == FirstThink(s, 0)
  {
    assert forall i: nat :: OpensAt(s, i) <==> ThinkAt(s, i);
    var o := FirstThink(s, 0);
    if o.Some? {
      FirstOpenIs(s, o.value);
    }
  }

  lemma FirstCloseIsThink(s: string)
    requires Find(END, s, 0).None? && ThinkAt(s, 0)
    ensures FirstClose(s, 0) == Find(THINK_CLOSE, s, 7)
  {
    InsideThink(s, 0);
    assert forall i: nat :: ClosesAt(s, i) <==> OccursAt(THINK_CLOSE, s, i);
    assert s[0 + 1] != THINK_CLOSE[1];
    forall i: nat | i < 7 ensures !ClosesAt(s, i) {
      if ClosesAt(s, i) {
        InsideClose(s, i);
      }
    }
    var c := Find(THINK_CLOSE, s, 7);
    if c.Some? {
      FirstCloseIs(s, c.value);
    }
  }

  lemma FindNoneInDrop(p: string, s: string, k: nat)
    requires Find(p, s, 0).None? && k <= |s|
    ensures Find(p, s[k..], 0).None?
  {
    var r := Find(p, s[k..], 0);
    if r.Some? {
      OccursInDrop(p, s, k, r.value);
    }
  }

  lemma FindIs(p: string, s: string, from: nat, i: nat)
    requires from <= i && OccursAt(p, s, i)
    requires forall j | from <= j < i :: !OccursAt(p, s, j)
    ensures Find(p, s, from) == Some(i)
  {
  }

  lemma FindInDrop(p: string, s: string, k: nat, from: nat)
    requires k <= |s|
    ensures Find(p, s, k + from).None? ==> Find(p, s[k..], from).None?
    ensures Find(p, s, k + from).Some? ==> Find(p, s[k..], from) == Some(Find(p, s, k + from).value - k)
  {
    forall i: nat ensures OccursAt(p, s[k..], i) <==> OccursAt(p, s, k + i) {
      OccursInDrop(p, s, k, i);
    }
    var r := Find(p, s, k + from);
    if r.Some? {
      FindIs(p, s[k..], from, r.value - k);
    }
  }

  lemma ThinkInDrop(s: string, o: nat)
    requires ThinkAt(s, o)
    ensures ThinkAt(s[o..], 0)
  {
    OccursInDrop(THINK, s, o, 0);
  }

  /** What the stream has emitted and still buffers is the text without its closed blocks. */
  ghost predicate Agrees(s: string, r: Step) {
    && r.out + r.buffer == RemoveClosed(s)
    && (r.thinking ==> ThinkAt(r.buffer, 0))
  }

  lemma {:induction false} StreamRemovesClosed(s: string)
    requires Find(ANALYSIS, s, 0).None? && Find(END, s, 0).None?
    ensures Agrees(s, Process(s, false))
    decreases |s|, 2
  {
    FirstOpenIsThink(s);
    if FirstOpen(s, 0).None? {
      NoBlock(s);
    } else {
      FromBlock(s, FirstOpen(s, 0).value);
    }
  }

  /** The same when the first block opens at `o`. */
  lemma {:induction false} FromBlock(s: string, o: nat)
    requires Find(ANALYSIS, s, 0).None? && Find(END, s, 0).None?
    requires FirstOpen(s, 0) == Some(o) && FirstThink(s, 0) == Some(o)
    ensures Agrees(s, Process(s, false))
    decreases |s|, 1
  {
    if FirstClose(s[o..], 0).None? {
      CloseAfterOpen(s, o);
      BlockUnclosed(s, o);
    } else {
      FromClosedBlock(s, o, s[o..], FirstClose(s[o..], 0).value);
    }
  }

  lemma {:induction false} FromClosedBlock(s: string, o: nat, t: string, c: nat)
    requires Find(ANALYSIS, s, 0).None? && Find(END, s, 0).None?
    requires FirstOpen(s, 0) == Some(o) && FirstThink(s, 0) == Some(o)
    requires t == s[o..] && FirstClose(t, 0).Some? && FirstClose(t, 0).value == c
    ensures Agrees(s, Process(s, false))
    decreases |s|, 0, 1
  {
    CloseAfterOpen(s, o);
    var d := o + c;
    FindFits(THINK_CLOSE, s, o + 7);
    var rest := s[d + 8..];
    SameRest(s, o, c, d);
    InsideBlock(s, rest, d, t, c);
    BlockClosed(s, o, d, t, rest);
  }

  lemma SameRest(s: string, o: nat, c: nat, d: nat)
    requires d == o + c && d + 8 <= |s|
    ensures s[o..][c + 8..] == s[d + 8..]
  {
  }

  /** Agreement behind a closed block is agreement from its start. */
  lemma BlockClosed(s: string, o: nat, d: nat, t: string, rest: string)
    requires FirstOpen(s, 0) == Some(o) && FirstThink(s, 0) == Some(o) && t == s[o..]
    requires Find(THINK_CLOSE, s, o + 7).Some? && Find(THINK_CLOSE, s, o + 7).value == d
    requires d + 8 <= |s| && rest == s[d + 8..] && Agrees(rest, Process(t, true))
    ensures Agrees(s, Process(s, false))
  {
    OpenStep(s, o);
    RemoveStep(s, o, d);
    AgreesBefore(s, rest, s[..o], Process(t, true));
  }

  /** The same from inside a block that will be closed. */
  lemma {:induction false} InsideBlock(s: string, rest: string, d: nat, t: string, c: nat)
    requires Find(ANALYSIS, s, 0).None? && Find(END, s, 0).None?
    requires d + 8 <= |s| && rest == s[d + 8..]
    requires FirstClose(t, 0).Some? && FirstClose(t, 0).value == c && CloseEnd(t, c) == c + 8 && rest == t[c + 8..]
    ensures Agrees(rest, Process(t, true))
    decreases |s|, 0, 0
  {
    FindNoneInDrop(ANALYSIS, s, d + 8);
    FindNoneInDrop(END, s, d + 8);
    StreamRemovesClosed(rest);
    CloseStep(t, c);
  }

  lemma AgreesBefore(s: string, rest: string, front: string, r: Step)
    requires RemoveClosed(s) == front + RemoveClosed(rest) && Agrees(rest, r)
    ensures Agrees(s, Prepend(front, r))
  {
    Assoc(front, r.out, r.buffer);
  }

  /** The block that opens at `o` closes at the same place for both filters. */
  lemma CloseAfterOpen(s: string, o: nat)
    requires ThinkAt(s, o) && Find(END, s, 0).None?
    ensures var c := FirstClose(s[o..], 0);
      Find(THINK_CLOSE, s, o + 7) == (if c.None? then None else Some(o + c.value))
    ensures var c := FirstClose(s[o..], 0);
      c.Some? ==> CloseEnd(s[o..], c.value) == c.value + 8
    ensures ThinkAt(s[o..], 0)
  {
    ThinkInDrop(s, o);
    FindNoneInDrop(END, s, o);
    FirstCloseIsThink(s[o..]);
    FindInDrop(THINK_CLOSE, s, o, 7);
  }

  lemma OpenStep(s: string, o: nat)
    requires FirstOpen(s, 0) == Some(o)
    ensures Process(s, false) == Prepend(s[..o], Process(s[o..], true))
  {
  }

  lemma CloseStep(t: string, c: nat)
    requires FirstClose(t, 0) == Some(c)
    ensures Process(t, true) == Process(t[CloseEnd(t, c)..], false)
  {
  }

  lemma FindFits(p: string, s: string, from: nat)
    requires Find(p, s, from).Some?
    ensures from <= Find(p, s, from).value && Find(p, s, from).value + |p| <= |s|
  {
  }

  lemma RemoveStep(s: string, o: nat, d: nat)
    requires FirstThink(s, 0).Some? && FirstThink(s, 0).value == o
    requires Find(THINK_CLOSE, s, o + 7).Some? && Find(THINK_CLOSE, s, o + 7).value == d && d + 8 <= |s|
    ensures RemoveClosed(s) == s[..o] + RemoveClosed(s[d + 8..])
  {
  }

  lemma BlockUnclosed(s: string, o: nat)
    requires FirstOpen(s, 0) == Some(o) && FirstThink(s, 0) == Some(o)
    requires FirstClose(s[o..], 0).None? && Find(THINK_CLOSE, s, o + 7).None?
    requires ThinkAt(s[o..], 0)
    ensures Agrees(s, Process(s, false))
  {
    assert s[..o] + "" == s[..o];
  }

  lemma NoBlock(s: string)
    requires FirstOpen(s, 0).None? && FirstThink(s, 0).None?
    ensures Agrees(s, Process(s, false))
  {
  }

  /** A buffered open block is where the second pass cuts, unless an earlier tag appeared by joining. */
  lemma FirstThinkOfResult(out: string, buffer: string, thinking: bool)
    requires thinking ==> ThinkAt(buffer, 0)
    ensures var v := if thinking then out else out + buffer;
      RemoveUnclosed(out + buffer) == if FirstThink(v, 0).None? then v else v[..FirstThink(v, 0).value]
  {
    if thinking {
      var s := out + buffer;
      var o := FirstThink(out, 0);
      forall i: nat | i < |out| ensures ThinkAt(out, i) <==> ThinkAt(s, i) {
        ThinkInside(out, buffer, i);
      }
      ThinkAtJoin(out, buffer);
      FirstThinkIs(s, if o.Some? then o.value else |out|);
    }
  }

  lemma FirstThinkIs(s: string, o: nat)
    requires ThinkAt(s, o) && forall i | 0 <= i < o :: !ThinkAt(s, i)
    ensures FirstThink(s, 0) == Some(o)
  {
  }

  lemma ThinkAtJoin(a: string, b: string)
    requires ThinkAt(b, 0)
    ensures ThinkAt(a + b, |a|)
  {
    assert (a + b)[|a|..] == b;
    OccursInDrop(THINK, a + b, |a|, 0);
  }

  lemma ThinkInside(a: string, b: string, i: nat)
    requires i < |a| && ThinkAt(b, 0)
    ensures ThinkAt(a, i) <==> ThinkAt(a + b, i)
  {
    InsideThink(b, 0);
    assert (a + b)[|a|] == '<';
    if ThinkAt(a + b, i) {
      InsideThink(a + b, i);
    }
    if i + 7 <= |a| {
      OccursInLonger(THINK, a, b, i);
    }
  }

  // ---- the channel passes and the final strip -------------------------------------

  /** Both opening channel tags start with the channel tag. */
  lemma ChannelInside(s: string, i: nat)
    ensures OccursAt(ANALYSIS, s, i) ==> OccursAt(CHANNEL, s, i)
    ensures OccursAt(COMMENTARY, s, i) ==> OccursAt(CHANNEL, s, i)
  {
    assert ANALYSIS[..|CHANNEL|] == CHANNEL && COMMENTARY[..|CHANNEL|] == CHANNEL;
    if OccursAt(ANALYSIS, s, i) {
      PrefixOccurs(CHANNEL, ANALYSIS, s, i);
    }
    if OccursAt(COMMENTARY, s, i) {
      PrefixOccurs(CHANNEL, COMMENTARY, s, i);
    }
  }

  lemma PrefixOccurs(p: string, q: string, s: string, i: nat)
    requires |p| <= |q| && q[..|p|] == p && OccursAt(q, s, i)
    ensures OccursAt(p, s, i)
  {
    forall k | 0 <= k < |p| ensures p[k] == s[i + k] {
      assert p[k] == q[..|p|][k] == q[k];
    }
  }

  // ---- what each channel pass changes ---------------------------------------------

  /** A closed block of this kind: the tag and, behind it, an end tag. */
  predicate Encloses(s: string, open: string) {
    Find(open, s, 0).Some? && Find(END, s, Find(open, s, 0).value + |open|).Some?
  }

  predicate ChannelTag(open: string) {
    open == ANALYSIS || open == COMMENTARY || open == CHANNEL
  }

  lemma TagStarts(open: string, s: string, i: nat)
    requires ChannelTag(open) && OccursAt(open, s, i)
    ensures i + |open| <= |s| && s[i] == '<' && !IsSpace('<')
  {
    assert open[0] == s[i + 0];
  }

  lemma EnclosedIs(s: string, open: string, keep: bool, o: nat, c: nat)
    requires |open| > 0 && Find(open, s, 0).Some? && Find(open, s, 0).value == o
    requires Find(END, s, o + |open|).Some? && Find(END, s, o + |open|).value == c
    requires o + |open| <= c && c + |END| <= |s|
    ensures Enclosed(s, open, keep) == EnclosedFrom(s, open, keep, o, c)
  {
  }

  /** What stands before, inside and behind the first closed block. */
  lemma EnclosedParts(s: string, open: string, keep: bool, o: nat, c: nat, rest: string)
    requires |open| > 0 && o + |open| <= c && c + |END| <= |s| && rest == s[c + |END|..]
    ensures EnclosedFrom(s, open, keep, o, c) == s[..o] + (if keep then s[o + |open|..c] else "") + Enclosed(rest, open, keep)
  {
  }

  lemma {:induction false} EnclosedFades(s: string, open: string, keep: bool)
    requires ChannelTag(open)
    ensures if Encloses(s, open) then Ink(Enclosed(s, open, keep)) < Ink(s) else Enclosed(s, open, keep) == s
    decreases |s|
  {
    if Encloses(s, open) {
      var o := Find(open, s, 0).value;
      var c := Find(END, s, o + |open|).value;
      FindFits(END, s, o + |open|);
      var rest := s[c + |END|..];
      EnclosedFades(rest, open, keep);
      EnclosedStep(s, open, keep, o, c, rest);
    } else {
      NotEnclosed(s, open, keep);
    }
  }

  lemma NotEnclosed(s: string, open: string, keep: bool)
    requires |open| > 0 && !Encloses(s, open)
    ensures Enclosed(s, open, keep) == s
  {
  }

  lemma EnclosedStep(s: string, open: string, keep: bool, o: nat, c: nat, rest: string)
    requires ChannelTag(open) && Find(open, s, 0).Some? && Find(open, s, 0).value == o
    requires Find(END, s, o + |open|).Some? && Find(END, s, o + |open|).value == c
    requires o + |open| <= c && c + |END| <= |s| && rest == s[c + |END|..]
    requires Ink(Enclosed(rest, open, keep)) <= Ink(rest)
    ensures Ink(Enclosed(s, open, keep)) < Ink(s)
  {
    TagStarts(open, s, o);
    BlockInk(s, |open|, o, c, c + |END|);
    EnclosedIs(s, open, keep, o, c);
    EnclosedFromInk(s, open, keep, o, c, rest, Ink(s));
  }

  lemma EnclosedFromInk(s: string, open: string, keep: bool, o: nat, c: nat, rest: string, ink: nat)
    requires |open| > 0 && o + |open| <= c && c + |END| <= |s| && rest == s[c + |END|..]
    requires Ink(s[..o]) + Ink(s[o + |open|..c]) + Ink(rest) < ink && Ink(Enclosed(rest, open, keep)) <= Ink(rest)
    ensures Ink(EnclosedFrom(s, open, keep, o, c)) < ink
  {
    EnclosedParts(s, open, keep, o, c, rest);
    EnclosedInk(s[..o], s[o + |open|..c], keep, rest, Enclosed(rest, open, keep), ink);
  }

  lemma PartsInk(front: string, kept: string, later: string, ink: nat)
    requires Ink(front) + Ink(kept) + Ink(later) < ink
    ensures Ink(front + kept + later) < ink
  {
    InkThree(front, kept, later);
  }

  lemma EnclosedInk(front: string, inside: string, keep: bool, rest: string, later: string, ink: nat)
    requires Ink(front) + Ink(inside) + Ink(rest) < ink && Ink(later) <= Ink(rest)
    ensures Ink(front + (if keep then inside else "") + later) < ink
  {
    PartsInk(front, if keep then inside else "", later, ink);
  }

  /** The visible characters of a block that ends at `e`, part by part. */
  lemma BlockInk(s: string, n: nat, o: nat, c: nat, e: nat)
    requires n > 0 && o + n <= c <= e <= |s| && !IsSpace(s[o])
    ensures Ink(s[..o]) + Ink(s[o + n..c]) + Ink(s[e..]) < Ink(s)
  {
    TagInk(s, o, o + n, c);
    EndInk(s, c, e);
  }

  lemma TagInk(s: string, o: nat, m: nat, c: nat)
    requires o < m <= c <= |s| && !IsSpace(s[o])
    ensures Ink(s[..o]) + Ink(s[m..c]) < Ink(s[..c])
  {
    InkRange(s, m, c);
    InkRange(s, o, m);
    InkInside(s, o, m);
  }

  lemma EndInk(s: string, c: nat, e: nat)
    requires c <= e <= |s|
    ensures Ink(s[..c]) + Ink(s[e..]) <= Ink(s)
  {
    InkSplit(s, e);
    InkRange(s, c, e);
  }

  lemma CutAtFades(s: string, open: string)
    requires ChannelTag(open)
    ensures Fades(s, CutAt(s, open)) && (CutAt(s, open) == s <==> Find(open, s, 0).None?)
  {
    var o := Find(open, s, 0);
    if o.Some? {
      TagStarts(open, s, o.value);
      CutFades(s, o.value);
    }
  }

  /** A channel tag that no `<` follows. */
  predicate MalformedAt(s: string, i: nat) {
    OccursAt(CHANNEL, s, i) && '<' !in s[i + |CHANNEL|..]
  }

  predicate Malformed(s: string, from: nat) {
    exists i: nat | from <= i < |s| :: MalformedAt(s, i)
  }

  lemma {:induction false} CutMalformedFades(s: string, from: nat)
    ensures Fades(s, CutMalformed(s, from)) && (CutMalformed(s, from) == s <==> !Malformed(s, from))
    decreases |s| - from
  {
    var o := Find(CHANNEL, s, from);
    if o.Some? {
      FindFits(CHANNEL, s, from);
      MalformedStep(s, from, o.value);
      if MalformedAt(s, o.value) {
        MalformedCut(s, from, o.value);
      } else {
        CutMalformedFades(s, o.value + 1);
        LaterMalformed(s, from, o.value);
      }
    } else {
      NoChannel(s, from);
    }
  }

  lemma NoChannel(s: string, from: nat)
    requires Find(CHANNEL, s, from).None?
    ensures CutMalformed(s, from) == s && !Malformed(s, from)
  {
  }

  lemma MalformedCut(s: string, from: nat, o: nat)
    requires from <= o && MalformedAt(s, o)
    ensures o < |s| && Ink(s[..o]) < Ink(s) && s[..o] != s && Malformed(s, from)
  {
    TagStarts(CHANNEL, s, o);
    CutFades(s, o);
  }

  lemma MalformedStep(s: string, from: nat, o: nat)
    requires Find(CHANNEL, s, from).Some? && Find(CHANNEL, s, from).value == o
    ensures CutMalformed(s, from) == if MalformedAt(s, o) then s[..o] else CutMalformed(s, o + 1)
  {
  }

  lemma LaterMalformed(s: string, from: nat, o: nat)
    requires Find(CHANNEL, s, from) == Some(o) && !MalformedAt(s, o)
    ensures Malformed(s, from) <==> Malformed(s, o + 1)
  {
    if Malformed(s, from) {
      var i: nat :| from <= i < |s| && MalformedAt(s, i);
      assert i > o;
    }
  }

  /** Some pass behind the thinking passes rewrites the text. */
  predicate ChannelRewritten(s: string) {
    Find(ANALYSIS, s, 0).Some? || Encloses(s, COMMENTARY) || Malformed(s, 0)
  }

  /** The channel passes leave a text alone exactly when none of them applies, and else take visible characters. */
  lemma ChannelPassesFade(s: string)
    ensures Fades(s, ChannelPasses(s)) && (ChannelPasses(s) == s <==> !ChannelRewritten(s))
  {
    var a := Enclosed(s, ANALYSIS, false);
    var b := CutAt(a, ANALYSIS);
    var c := Enclosed(b, COMMENTARY, true);
    EnclosedFades(s, ANALYSIS, false);
    CutAtFades(a, ANALYSIS);
    EnclosedFades(b, COMMENTARY, true);
    CutMalformedFades(c, 0);
  }

  /** Some pass rewrites a text that the first pass has left. */
  predicate Rewritten(s: string) {
    FirstThink(s, 0).Some? || ChannelRewritten(s)
  }

  /** The later passes, on a shown text with an unclosed block behind it or none. */
  lemma LaterPassesFade(shown: string, open: string)
    requires open == "" || ThinkAt(open, 0)
    ensures var stored := ChannelPasses(RemoveUnclosed(shown + open));
      Fades(shown, stored) && (stored == shown <==> !Rewritten(shown))
  {
    FirstThinkOfResult(shown, open, open != "");
    assert shown + "" == shown;
    var cut := RemoveUnclosed(shown + open);
    ChannelPassesFade(cut);
    if FirstThink(shown, 0).Some? {
      InsideThink(shown, FirstThink(shown, 0).value);
      CutFades(shown, FirstThink(shown, 0).value);
    }
  }
}
