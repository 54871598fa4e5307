/** Replies with every kind of block, the tags written out: what the stream shows of them. */
module ThinkingTags {
  import opened Wrappers
  import opened Words
  import opened Whitespace
  import opened ThinkingFilter
  import opened ThinkingBatch
  import opened ThinkingReplies

  /** A thinking block, reasoning in the analysis channel, or an answer in the commentary channel. */
  datatype Kind = Thinking(sep: char) | Analysis | Commentary

  function OpenTag(kind: Kind): string {
    match kind
    case Thinking(sep) => "<think" + [sep]
    case Analysis => "<|channel|>analysis<|message|>"
    case Commentary => "<|channel|>commentary<|message|>"
  }

  function CloseTag(kind: Kind): string {
    if kind.Thinking? then "</think>" else "<|end|>"
  }

  /** A closed block and the text behind it. */
  datatype Part = Part(kind: Kind, body: string, after: string)

  /** A block that is not closed. */
  datatype Open = Open(kind: Kind, body: string)

  predicate KindOk(kind: Kind) {
    kind.Thinking? ==> kind.sep in " \t\r\n>"
  }

  /** No text has a `<` of its own. */
  predicate PartsOk(parts: seq<Part>) {
    parts == []
    || (KindOk(parts[0].kind) && '<' !in parts[0].body && '<' !in parts[0].after && PartsOk(parts[1..]))
  }

  predicate OpenOk(open: Option<Open>) {
    open.Some? ==> KindOk(open.value.kind) && '<' !in open.value.body
  }

  function Written(parts: seq<Part>, open: Option<Open>): string {
    if parts == [] then (if open.Some? then OpenTag(open.value.kind) + open.value.body else "")
    else
      var p := parts[0];
      (OpenTag(p.kind) + p.body) + (CloseTag(p.kind) + (p.after + Written(parts[1..], open)))
  }

  /** The stream drops thinking and analysis, and passes the commentary channel on, tags and all. */
  function Streamed(parts: seq<Part>, open: Option<Open>): string {
    if parts == [] then
      if open.Some? && open.value.kind.Commentary? then "<|channel|>commentary<|message|>" + open.value.body else ""
    else
      var p := parts[0];
      (if p.kind.Commentary? then ("<|channel|>commentary<|message|>" + p.body) + "<|end|>" else "")
      + (p.after + Streamed(parts[1..], open))
  }

  // ---- where tags can stand -------------------------------------------------------------------

  lemma At(p: string, s: string, i: nat, k: nat)
    requires OccursAt(p, s, i) && k < |p|
    ensures i + k < |s| && s[i + k] == p[k]
  {
  }

  lemma Occurs(p: string, rest: string)
    ensures OccursAt(p, p + rest, 0)
  {
    assert forall k | 0 <= k < |p| :: (p + rest)[0 + k] == p[k];
  }

  /** A tag stands at its `<` only. */
  lemma NotInPlain(p: string, a: string, rest: string, i: nat)
    requires p != "" && p[0] == '<' && '<' !in a && i < |a|
    ensures !OccursAt(p, a + rest, i)
  {
    assert (a + rest)[i] == a[i] && a[i] in a;
    assert p[0] != (a + rest)[i + 0];
  }

  /** The first characters of the tags. */
  lemma TagHeads(s: string, i: nat)
    ensures OpensAt(s, i) ==> i + 2 < |s| && s[i] == '<' && (s[i + 1] == 't' || (s[i + 1] == '|' && s[i + 2] == 'c'))
    ensures ClosesAt(s, i) ==> i + 2 < |s| && s[i] == '<' && (s[i + 1] == '/' || (s[i + 1] == '|' && s[i + 2] == 'e'))
    ensures OccursAt(ANALYSIS, s, i) ==> i + 11 < |s| && s[i + 11] == 'a'
  {
    if OccursAt(THINK, s, i) {
      At(THINK, s, i, 0);
      At(THINK, s, i, 1);
    }
    if OccursAt(ANALYSIS, s, i) {
      At(ANALYSIS, s, i, 0);
      At(ANALYSIS, s, i, 1);
      At(ANALYSIS, s, i, 2);
      At(ANALYSIS, s, i, 11);
    }
    if OccursAt(THINK_CLOSE, s, i) {
      At(THINK_CLOSE, s, i, 0);
      At(THINK_CLOSE, s, i, 1);
    }
    if OccursAt(END, s, i) {
      At(END, s, i, 0);
      At(END, s, i, 1);
      At(END, s, i, 2);
    }
  }

  lemma BodyPlain(tag: string, body: string, rest: string, i: nat)
    requires '<' !in body && |tag| <= i < |tag + body|
    ensures ((tag + body) + rest)[i] != '<'
  {
    assert ((tag + body) + rest)[i] == body[i - |tag|] && body[i - |tag|] in body;
  }

  /** Behind its start an opening tag with its body has a `<` only in front of `|message|>`. */
  lemma InnerMarks(kind: Kind, body: string, rest: string, i: nat)
    requires KindOk(kind) && '<' !in body && i < |OpenTag(kind) + body|
    ensures var s := (OpenTag(kind) + body) + rest;
      s[i] == '<' ==> i == 0 || (i + 2 < |s| && s[i + 1] == '|' && s[i + 2] == 'm')
  {
    var tag := OpenTag(kind);
    var s := (tag + body) + rest;
    if i < |tag| {
      assert s[i] == tag[i];
      assert i + 2 < |tag| ==> s[i + 1] == tag[i + 1] && s[i + 2] == tag[i + 2];
    } else {
      BodyPlain(tag, body, rest, i);
    }
  }

  lemma TagStart(kind: Kind, body: string, rest: string)
    ensures var s := (OpenTag(kind) + body) + rest;
      && |s| > 6 && s[0] == '<'
      && (kind.Thinking? ==> s[1] == 't' && s[6] == kind.sep)
      && (!kind.Thinking? ==> |s| > 11 && s[1] == '|' && s[2] == 'c' && (s[11] == 'a' <==> kind.Analysis?))
  {
    var tag := OpenTag(kind);
    var s := (tag + body) + rest;
    assert forall k | 0 <= k < |tag| :: s[k] == tag[k];
  }

  lemma NoCloseInside(kind: Kind, body: string, rest: string, i: nat)
    requires KindOk(kind) && '<' !in body && i < |OpenTag(kind) + body|
    ensures !ClosesAt((OpenTag(kind) + body) + rest, i)
  {
    TagHeads((OpenTag(kind) + body) + rest, i);
    TagStart(kind, body, rest);
    InnerMarks(kind, body, rest, i);
  }

  lemma NoOpenInside(kind: Kind, body: string, rest: string, i: nat)
    requires KindOk(kind) && '<' !in body && i < |OpenTag(kind) + body| && (kind.Commentary? || i > 0)
    ensures !OpensAt((OpenTag(kind) + body) + rest, i)
  {
    TagHeads((OpenTag(kind) + body) + rest, i);
    TagStart(kind, body, rest);
    InnerMarks(kind, body, rest, i);
  }

  // ---- the stream -----------------------------------------------------------------------------------

  lemma PlainDelivered(a: string, rest: string)
    requires '<' !in a
    ensures Delivered(Process(a + rest, false)) == a + Delivered(Process(rest, false))
  {
    forall i: nat | i < |a| ensures !OpensAt(a + rest, i) {
      NotInPlain(THINK, a, rest, i);
      NotInPlain(ANALYSIS, a, rest, i);
    }
    DeliveredAfter(a, rest);
  }

  lemma TagOpens(kind: Kind, body: string, rest: string)
    requires KindOk(kind) && !kind.Commentary?
    ensures FirstOpen((OpenTag(kind) + body) + rest, 0) == Some(0)
  {
    var s := (OpenTag(kind) + body) + rest;
    Assoc(OpenTag(kind), body, rest);
    Occurs(OpenTag(kind), body + rest);
    if kind.Thinking? {
      Assoc("<think", [kind.sep], body + rest);
      Occurs("<think", [kind.sep] + (body + rest));
      TagStart(kind, body, rest);
    }
  }

  lemma CloseTagEnds(kind: Kind, s: string, c: nat)
    requires OccursAt(CloseTag(kind), s, c)
    ensures ClosesAt(s, c) && CloseEnd(s, c) == c + |CloseTag(kind)|
  {
    At(CloseTag(kind), s, c, 1);
    if OccursAt(THINK_CLOSE, s, c) {
      At(THINK_CLOSE, s, c, 1);
    }
  }

  lemma TagCloses(kind: Kind, body: string, rest: string, front: string)
    requires KindOk(kind) && '<' !in body && front == OpenTag(kind) + body
    ensures var s := front + (CloseTag(kind) + rest);
      && FirstClose(s, 0) == Some(|front|) && CloseEnd(s, |front|) == |front| + |CloseTag(kind)|
      && s[|front| + |CloseTag(kind)|..] == rest
  {
    var s := front + (CloseTag(kind) + rest);
    OccursBetween(CloseTag(kind), front, rest);
    CloseTagEnds(kind, s, |front|);
    forall i: nat | i < |front| ensures !ClosesAt(s, i) {
      NoCloseInside(kind, body, CloseTag(kind) + rest, i);
    }
    FirstCloseIs(s, |front|);
  }

  /** A block of reasoning disappears, whatever stands behind it. */
  lemma BlockDropped(kind: Kind, body: string, rest: string)
    requires KindOk(kind) && !kind.Commentary? && '<' !in body
    ensures Delivered(Process((OpenTag(kind) + body) + (CloseTag(kind) + rest), false)) == Delivered(Process(rest, false))
  {
    TagOpens(kind, body, CloseTag(kind) + rest);
    TagCloses(kind, body, rest, OpenTag(kind) + body);
    BlockSkipped((OpenTag(kind) + body) + (CloseTag(kind) + rest), |OpenTag(kind) + body|, rest);
  }

  /** So does one that is never closed. */
  lemma OpenDropped(kind: Kind, body: string)
    requires KindOk(kind) && !kind.Commentary? && '<' !in body
    ensures Delivered(Process(OpenTag(kind) + body, false)) == ""
  {
    var s := OpenTag(kind) + body;
    assert s + "" == s && s[0..] == s && s[..0] == "";
    TagOpens(kind, body, "");
    forall i: nat | i < |s| ensures !ClosesAt(s, i) {
      NoCloseInside(kind, body, "", i);
    }
    OpenStep(s, 0);
  }

  /** The commentary channel is passed on with its tag. */
  lemma CommentaryPasses(body: string, rest: string)
    requires '<' !in body
    ensures var front := OpenTag(Commentary) + body;
      Delivered(Process(front + rest, false)) == front + Delivered(Process(rest, false))
  {
    var front := OpenTag(Commentary) + body;
    forall i: nat | i < |front| ensures !OpensAt(front + rest, i) {
      NoOpenInside(Commentary, body, rest, i);
    }
    DeliveredAfter(front, rest);
  }

  lemma NoOpenInEnd(rest: string, i: nat)
    requires i < 7
    ensures !OpensAt("<|end|>" + rest, i)
  {
    TagHeads("<|end|>" + rest, i);
    assert forall k | 0 <= k < 7 :: ("<|end|>" + rest)[k] == "<|end|>"[k];
  }

  /** So is an end tag outside a block. */
  lemma EndPasses(rest: string)
    ensures Delivered(Process("<|end|>" + rest, false)) == "<|end|>" + Delivered(Process(rest, false))
  {
    forall i: nat | i < 7 ensures !OpensAt("<|end|>" + rest, i) {
      NoOpenInEnd(rest, i);
    }
    DeliveredAfter("<|end|>", rest);
  }

  lemma ClosedCommentaryPasses(body: string, rest: string)
    requires '<' !in body
    ensures var front := OpenTag(Commentary) + body;
      Delivered(Process(front + ("<|end|>" + rest), false)) == (front + "<|end|>") + Delivered(Process(rest, false))
  {
    var front := OpenTag(Commentary) + body;
    CommentaryPasses(body, "<|end|>" + rest);
    EndPasses(rest);
    Assoc(front, "<|end|>", Delivered(Process(rest, false)));
  }

  lemma PartStreamed(p: Part, tail: string)
    requires KindOk(p.kind) && '<' !in p.body && '<' !in p.after
    ensures Delivered(Process((OpenTag(p.kind) + p.body) + (CloseTag(p.kind) + (p.after + tail)), false))
      == (if p.kind.Commentary? then (OpenTag(Commentary) + p.body) + "<|end|>" else "")
         + (p.after + Delivered(Process(tail, false)))
  {
    PlainDelivered(p.after, tail);
    if p.kind.Commentary? {
      ClosedCommentaryPasses(p.body, p.after + tail);
    } else {
      BlockDropped(p.kind, p.body, p.after + tail);
      assert "" + (p.after + Delivered(Process(tail, false))) == p.after + Delivered(Process(tail, false));
    }
  }

  lemma {:induction false} PartsStreamed(parts: seq<Part>, open: Option<Open>)
    requires PartsOk(parts) && OpenOk(open)
    ensures Delivered(Process(Written(parts, open), false)) == Streamed(parts, open)
    decreases parts
  {
    if parts != [] {
      PartsStreamed(parts[1..], open);
      PartStreamed(parts[0], Written(parts[1..], open));
    } else if open.Some? {
      OpenStreamed(open.value);
    }
  }

  lemma OpenStreamed(open: Open)
    requires OpenOk(Some(open))
    ensures Delivered(Process(OpenTag(open.kind) + open.body, false))
         == if open.kind.Commentary? then OpenTag(Commentary) + open.body else ""
  {
    if open.kind.Commentary? {
      CommentaryPasses(open.body, "");
      assert (OpenTag(Commentary) + open.body) + "" == OpenTag(Commentary) + open.body;
    } else {
      OpenDropped(open.kind, open.body);
    }
  }

  /**
   For every chunking: thinking blocks and the analysis channel disappear from the
   stream, closed or not, and all other text arrives as it is.
   */
  lemma TaggedReplyStreamed(shown: string, parts: seq<Part>, open: Option<Open>, chunks: seq<string>)
    requires '<' !in shown && PartsOk(parts) && OpenOk(open) && Concat(chunks) == shown + Written(parts, open)
    ensures Delivered(Stream(chunks)) == shown + Streamed(parts, open)
  {
    ChunkingIndependent(chunks);
    PlainDelivered(shown, Written(parts, open));
    PartsStreamed(parts, open);
  }

  predicate TextAt(t: string, s: string, i: nat) {
    i + |t| <= |s| && s[i..i + |t|] == t
  }

  lemma ThinkText(s: string, i: nat)
    requires ThinkAt(s, i)
    ensures TextAt("<think" + [s[i + 6]], s, i)
  {
    var t := "<think" + [s[i + 6]];
    assert forall k | 0 <= k < 7 :: s[i..i + 7][k] == t[k];
  }

  lemma AnalysisText(s: string, i: nat)
    requires OccursAt(ANALYSIS, s, i)
    ensures TextAt("<|channel|>analysis<|message|>", s, i)
  {
    var t := "<|channel|>analysis<|message|>";
    assert forall k | 0 <= k < 30 :: s[i..i + 30][k] == t[k];
  }

  /** Text without an opening tag arrives whole, whatever else it holds: closing tags, other channels, half a tag. */
  lemma UntaggedDelivered(s: string, chunks: seq<string>)
    requires Concat(chunks) == s
    requires forall i: nat, sep :: TextAt("<think" + [sep], s, i) ==> sep != '>' && !IsSpace(sep)
    requires forall i: nat :: !TextAt("<|channel|>analysis<|message|>", s, i)
    ensures Delivered(Stream(chunks)) == s
  {
    forall i: nat | i < |s| ensures !OpensAt(s, i) {
      if ThinkAt(s, i) {
        ThinkText(s, i);
      } else if OccursAt(ANALYSIS, s, i) {
        AnalysisText(s, i);
      }
    }
    ChunkingIndependent(chunks);
  }
}
