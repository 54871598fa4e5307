/**
 The filter that drops thinking blocks from a stream whose tags may be split
 across chunks, and the batch filter that is applied to the stored answer.
 */
module ThinkingFilter {
  import opened Wrappers
  import opened Words
  import opened Whitespace

  const HOLD_BACK: nat := 30

  const THINK: string := "<think"
  const THINK_CLOSE: string := "</think>"
  const ANALYSIS: string := "<|channel|>analysis<|message|>"
  const COMMENTARY: string := "<|channel|>commentary<|message|>"
  const CHANNEL: string := "<|channel|>"
  const END: string := "<|end|>"

  /** `<think` followed by white space or `>`. */
  predicate ThinkAt(s: string, i: nat) {
    OccursAt(THINK, s, i) && i + 6 < |s| && (IsSpace(s[i + 6]) || s[i + 6] == '>')
  }

  predicate OpensAt(s: string, i: nat) {
    ThinkAt(s, i) || OccursAt(ANALYSIS, s, i)
  }

  predicate ClosesAt(s: string, i: nat) {
    OccursAt(THINK_CLOSE, s, i) || OccursAt(END, s, i)
  }

  /** End of the closing tag that stands at `i`. */
  function CloseEnd(s: string, i: nat): (e: nat)
    requires ClosesAt(s, i)
    ensures i + 7 <= e <= |s|
  {
    if OccursAt(THINK_CLOSE, s, i) then i + 8 else i + 7
  }

  function FirstOpen(s: string, from: nat): (r: Option<nat>)
    ensures r.Some? ==> from <= r.value < |s| && OpensAt(s, r.value)
    ensures r.Some? ==> forall i | from <= i < r.value :: !OpensAt(s, i)
    ensures r.None? ==> forall i | from <= i < |s| :: !OpensAt(s, i)
    decreases |s| - from
  {
    if from >= |s| then None else if OpensAt(s, from) then Some(from) else FirstOpen(s, from + 1)
  }

  function FirstClose(s: string, from: nat): (r: Option<nat>)
    ensures r.Some? ==> from <= r.value < |s| && ClosesAt(s, r.value)
    ensures r.Some? ==> forall i | from <= i < r.value :: !ClosesAt(s, i)
    ensures r.None? ==> forall i | from <= i < |s| :: !ClosesAt(s, i)
    decreases |s| - from
  {
    if from >= |s| then None else if ClosesAt(s, from) then Some(from) else FirstClose(s, from + 1)
  }

  /** Emitted text, what stays buffered, and whether a thinking block is open. */
  datatype Step = Step(out: string, buffer: string, thinking: bool)

  function Process(buffer: string, thinking: bool): Step
    decreases |buffer|, if thinking then 0 else 1
  {
    if thinking then
      var c := FirstClose(buffer, 0);
      if c.Some? then Process(buffer[CloseEnd(buffer, c.value)..], false)
      else Step("", buffer, true)
    else
      var o := FirstOpen(buffer, 0);
      if o.Some? then
        var later := Process(buffer[o.value..], true);
        Step(buffer[..o.value] + later.out, later.buffer, later.thinking)
      else
        var safe := Max(|buffer| - HOLD_BACK, 0);
        Step(buffer[..safe], buffer[safe..], false)
  }

  method ProcessStreamChunk(buffer0: string, thinking0: bool)
    returns (output: string, buffer: string, thinking: bool)
    ensures Step(output, buffer, thinking) == Process(buffer0, thinking0)
  {
    output, buffer, thinking := "", buffer0, thinking0;
    while buffer != ""
      invariant Process(buffer0, thinking0) ==
                var later := Process(buffer, thinking); Step(output + later.out, later.buffer, later.thinking)
      decreases |buffer|, if thinking then 0 else 1
    {
      if thinking {
        var close := FirstClose(buffer, 0);
        if close.Some? {
          buffer := buffer[CloseEnd(buffer, close.value)..];
          thinking := false;
        } else {
          break;
        }
      } else {
        var open := FirstOpen(buffer, 0);
        if open.Some? {
          output := output + buffer[..open.value];
          buffer := buffer[open.value..];
          thinking := true;
        } else {
          var safe := Max(|buffer| - HOLD_BACK, 0);
          if safe > 0 {
            output := output + buffer[..safe];
            buffer := buffer[safe..];
          }
          break;
        }
      }
    }
  }

  // ---- locality of the tags ---------------------------------------------------

  lemma OccursInLonger(p: string, a: string, b: string, i: nat)
    requires i + |p| <= |a|
    ensures OccursAt(p, a, i) <==> OccursAt(p, a + b, i)
  {
  }

  lemma OccursInDrop(p: string, s: string, k: nat, i: nat)
    requires k <= |s|
    ensures OccursAt(p, s[k..], i) <==> OccursAt(p, s, k + i)
  {
    if k + i + |p| <= |s| {
      forall m | 0 <= m < |s| - k ensures s[k..][m] == s[k + m] {
      }
    }
  }

  /** A tag that is complete stays where it is when more text arrives. */
  lemma OpenStays(a: string, b: string, i: nat)
    requires i < |a|
    ensures OpensAt(a, i) ==> OpensAt(a + b, i)
    ensures i + HOLD_BACK <= |a| && OpensAt(a + b, i) ==> OpensAt(a, i)
  {
    if i + |THINK| <= |a| {
      OccursInLonger(THINK, a, b, i);
    }
    if i + |ANALYSIS| <= |a| {
      OccursInLonger(ANALYSIS, a, b, i);
    }
    assert |ANALYSIS| == HOLD_BACK;
  }

  lemma CloseStays(a: string, b: string, i: nat)
    requires i < |a| && ClosesAt(a, i)
    ensures ClosesAt(a + b, i) && CloseEnd(a + b, i) == CloseEnd(a, i)
  {
    if OccursAt(THINK_CLOSE, a, i) {
      OccursInLonger(THINK_CLOSE, a, b, i);
    } else {
      OccursInLonger(END, a, b, i);
      assert END[1] == a[i + 1] == (a + b)[i + 1] != THINK_CLOSE[1];
    }
  }

  /** A closing tag of the longer text that ends inside the shorter one is there too. */
  lemma CloseWasThere(a: string, b: string, i: nat)
    requires ClosesAt(a + b, i) && CloseEnd(a + b, i) <= |a|
    ensures ClosesAt(a, i)
  {
    if OccursAt(THINK_CLOSE, a + b, i) {
      OccursInLonger(THINK_CLOSE, a, b, i);
    } else {
      OccursInLonger(END, a, b, i);
    }
  }

  /** A closing tag has `<` at its start and nowhere else. */
  lemma InsideClose(s: string, i: nat)
    requires ClosesAt(s, i)
    ensures s[i] == '<' && forall c | i < c < CloseEnd(s, i) :: s[c] != '<'
  {
    var tag := if OccursAt(THINK_CLOSE, s, i) then THINK_CLOSE else END;
    assert tag[0] == s[i + 0];
    forall c | i < c < CloseEnd(s, i) ensures s[c] != '<' {
      assert tag[c - i] == s[i + (c - i)];
    }
  }

  lemma InsideThink(s: string, i: nat)
    requires ThinkAt(s, i)
    ensures s[i] == '<' && s[i + 1] == 't' && forall c | i < c < i + 7 :: s[c] != '<'
  {
    assert THINK[0] == s[i + 0] && THINK[1] == s[i + 1];
    forall c | i < c < i + 6 ensures s[c] != '<' {
      assert THINK[c - i] == s[i + (c - i)];
    }
  }

  lemma InsideAnalysis(s: string, i: nat)
    requires OccursAt(ANALYSIS, s, i)
    ensures s[i] == '<' && s[i + 1] == '|' && s[i + 2] == 'c' && s[i + 20] == '|' && s[i + 21] == 'm'
    ensures forall c | i < c < i + HOLD_BACK && c != i + 19 :: s[c] != '<'
  {
    assert ANALYSIS[0] == s[i + 0] && ANALYSIS[1] == s[i + 1] && ANALYSIS[2] == s[i + 2];
    assert ANALYSIS[20] == s[i + 20] && ANALYSIS[21] == s[i + 21];
    forall c | i < c < i + HOLD_BACK && c != i + 19 ensures s[c] != '<' {
      assert ANALYSIS[c - i] == s[i + (c - i)];
    }
  }

  /** An opening tag never starts inside another. */
  lemma OpenBeforeOpen(s: string, i: nat, o: nat)
    requires i < o && OpensAt(s, i) && OpensAt(s, o)
    ensures OccursAt(ANALYSIS, s, i) ==> i + HOLD_BACK <= o
    ensures ThinkAt(s, i) ==> i + 7 <= o
  {
    if ThinkAt(s, o) {
      InsideThink(s, o);
    } else {
      InsideAnalysis(s, o);
    }
    if ThinkAt(s, i) {
      InsideThink(s, i);
    }
    if OccursAt(ANALYSIS, s, i) {
      InsideAnalysis(s, i);
    }
  }

  lemma OpenWasThere(a: string, b: string, i: nat)
    requires OpensAt(a + b, i)
    requires OccursAt(ANALYSIS, a + b, i) ==> i + HOLD_BACK <= |a|
    requires ThinkAt(a + b, i) ==> i + 7 <= |a|
    ensures OpensAt(a, i)
  {
    if OccursAt(ANALYSIS, a + b, i) {
      OccursInLonger(ANALYSIS, a, b, i);
    } else {
      OccursInLonger(THINK, a, b, i);
      assert (a + b)[i + 6] == a[i + 6];
    }
  }

  lemma OpenInDrop(s: string, k: nat, i: nat)
    requires k <= |s|
    ensures OpensAt(s[k..], i) <==> OpensAt(s, k + i)
  {
    OccursInDrop(THINK, s, k, i);
    OccursInDrop(ANALYSIS, s, k, i);
  }

  lemma FirstOpenIs(s: string, o: nat)
    requires o < |s| && OpensAt(s, o)
    requires forall i | 0 <= i < o :: !OpensAt(s, i)
    ensures FirstOpen(s, 0) == Some(o)
  {
  }

  lemma FirstCloseIs(s: string, c: nat)
    requires c < |s| && ClosesAt(s, c)
    requires forall i | 0 <= i < c :: !ClosesAt(s, i)
    ensures FirstClose(s, 0) == Some(c)
  {
  }

  // ---- independence of the chunking -----------------------------------------------

  /** Running on what a step left behind, after more text arrived. */
  function Resume(s: Step, more: string): Step {
    var next := Process(s.buffer + more, s.thinking);
    Step(s.out + next.out, next.buffer, next.thinking)
  }

  lemma {:induction false} FirstOpenSkip(s: string, from: nat, k: nat)
    requires from <= k <= |s|
    requires forall i | from <= i < k :: !OpensAt(s, i)
    ensures FirstOpen(s, from) == FirstOpen(s, k)
    decreases k - from
  {
    if from < k {
      FirstOpenSkip(s, from + 1, k);
    }
  }

  function Shifted(o: Option<nat>, k: nat): Option<int> {
    if o.None? then None else Some(o.value - k)
  }

  /** `t` opens where `s` does, `k` characters later. */
  ghost predicate OpensAlike(s: string, t: string, k: nat) {
    |s| == k + |t| && forall i | 0 <= i < |t| :: OpensAt(t, i) <==> OpensAt(s, k + i)
  }

  lemma {:induction false} FirstOpenShift(s: string, t: string, k: nat, j: nat)
    requires OpensAlike(s, t, k) && j <= |t|
    ensures FirstOpen(t, j) == Shifted(FirstOpen(s, k + j), k)
    decreases |t| - j
  {
    if j < |t| {
      FirstOpenShift(s, t, k, j + 1);
    }
  }

  lemma OpensAlikeInDrop(s: string, k: nat)
    requires k <= |s|
    ensures OpensAlike(s, s[k..], k)
  {
    forall i | 0 <= i < |s[k..]| ensures OpensAt(s[k..], i) <==> OpensAt(s, k + i) {
      OpenInDrop(s, k, i);
    }
  }

  lemma FirstOpenTail(s: string, t: string, k: nat)
    requires k <= |s| && OpensAlike(s, t, k) && FirstOpen(s, 0) == FirstOpen(s, k)
    ensures FirstOpen(t, 0) == Shifted(FirstOpen(s, 0), k)
  {
    FirstOpenShift(s, t, k, 0);
  }

  /** Dropping characters no opening tag starts at moves the first opening tag by as much. */
  lemma FirstOpenDrop(s: string, k: nat)
    requires k <= |s|
    requires forall i | 0 <= i < k :: !OpensAt(s, i)
    ensures FirstOpen(s[k..], 0) == Shifted(FirstOpen(s, 0), k)
    ensures FirstOpen(s, 0).Some? ==> k <= FirstOpen(s, 0).value
  {
    var t := s[k..];
    FirstOpenSkip(s, 0, k);
    OpensAlikeInDrop(s, k);
    FirstOpenTail(s, t, k);
  }

  /** A plain prefix in front of an already processed rest. */
  function Prepend(out: string, later: Step): Step {
    Step(out + later.out, later.buffer, later.thinking)
  }

  /** Characters before every possible opening tag can be emitted early. */
  lemma EmitEarly(s: string, k: nat)
    requires k <= Max(|s| - HOLD_BACK, 0)
    requires forall i | 0 <= i < k :: !OpensAt(s, i)
    ensures Process(s, false) == Prepend(s[..k], Process(s[k..], false))
  {
    FirstOpenDrop(s, k);
    if FirstOpen(s, 0).Some? {
      EmitEarlyOpen(s, s[k..], k, FirstOpen(s, 0).value);
    } else {
      EmitEarlyPlain(s, s[k..], k);
    }
  }

  lemma EmitEarlyOpen(s: string, t: string, k: nat, o: nat)
    requires k <= o < |s| && FirstOpen(s, 0) == Some(o)
    requires t == s[k..] && FirstOpen(t, 0) == Some(o - k)
    ensures Process(s, false) == Prepend(s[..k], Process(t, false))
  {
    SliceSplit(s, k, o);
    Assoc(s[..k], t[..o - k], Process(s[o..], true).out);
  }

  function SafeEnd(s: string): nat {
    Max(|s| - HOLD_BACK, 0)
  }

  lemma PlainStep(s: string)
    requires FirstOpen(s, 0).None?
    ensures Process(s, false) == Step(s[..SafeEnd(s)], s[SafeEnd(s)..], false)
  {
  }

  lemma EmitEarlyPlain(s: string, t: string, k: nat)
    requires k <= SafeEnd(s) && FirstOpen(s, 0).None?
    requires t == s[k..] && FirstOpen(t, 0).None?
    ensures Process(s, false) == Prepend(s[..k], Process(t, false))
  {
    PlainStep(s);
    PlainStep(t);
    SliceSplit(s, k, SafeEnd(s));
  }

  /** The closing tag found in the shorter text is the one found in the longer. */
  lemma FirstCloseStays(a: string, b: string, c: nat)
    requires FirstClose(a, 0) == Some(c)
    ensures FirstClose(a + b, 0) == Some(c) && CloseEnd(a + b, c) == CloseEnd(a, c)
  {
    CloseStays(a, b, c);
    forall i: nat | i < c ensures !ClosesAt(a + b, i) {
      if ClosesAt(a + b, i) {
        InsideClose(a + b, i);
        InsideClose(a + b, c);
        CloseWasThere(a, b, i);
      }
    }
    FirstCloseIs(a + b, c);
  }

  /** The opening tag found in the shorter text is the one found in the longer. */
  lemma FirstOpenStays(a: string, b: string, o: nat)
    requires FirstOpen(a, 0) == Some(o)
    ensures FirstOpen(a + b, 0) == Some(o)
  {
    OpenStays(a, b, o);
    forall i: nat | i < o ensures !OpensAt(a + b, i) {
      if OpensAt(a + b, i) {
        OpenBeforeOpen(a + b, i, o);
        OpenWasThere(a, b, i);
      }
    }
    FirstOpenIs(a + b, o);
  }

  /** Two chunks, or their concatenation: the same emitted text, buffer and state. */
  lemma {:induction false} TwoChunks(a: string, b: string, thinking: bool)
    ensures Process(a + b, thinking) == Resume(Process(a, thinking), b)
    decreases |a|, if thinking then 0 else 1
  {
    if thinking && FirstClose(a, 0).Some? {
      var c := FirstClose(a, 0).value;
      FirstCloseStays(a, b, c);
      TwoChunks(a[CloseEnd(a, c)..], b, false);
      AfterClose(a, b, a + b, c);
    } else if !thinking && FirstOpen(a, 0).Some? {
      var o := FirstOpen(a, 0).value;
      FirstOpenStays(a, b, o);
      TwoChunks(a[o..], b, true);
      AfterOpen(a, b, a + b, o);
    } else if !thinking {
      PlainThenMore(a, b);
    } else {
      StuckInBlock(a, b);
    }
  }

  lemma AfterClose(a: string, b: string, ab: string, c: nat)
    requires ab == a + b
    requires FirstClose(a, 0) == Some(c) && FirstClose(ab, 0) == Some(c) && CloseEnd(ab, c) == CloseEnd(a, c)
    requires var rest := a[CloseEnd(a, c)..]; Process(rest + b, false) == Resume(Process(rest, false), b)
    ensures Process(ab, true) == Resume(Process(a, true), b)
  {
    SplitConcat(a, b, CloseEnd(a, c));
  }

  lemma AfterOpen(a: string, b: string, ab: string, o: nat)
    requires ab == a + b && o < |a|
    requires FirstOpen(a, 0) == Some(o) && FirstOpen(ab, 0) == Some(o)
    requires Process(a[o..] + b, true) == Resume(Process(a[o..], true), b)
    ensures Process(ab, false) == Resume(Process(a, false), b)
  {
    SplitConcat(a, b, o);
    var first := Process(a[o..], true);
    Assoc(a[..o], first.out, Process(first.buffer + b, first.thinking).out);
  }

  lemma StuckInBlock(a: string, b: string)
    requires FirstClose(a, 0).None?
    ensures Process(a + b, true) == Resume(Process(a, true), b)
  {
  }

  lemma PlainThenMore(a: string, b: string)
    requires FirstOpen(a, 0).None?
    ensures Process(a + b, false) == Resume(Process(a, false), b)
  {
    var safe := Max(|a| - HOLD_BACK, 0);
    forall i: nat | i < safe ensures !OpensAt(a + b, i) {
      OpenStays(a, b, i);
    }
    EmitEarly(a + b, safe);
    SplitConcat(a, b, safe);
  }

  /** Feeding the chunks one by one, from an empty buffer outside any block. */
  function Stream(chunks: seq<string>): Step {
    if chunks == [] then Step("", "", false)
    else Resume(Stream(chunks[..|chunks| - 1]), chunks[|chunks| - 1])
  }

  /** Every chunking of a text gives what one call on the whole text gives. */
  lemma {:induction false} ChunkingIndependent(chunks: seq<string>)
    ensures Stream(chunks) == Process(Concat(chunks), false)
  {
    if chunks != [] {
      var front, last := chunks[..|chunks| - 1], chunks[|chunks| - 1];
      ChunkingIndependent(front);
      TwoChunks(Concat(front), last, false);
      ConcatFront(chunks);
    }
  }
}
