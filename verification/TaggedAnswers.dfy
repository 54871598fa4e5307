/** What the batch filter stores of replies with every kind of block, pass by pass. */
module TaggedAnswers {
  import opened Wrappers
  import opened Words
  import opened Whitespace
  import opened ThinkingFilter
  import opened ThinkingBatch
  import opened ThinkingReplies
  import opened ThinkingTags

  /** A closed block after some passes: thinking goes in pass 1, analysis in pass 3, and pass 5 unwraps commentary. */
  function BlockAfter(passes: nat, p: Part): string {
    if p.kind.Thinking? && passes >= 1 then ""
    else if p.kind.Analysis? && passes >= 3 then ""
    else if p.kind.Commentary? && passes >= 5 then p.body
    else (OpenTag(p.kind) + p.body) + CloseTag(p.kind)
  }

  /** An unclosed one: thinking goes in pass 2, analysis in pass 4, and commentary stays with its tag. */
  function OpenAfter(passes: nat, open: Option<Open>): string {
    if open.None? then ""
    else if open.value.kind.Thinking? && passes >= 2 then ""
    else if open.value.kind.Analysis? && passes >= 4 then ""
    else OpenTag(open.value.kind) + open.value.body
  }

  function AfterPasses(passes: nat, parts: seq<Part>, open: Option<Open>): string {
    if parts == [] then OpenAfter(passes, open)
    else BlockAfter(passes, parts[0]) + (parts[0].after + AfterPasses(passes, parts[1..], open))
  }

  lemma {:induction false} WrittenIsFirst(parts: seq<Part>, open: Option<Open>)
    ensures Written(parts, open) == AfterPasses(0, parts, open)
    decreases parts
  {
    if parts != [] {
      var p := parts[0];
      WrittenIsFirst(parts[1..], open);
      Assoc(OpenTag(p.kind) + p.body, CloseTag(p.kind), p.after + Written(parts[1..], open));
    }
  }

  lemma FindBehind(p: string, a: string, t: string)
    requires forall i | 0 <= i < |a| :: !OccursAt(p, a + t, i)
    ensures Find(p, t, 0).None? ==> Find(p, a + t, 0).None?
    ensures Find(p, t, 0).Some? ==> Find(p, a + t, 0).Some? && Find(p, a + t, 0).value == |a| + Find(p, t, 0).value
  {
    DropConcat(a, t);
    FindInDrop(p, a + t, |a|, 0);
    var r := Find(p, a + t, |a|);
    if r.Some? {
      FindIs(p, a + t, 0, r.value);
    }
  }

  lemma FindLater(p: string, a: string, t: string, from: nat)
    ensures Find(p, t, from).None? ==> Find(p, a + t, |a| + from).None?
    ensures Find(p, t, from).Some? ==>
      Find(p, a + t, |a| + from).Some? && Find(p, a + t, |a| + from).value == |a| + Find(p, t, from).value
  {
    DropConcat(a, t);
    FindInDrop(p, a + t, |a|, from);
  }

  lemma ThinkLater(a: string, t: string, i: nat)
    ensures ThinkAt(a + t, |a| + i) <==> ThinkAt(t, i)
  {
    DropConcat(a, t);
    OccursInDrop(THINK, a + t, |a|, i);
  }

  lemma ThinkBehind(a: string, t: string)
    requires forall i | 0 <= i < |a| :: !ThinkAt(a + t, i)
    ensures FirstThink(t, 0).None? ==> FirstThink(a + t, 0).None?
    ensures FirstThink(t, 0).Some? ==> FirstThink(a + t, 0).Some? && FirstThink(a + t, 0).value == |a| + FirstThink(t, 0).value
  {
    var o, q := FirstThink(t, 0), FirstThink(a + t, 0);
    if q.Some? {
      ThinkLater(a, t, q.value - |a|);
    }
    if o.Some? {
      ThinkLater(a, t, o.value);
    }
  }

  lemma SplitBehind(a: string, t: string, o: nat, e: nat)
    requires o <= e <= |t|
    ensures (a + t)[..|a| + o] == a + t[..o] && (a + t)[|a| + o..|a| + e] == t[o..e] && (a + t)[|a| + e..] == t[e..]
  {
  }

  lemma RemoveBoth(a: string, t: string, s: string, o: nat, c: nat, o2: nat, c2: nat, front: string, rest: string)
    requires FirstThink(t, 0).Some? && FirstThink(t, 0).value == o
    requires FirstThink(s, 0).Some? && FirstThink(s, 0).value == o2
    requires Find(THINK_CLOSE, t, o + 7).Some? && Find(THINK_CLOSE, t, o + 7).value == c && c + 8 <= |t|
    requires Find(THINK_CLOSE, s, o2 + 7).Some? && Find(THINK_CLOSE, s, o2 + 7).value == c2 && c2 + 8 <= |s|
    requires t[..o] == front && t[c + 8..] == rest && s[..o2] == a + front && s[c2 + 8..] == rest
    ensures RemoveClosed(s) == a + RemoveClosed(t)
  {
    RemoveTo(t, o, c, front, rest);
    RemoveTo(s, o2, c2, a + front, rest);
    Assoc(a, front, RemoveClosed(rest));
  }

  /** A pass leaves text alone in which nothing starts that it looks for. */
  lemma RemoveClosedBehind(a: string, t: string)
    requires forall i | 0 <= i < |a| :: !ThinkAt(a + t, i)
    ensures RemoveClosed(a + t) == a + RemoveClosed(t)
  {
    ThinkBehind(a, t);
    var o := FirstThink(t, 0);
    if o.Some? {
      FindLater(THINK_CLOSE, a, t, o.value + 7);
      if Find(THINK_CLOSE, t, o.value + 7).Some? {
        FindFits(THINK_CLOSE, t, o.value + 7);
        var c := Find(THINK_CLOSE, t, o.value + 7).value;
        SplitBehind(a, t, o.value, c + 8);
        RemoveBoth(a, t, a + t, o.value, c, |a| + o.value, |a| + c, t[..o.value], t[c + 8..]);
      }
    }
  }

  lemma RemoveUnclosedBehind(a: string, t: string)
    requires forall i | 0 <= i < |a| :: !ThinkAt(a + t, i)
    ensures RemoveUnclosed(a + t) == a + RemoveUnclosed(t)
  {
    ThinkBehind(a, t);
    var o := FirstThink(t, 0);
    if o.Some? {
      SplitBehind(a, t, o.value, |t|);
    }
  }

  lemma CutAtBehind(open: string, a: string, t: string)
    requires forall i | 0 <= i < |a| :: !OccursAt(open, a + t, i)
    ensures CutAt(a + t, open) == a + CutAt(t, open)
  {
    FindBehind(open, a, t);
    var o := Find(open, t, 0);
    if o.Some? {
      FindFits(open, t, 0);
      SplitBehind(a, t, o.value, |t|);
    }
  }

  lemma NotEnclosedIs(s: string, open: string, keep: bool)
    requires open != "" && !Encloses(s, open)
    ensures Enclosed(s, open, keep) == s
  {
  }

  lemma EndLater(a: string, t: string, from: nat, o2: nat, n: nat)
    requires o2 + n == |a| + from
    ensures Find(END, t, from).None? ==> Find(END, a + t, o2 + n).None?
    ensures Find(END, t, from).Some? ==>
      Find(END, a + t, o2 + n).Some? && Find(END, a + t, o2 + n).value == |a| + Find(END, t, from).value
  {
    FindLater(END, a, t, from);
  }

  lemma EnclosedBehind(open: string, keep: bool, a: string, t: string)
    requires open != "" && forall i | 0 <= i < |a| :: !OccursAt(open, a + t, i)
    ensures Enclosed(a + t, open, keep) == a + Enclosed(t, open, keep)
  {
    FindBehind(open, a, t);
    if Find(open, t, 0).Some? {
      var o := Find(open, t, 0).value;
      EndLater(a, t, o + |open|, |a| + o, |open|);
      EnclosedFound(open, keep, a, t, a + t, o, |a| + o);
    } else {
      NotEnclosedIs(t, open, keep);
      NotEnclosedIs(a + t, open, keep);
    }
  }

  lemma EnclosedFound(open: string, keep: bool, a: string, t: string, s: string, o: nat, o2: nat)
    requires s == a + t && open != "" && o2 == |a| + o
    requires Find(open, t, 0).Some? && Find(open, t, 0).value == o && Find(open, s, 0).Some? && Find(open, s, 0).value == o2
    requires Find(END, t, o + |open|).None? ==> Find(END, s, o2 + |open|).None?
    requires Find(END, t, o + |open|).Some? ==>
      Find(END, s, o2 + |open|).Some? && Find(END, s, o2 + |open|).value == |a| + Find(END, t, o + |open|).value
    ensures Enclosed(s, open, keep) == a + Enclosed(t, open, keep)
  {
    if Find(END, t, o + |open|).Some? {
      var c := Find(END, t, o + |open|).value;
      FindFits(END, t, o + |open|);
      EnclosedWith(open, keep, a, t, s, o, c, o2, |a| + c);
    } else {
      NotEnclosedIs(t, open, keep);
      NotEnclosedIs(s, open, keep);
    }
  }

  lemma EnclosedWith(open: string, keep: bool, a: string, t: string, s: string, o: nat, c: nat, o2: nat, c2: nat)
    requires s == a + t && open != "" && o2 == |a| + o && c2 == |a| + c && o + |open| <= c && c + |END| <= |t|
    requires Find(open, t, 0).Some? && Find(open, t, 0).value == o && Find(open, s, 0).Some? && Find(open, s, 0).value == o2
    requires Find(END, t, o + |open|).Some? && Find(END, t, o + |open|).value == c
    requires Find(END, s, o2 + |open|).Some? && Find(END, s, o2 + |open|).value == c2
    ensures Enclosed(s, open, keep) == a + Enclosed(t, open, keep)
  {
    var kept := if keep then t[o + |open|..c] else "";
    EnclosedSlices(a, t, s, o, o + |open|, c, c + |END|);
    EnclosedBoth(open, keep, a, t, s, o, c, o2, c2, t[..o], kept, t[c + |END|..]);
  }

  lemma EnclosedSlices(a: string, t: string, s: string, o: nat, n: nat, c: nat, e: nat)
    requires s == a + t && o <= n <= c <= e <= |t|
    ensures |a| + e <= |s|
    ensures s[..|a| + o] == a + t[..o] && s[|a| + n..|a| + c] == t[n..c] && s[|a| + e..] == t[e..]
  {
    SplitBehind(a, t, o, e);
    SplitBehind(a, t, n, c);
  }

  lemma EnclosedBoth(open: string, keep: bool, a: string, t: string, s: string, o: nat, c: nat, o2: nat, c2: nat,
                     front: string, kept: string, rest: string)
    requires open != "" && o + |open| <= c && c + |END| <= |t| && o2 + |open| <= c2 && c2 + |END| <= |s|
    requires Find(open, t, 0).Some? && Find(open, t, 0).value == o && Find(open, s, 0).Some? && Find(open, s, 0).value == o2
    requires Find(END, t, o + |open|).Some? && Find(END, t, o + |open|).value == c
    requires Find(END, s, o2 + |open|).Some? && Find(END, s, o2 + |open|).value == c2
    requires t[..o] == front && (if keep then t[o + |open|..c] else "") == kept && t[c + |END|..] == rest
    requires s[..o2] == a + front && (if keep then s[o2 + |open|..c2] else "") == kept && s[c2 + |END|..] == rest
    ensures Enclosed(s, open, keep) == a + Enclosed(t, open, keep)
  {
    EnclosedTo(t, open, keep, o, c, front, kept, rest);
    EnclosedTo(s, open, keep, o2, c2, a + front, kept, rest);
    ThreeBehind(a, front, kept, Enclosed(rest, open, keep));
  }

  lemma ThreeBehind(a: string, b: string, c: string, d: string)
    ensures (a + b) + c + d == a + (b + c + d)
  {
  }

  lemma EnclosedTo(s: string, open: string, keep: bool, o: nat, c: nat, front: string, kept: string, rest: string)
    requires open != "" && Find(open, s, 0).Some? && Find(open, s, 0).value == o
    requires Find(END, s, o + |open|).Some? && Find(END, s, o + |open|).value == c && o + |open| <= c && c + |END| <= |s|
    requires s[..o] == front && (if keep then s[o + |open|..c] else "") == kept && s[c + |END|..] == rest
    ensures Enclosed(s, open, keep) == front + kept + Enclosed(rest, open, keep)
  {
    EnclosedIs(s, open, keep, o, c);
    EnclosedParts(s, open, keep, o, c, rest);
  }

  // ---- where tags stand in a written block --------------------------------------------------------------

  function Front(p: Part): string {
    OpenTag(p.kind) + p.body
  }

  function Block(p: Part): string {
    Front(p) + CloseTag(p.kind)
  }

  predicate PartOk(p: Part) {
    KindOk(p.kind) && '<' !in p.body && '<' !in p.after
  }

  /** In a block of the two channels a `<` is its start, that of `|message|>`, or that of the end tag. */
  lemma BlockMarks(p: Part, rest: string, i: nat)
    requires PartOk(p) && !p.kind.Thinking? && i < |Block(p)|
    ensures var s := Block(p) + rest;
      s[i] == '<' ==> i == 0 || (i + 2 < |s| && s[i + 1] == '|' && (s[i + 2] == 'm' || s[i + 2] == 'e'))
  {
    var s := Block(p) + rest;
    assert s == Front(p) + ("<|end|>" + rest);
    if i < |Front(p)| {
      InnerMarks(p.kind, p.body, "<|end|>" + rest, i);
    } else {
      assert s[i] == "<|end|>"[i - |Front(p)|];
      assert i == |Front(p)| ==> s[i + 1] == "<|end|>"[1] && s[i + 2] == "<|end|>"[2];
    }
  }

  lemma NoThinkInBlock(p: Part, rest: string, i: nat)
    requires PartOk(p) && !p.kind.Thinking? && i < |Block(p)|
    ensures !ThinkAt(Block(p) + rest, i)
  {
    var s := Block(p) + rest;
    BlockMarks(p, rest, i);
    BlockStart(p, rest);
    if OccursAt(THINK, s, i) {
      At(THINK, s, i, 0);
      At(THINK, s, i, 1);
    }
  }

  lemma BlockStart(p: Part, rest: string)
    ensures var s := Block(p) + rest;
      |s| > 11 && (!p.kind.Thinking? ==> s[1] == '|' && (s[11] == 'a' <==> p.kind.Analysis?))
  {
    TagStart(p.kind, p.body, CloseTag(p.kind) + rest);
    assert Block(p) + rest == Front(p) + (CloseTag(p.kind) + rest);
  }

  /** The tag of the other channel does not start in a block. */
  lemma OtherNotInBlock(p: Part, open: string, rest: string, i: nat)
    requires PartOk(p) && i < |Block(p)|
    requires (p.kind.Commentary? && open == ANALYSIS) || (p.kind.Analysis? && open == COMMENTARY)
    ensures !OccursAt(open, Block(p) + rest, i)
  {
    BlockMarks(p, rest, i);
    BlockStart(p, rest);
    OtherTag(open, Block(p) + rest, i);
  }

  /** The first characters of a channel tag, and the one that tells the channels apart. */
  lemma OtherTag(open: string, s: string, i: nat)
    requires open == ANALYSIS || open == COMMENTARY
    ensures OccursAt(open, s, i) ==> i + 11 < |s| && s[i] == '<' && s[i + 2] == 'c' && (s[i + 11] == 'a' <==> open == ANALYSIS)
  {
    if OccursAt(open, s, i) {
      At(open, s, i, 0);
      At(open, s, i, 2);
      At(open, s, i, 11);
    }
  }

  /** Behind the start of a block the first closing tag is its own. */
  lemma CloseFoundBehind(p: Part, rest: string, s: string)
    requires PartOk(p) && s == Front(p) + (CloseTag(p.kind) + rest)
    ensures Find(CloseTag(p.kind), s, |OpenTag(p.kind)|).Some?
    ensures Find(CloseTag(p.kind), s, |OpenTag(p.kind)|).value == |Front(p)|
  {
    var close := CloseTag(p.kind);
    OccursBetween(close, Front(p), rest);
    forall j: nat | |OpenTag(p.kind)| <= j < |Front(p)| ensures !OccursAt(close, s, j) {
      BodyPlain(OpenTag(p.kind), p.body, close + rest, j);
      assert close[0] != s[j + 0];
    }
    FindIs(close, s, |OpenTag(p.kind)|, |Front(p)|);
  }

  lemma NoCloseFound(open: Open, s: string)
    requires KindOk(open.kind) && '<' !in open.body && s == OpenTag(open.kind) + open.body
    ensures Find(CloseTag(open.kind), s, |OpenTag(open.kind)|).None?
  {
    var close := CloseTag(open.kind);
    assert s + "" == s;
    forall j: nat | |OpenTag(open.kind)| <= j < |s| ensures !OccursAt(close, s, j) {
      BodyPlain(OpenTag(open.kind), open.body, "", j);
      assert close[0] != s[j + 0];
    }
  }

  lemma TagOccurs(kind: Kind, body: string, rest: string)
    requires KindOk(kind)
    ensures var s := (OpenTag(kind) + body) + rest;
      if kind.Thinking? then FirstThink(s, 0) == Some(0) else Find(OpenTag(kind), s, 0) == Some(0)
  {
    var s := (OpenTag(kind) + body) + rest;
    Assoc(OpenTag(kind), body, rest);
    Occurs(OpenTag(kind), body + rest);
    if kind.Thinking? {
      Assoc("<think", [kind.sep], body + rest);
      Occurs("<think", [kind.sep] + (body + rest));
      TagStart(kind, body, rest);
    }
  }

  lemma NoThinkInPlain(a: string, rest: string, i: nat)
    requires '<' !in a && i < |a|
    ensures !ThinkAt(a + rest, i)
  {
    NotInPlain(THINK, a, rest, i);
  }

  // ---- pass 1 ------------------------------------------------------------------------------------------

  lemma PassOnePlain(a: string, t: string)
    requires '<' !in a
    ensures RemoveClosed(a + t) == a + RemoveClosed(t)
  {
    forall i: nat | i < |a| ensures !ThinkAt(a + t, i) {
      NoThinkInPlain(a, t, i);
    }
    RemoveClosedBehind(a, t);
  }

  lemma PassOneBlock(p: Part, rest: string)
    requires PartOk(p)
    ensures RemoveClosed(Block(p) + rest) == BlockAfter(1, p) + RemoveClosed(rest)
  {
    var s := Front(p) + (CloseTag(p.kind) + rest);
    assert Block(p) + rest == s;
    if p.kind.Thinking? {
      TagOccurs(p.kind, p.body, CloseTag(p.kind) + rest);
      CloseFoundBehind(p, rest, s);
      OccursBetween(CloseTag(p.kind), Front(p), rest);
      RemoveTo(s, 0, |Front(p)|, "", rest);
    } else {
      forall i: nat | i < |Block(p)| ensures !ThinkAt(Block(p) + rest, i) {
        NoThinkInBlock(p, rest, i);
      }
      RemoveClosedBehind(Block(p), rest);
    }
  }

  lemma PassOneOpen(open: Open)
    requires OpenOk(Some(open))
    ensures RemoveClosed(OpenAfter(0, Some(open))) == OpenAfter(1, Some(open))
  {
    var s := OpenTag(open.kind) + open.body;
    assert s + "" == s;
    if open.kind.Thinking? {
      TagOccurs(open.kind, open.body, "");
      NoCloseFound(open, s);
    } else {
      NoThinkInOpen(open, s);
    }
  }

  lemma NoThinkInOpen(open: Open, s: string)
    requires OpenOk(Some(open)) && !open.kind.Thinking? && s == OpenTag(open.kind) + open.body
    ensures FirstThink(s, 0).None?
  {
    assert s + "" == s;
    forall i: nat | i < |s| ensures !ThinkAt(s, i) {
      InnerMarks(open.kind, open.body, "", i);
      TagStart(open.kind, open.body, "");
      if OccursAt(THINK, s, i) {
        At(THINK, s, i, 0);
        At(THINK, s, i, 1);
      }
    }
  }

  lemma {:induction false} PassOne(parts: seq<Part>, open: Option<Open>)
    requires PartsOk(parts) && OpenOk(open)
    ensures RemoveClosed(AfterPasses(0, parts, open)) == AfterPasses(1, parts, open)
    decreases parts
  {
    if parts != [] {
      PassOne(parts[1..], open);
      PassOnePlain(parts[0].after, AfterPasses(0, parts[1..], open));
      PassOneBlock(parts[0], parts[0].after + AfterPasses(0, parts[1..], open));
    } else if open.Some? {
      PassOneOpen(open.value);
    }
  }

  // ---- pass 2 ------------------------------------------------------------------------------------------

  lemma PassTwoPlain(a: string, t: string)
    requires '<' !in a
    ensures RemoveUnclosed(a + t) == a + RemoveUnclosed(t)
  {
    forall i: nat | i < |a| ensures !ThinkAt(a + t, i) {
      NoThinkInPlain(a, t, i);
    }
    RemoveUnclosedBehind(a, t);
  }

  lemma PassTwoBlock(p: Part, rest: string)
    requires PartOk(p)
    ensures RemoveUnclosed(BlockAfter(1, p) + rest) == BlockAfter(2, p) + RemoveUnclosed(rest)
  {
    if p.kind.Thinking? {
      assert "" + rest == rest && "" + RemoveUnclosed(rest) == RemoveUnclosed(rest);
    } else {
      forall i: nat | i < |Block(p)| ensures !ThinkAt(Block(p) + rest, i) {
        NoThinkInBlock(p, rest, i);
      }
      RemoveUnclosedBehind(Block(p), rest);
    }
  }

  lemma PassTwoOpen(open: Open)
    requires OpenOk(Some(open))
    ensures RemoveUnclosed(OpenAfter(1, Some(open))) == OpenAfter(2, Some(open))
  {
    var s := OpenTag(open.kind) + open.body;
    assert s + "" == s;
    if open.kind.Thinking? {
      TagOccurs(open.kind, open.body, "");
    } else {
      NoThinkInOpen(open, s);
    }
  }

  lemma {:induction false} PassTwo(parts: seq<Part>, open: Option<Open>)
    requires PartsOk(parts) && OpenOk(open)
    ensures RemoveUnclosed(AfterPasses(1, parts, open)) == AfterPasses(2, parts, open)
    decreases parts
  {
    if parts != [] {
      PassTwo(parts[1..], open);
      PassTwoPlain(parts[0].after, AfterPasses(1, parts[1..], open));
      PassTwoBlock(parts[0], parts[0].after + AfterPasses(1, parts[1..], open));
    } else if open.Some? {
      PassTwoOpen(open.value);
    }
  }

  // ---- passes 3 and 4 ---------------------------------------------------------------------------------

  lemma NoTagInPlain(open: string, a: string, t: string)
    requires open != "" && open[0] == '<' && '<' !in a
    ensures forall i | 0 <= i < |a| :: !OccursAt(open, a + t, i)
  {
    forall i: nat | i < |a| ensures !OccursAt(open, a + t, i) {
      NotInPlain(open, a, t, i);
    }
  }

  lemma NoTagInBlock(p: Part, open: string, rest: string)
    requires PartOk(p)
    requires (p.kind.Commentary? && open == ANALYSIS) || (p.kind.Analysis? && open == COMMENTARY)
    ensures forall i | 0 <= i < |Block(p)| :: !OccursAt(open, Block(p) + rest, i)
  {
    forall i: nat | i < |Block(p)| ensures !OccursAt(open, Block(p) + rest, i) {
      OtherNotInBlock(p, open, rest, i);
    }
  }

  /** The block at the start of a text, dropped or unwrapped. */
  lemma EnclosedFirst(p: Part, keep: bool, rest: string, s: string)
    requires PartOk(p) && !p.kind.Thinking? && s == Front(p) + (CloseTag(p.kind) + rest)
    ensures Enclosed(s, OpenTag(p.kind), keep) == (if keep then p.body else "") + Enclosed(rest, OpenTag(p.kind), keep)
  {
    var open := OpenTag(p.kind);
    TagOccurs(p.kind, p.body, CloseTag(p.kind) + rest);
    CloseFoundBehind(p, rest, s);
    OccursBetween(END, Front(p), rest);
    FirstSlices(open, p.body, END, rest, s);
    var kept := if keep then p.body else "";
    EnclosedTo(s, open, keep, 0, |Front(p)|, "", kept, rest);
    assert "" + kept == kept;
  }

  lemma FirstSlices(open: string, body: string, close: string, rest: string, s: string)
    requires s == (open + body) + (close + rest)
    ensures |open| + |body| + |close| <= |s| && s[..0] == "" && s[|open|..|open| + |body|] == body
    ensures s[|open| + |body| + |close|..] == rest
  {
  }

  lemma PassThreeBlock(p: Part, rest: string)
    requires PartOk(p)
    ensures Enclosed(BlockAfter(2, p) + rest, ANALYSIS, false) == BlockAfter(3, p) + Enclosed(rest, ANALYSIS, false)
  {
    if p.kind.Thinking? {
      assert "" + rest == rest && "" + Enclosed(rest, ANALYSIS, false) == Enclosed(rest, ANALYSIS, false);
    } else if p.kind.Analysis? {
      assert Block(p) + rest == Front(p) + (CloseTag(p.kind) + rest);
      EnclosedFirst(p, false, rest, Block(p) + rest);
    } else {
      NoTagInBlock(p, ANALYSIS, rest);
      EnclosedBehind(ANALYSIS, false, Block(p), rest);
    }
  }

  /** An unclosed block is not enclosed. */
  lemma OpenNotEnclosed(open: Open, keep: bool, s: string)
    requires OpenOk(Some(open)) && !open.kind.Thinking? && s == OpenTag(open.kind) + open.body
    ensures Enclosed(s, OpenTag(open.kind), keep) == s
  {
    assert s + "" == s;
    TagOccurs(open.kind, open.body, "");
    NoCloseFound(open, s);
    NotEnclosedIs(s, OpenTag(open.kind), keep);
  }

  lemma CommentaryNotAnalysis(open: Open, s: string)
    requires OpenOk(Some(open)) && open.kind.Commentary? && s == OpenTag(open.kind) + open.body
    ensures Find(ANALYSIS, s, 0).None?
  {
    assert s + "" == s;
    TagStart(open.kind, open.body, "");
    forall i: nat | i < |s| ensures !OccursAt(ANALYSIS, s, i) {
      InnerMarks(open.kind, open.body, "", i);
      if OccursAt(ANALYSIS, s, i) {
        At(ANALYSIS, s, i, 0);
        At(ANALYSIS, s, i, 2);
        At(ANALYSIS, s, i, 11);
      }
    }
  }

  lemma EmptyEnclosed(open: string, keep: bool)
    requires open != ""
    ensures Enclosed("", open, keep) == "" && CutAt("", open) == ""
  {
    NotEnclosedIs("", open, keep);
  }

  lemma PassThreeOpen(open: Open)
    requires OpenOk(Some(open))
    ensures Enclosed(OpenAfter(2, Some(open)), ANALYSIS, false) == OpenAfter(3, Some(open))
  {
    var s := OpenTag(open.kind) + open.body;
    if open.kind.Thinking? {
      EmptyEnclosed(ANALYSIS, false);
    } else if open.kind.Analysis? {
      OpenNotEnclosed(open, false, s);
    } else {
      CommentaryNotAnalysis(open, s);
      NotEnclosedIs(s, ANALYSIS, false);
    }
  }

  lemma {:induction false} PassThree(parts: seq<Part>, open: Option<Open>)
    requires PartsOk(parts) && OpenOk(open)
    ensures Enclosed(AfterPasses(2, parts, open), ANALYSIS, false) == AfterPasses(3, parts, open)
    decreases parts
  {
    if parts != [] {
      var p, tail := parts[0], AfterPasses(2, parts[1..], open);
      PassThree(parts[1..], open);
      NoTagInPlain(ANALYSIS, p.after, tail);
      EnclosedBehind(ANALYSIS, false, p.after, tail);
      PassThreeBlock(p, p.after + tail);
    } else if open.Some? {
      PassThreeOpen(open.value);
    } else {
      EmptyEnclosed(ANALYSIS, false);
    }
  }

  lemma PassFourBlock(p: Part, rest: string)
    requires PartOk(p)
    ensures CutAt(BlockAfter(3, p) + rest, ANALYSIS) == BlockAfter(4, p) + CutAt(rest, ANALYSIS)
  {
    if p.kind.Commentary? {
      NoTagInBlock(p, ANALYSIS, rest);
      CutAtBehind(ANALYSIS, Block(p), rest);
    } else {
      assert "" + rest == rest && "" + CutAt(rest, ANALYSIS) == CutAt(rest, ANALYSIS);
    }
  }

  lemma PassFourOpen(open: Open)
    requires OpenOk(Some(open))
    ensures CutAt(OpenAfter(3, Some(open)), ANALYSIS) == OpenAfter(4, Some(open))
  {
    var s := OpenTag(open.kind) + open.body;
    assert s + "" == s;
    if open.kind.Analysis? {
      TagOccurs(open.kind, open.body, "");
    } else if open.kind.Commentary? {
      CommentaryNotAnalysis(open, s);
    }
  }

  lemma {:induction false} PassFour(parts: seq<Part>, open: Option<Open>)
    requires PartsOk(parts) && OpenOk(open)
    ensures CutAt(AfterPasses(3, parts, open), ANALYSIS) == AfterPasses(4, parts, open)
    decreases parts
  {
    if parts != [] {
      var p, tail := parts[0], AfterPasses(3, parts[1..], open);
      PassFour(parts[1..], open);
      NoTagInPlain(ANALYSIS, p.after, tail);
      CutAtBehind(ANALYSIS, p.after, tail);
      PassFourBlock(p, p.after + tail);
    } else if open.Some? {
      PassFourOpen(open.value);
    }
  }

  // ---- passes 5 and 6 -------------------------------------------------------------------------------------

  lemma PassFiveBlock(p: Part, rest: string)
    requires PartOk(p)
    ensures Enclosed(BlockAfter(4, p) + rest, COMMENTARY, true) == BlockAfter(5, p) + Enclosed(rest, COMMENTARY, true)
  {
    if p.kind.Commentary? {
      assert Block(p) + rest == Front(p) + (CloseTag(p.kind) + rest);
      EnclosedFirst(p, true, rest, Block(p) + rest);
    } else {
      assert "" + rest == rest && "" + Enclosed(rest, COMMENTARY, true) == Enclosed(rest, COMMENTARY, true);
    }
  }

  lemma PassFiveOpen(open: Open)
    requires OpenOk(Some(open))
    ensures Enclosed(OpenAfter(4, Some(open)), COMMENTARY, true) == OpenAfter(5, Some(open))
  {
    if open.kind.Commentary? {
      OpenNotEnclosed(open, true, OpenTag(open.kind) + open.body);
    } else {
      EmptyEnclosed(COMMENTARY, true);
    }
  }

  lemma {:induction false} PassFive(parts: seq<Part>, open: Option<Open>)
    requires PartsOk(parts) && OpenOk(open)
    ensures Enclosed(AfterPasses(4, parts, open), COMMENTARY, true) == AfterPasses(5, parts, open)
    decreases parts
  {
    if parts != [] {
      var p, tail := parts[0], AfterPasses(4, parts[1..], open);
      PassFive(parts[1..], open);
      NoTagInPlain(COMMENTARY, p.after, tail);
      EnclosedBehind(COMMENTARY, true, p.after, tail);
      PassFiveBlock(p, p.after + tail);
    } else if open.Some? {
      PassFiveOpen(open.value);
    } else {
      EmptyEnclosed(COMMENTARY, true);
    }
  }

  /** What is stored: the shown texts and the bodies of the commentary channel; an unclosed one keeps its tag. */
  function Stored(parts: seq<Part>, open: Option<Open>): string {
    if parts == [] then
      if open.Some? && open.value.kind.Commentary? then "<|channel|>commentary<|message|>" + open.value.body else ""
    else (if parts[0].kind.Commentary? then parts[0].body else "") + (parts[0].after + Stored(parts[1..], open))
  }

  lemma {:induction false} StoredIsLast(parts: seq<Part>, open: Option<Open>)
    ensures AfterPasses(5, parts, open) == Stored(parts, open)
    decreases parts
  {
    if parts != [] {
      StoredIsLast(parts[1..], open);
    }
  }

  /** Plain text in front of at most one unclosed commentary tag. */
  lemma {:induction false} StoredShape(parts: seq<Part>, open: Option<Open>) returns (a: string)
    requires PartsOk(parts)
    ensures '<' !in a && Stored(parts, open) == a + Stored([], open)
    decreases parts
  {
    if parts == [] {
      a := "";
      assert "" + Stored([], open) == Stored([], open);
    } else {
      var rest := StoredShape(parts[1..], open);
      var body := if parts[0].kind.Commentary? then parts[0].body else "";
      a := body + (parts[0].after + rest);
      Assoc(parts[0].after, rest, Stored([], open));
      Assoc(body, parts[0].after + rest, Stored([], open));
    }
  }

  /** Pass 6 finds no channel tag behind which there is no `<`. */
  lemma PassSix(a: string, open: Option<Open>)
    requires '<' !in a && OpenOk(open)
    ensures CutMalformed(a + Stored([], open), 0) == a + Stored([], open)
  {
    var s := a + Stored([], open);
    if open.Some? && open.value.kind.Commentary? {
      TaggedAt(a, open.value.body, s);
      assert s[|a| + 21] == '<' && s[|a| + 21] in s[|a| + |CHANNEL|..] by {
        assert s[|a| + |CHANNEL|..][10] == s[|a| + 21];
      }
      NoneLater(a, open.value.body, s);
    } else {
      assert s == a;
      NoneInPlain(a);
    }
  }

  lemma NoneInPlain(a: string)
    requires '<' !in a
    ensures Find(CHANNEL, a, 0).None?
  {
    assert a + "" == a;
    NoTagInPlain(CHANNEL, a, "");
  }

  lemma TaggedAt(a: string, body: string, s: string)
    requires '<' !in a && s == a + (OpenTag(Commentary) + body)
    ensures Find(CHANNEL, s, 0) == Some(|a|) && |s| > |a| + 21 && s[|a| + 21] == '<'
  {
    var tag := OpenTag(Commentary);
    assert forall k | 0 <= k < |tag| :: s[|a| + k] == tag[k];
    NoTagInPlain(CHANNEL, a, tag + body);
    FindIs(CHANNEL, s, 0, |a|);
  }

  lemma NoneLater(a: string, body: string, s: string)
    requires '<' !in body && s == a + (OpenTag(Commentary) + body)
    ensures Find(CHANNEL, s, |a| + 1).None?
  {
    var t := OpenTag(Commentary) + body;
    assert t + "" == t;
    forall i: nat | |a| < i < |s| ensures !OccursAt(CHANNEL, s, i) {
      InnerMarks(Commentary, body, "", i - |a|);
      assert s[i] == t[i - |a|];
      assert i + 2 < |s| ==> s[i + 2] == t[i - |a| + 2];
      if OccursAt(CHANNEL, s, i) {
        At(CHANNEL, s, i, 0);
        At(CHANNEL, s, i, 2);
      }
    }
  }

  // ---- the whole filter ---------------------------------------------------------------------------------

  lemma PlainInFront(shown: string, t: string)
    requires '<' !in shown
    ensures RemoveClosed(shown + t) == shown + RemoveClosed(t)
    ensures RemoveUnclosed(shown + t) == shown + RemoveUnclosed(t)
    ensures Enclosed(shown + t, ANALYSIS, false) == shown + Enclosed(t, ANALYSIS, false)
    ensures CutAt(shown + t, ANALYSIS) == shown + CutAt(t, ANALYSIS)
    ensures Enclosed(shown + t, COMMENTARY, true) == shown + Enclosed(t, COMMENTARY, true)
  {
    PassOnePlain(shown, t);
    PassTwoPlain(shown, t);
    NoTagInPlain(ANALYSIS, shown, t);
    NoTagInPlain(COMMENTARY, shown, t);
    EnclosedBehind(ANALYSIS, false, shown, t);
    CutAtBehind(ANALYSIS, shown, t);
    EnclosedBehind(COMMENTARY, true, shown, t);
  }

  lemma PassesStored(shown: string, parts: seq<Part>, open: Option<Open>)
    requires '<' !in shown && PartsOk(parts) && OpenOk(open)
    ensures ChannelPasses(RemoveUnclosed(RemoveClosed(shown + Written(parts, open)))) == shown + Stored(parts, open)
  {
    WrittenIsFirst(parts, open);
    PassOne(parts, open);
    PlainInFront(shown, AfterPasses(0, parts, open));
    PassTwo(parts, open);
    PlainInFront(shown, AfterPasses(1, parts, open));
    PassThree(parts, open);
    PlainInFront(shown, AfterPasses(2, parts, open));
    PassFour(parts, open);
    PlainInFront(shown, AfterPasses(3, parts, open));
    PassFive(parts, open);
    PlainInFront(shown, AfterPasses(4, parts, open));
    StoredIsLast(parts, open);
    var a := StoredShape(parts, open);
    Assoc(shown, a, Stored([], open));
    PassSix(shown + a, open);
  }

  lemma FoundSomewhere(p: string, a: string, tag: string, rest: string)
    requires p <= tag
    ensures Find(p, a + (tag + rest), 0).Some?
  {
    var s := a + (tag + rest);
    assert forall k | 0 <= k < |p| :: s[|a| + k] == p[k];
    assert OccursAt(p, s, |a|);
  }

  lemma TagFound(shown: string, kind: Kind, rest: string)
    ensures var text := shown + (OpenTag(kind) + rest); Find(THINK, text, 0).Some? || Find(CHANNEL, text, 0).Some?
  {
    FoundSomewhere(if kind.Thinking? then THINK else CHANNEL, shown, OpenTag(kind), rest);
  }

  lemma TagsFound(shown: string, parts: seq<Part>, open: Option<Open>)
    requires parts != [] || open.Some?
    ensures var text := shown + Written(parts, open); Find(THINK, text, 0).Some? || Find(CHANNEL, text, 0).Some?
  {
    if parts != [] {
      var p := parts[0];
      var back := CloseTag(p.kind) + (p.after + Written(parts[1..], open));
      Assoc(OpenTag(p.kind), p.body, back);
      TagFound(shown, p.kind, p.body + back);
    } else {
      TagFound(shown, open.value.kind, open.value.body);
    }
  }

  /**
   The stored answer of a reply with tags: the shown texts and the bodies of the
   commentary channel, stripped; thinking and analysis are gone, closed or not.
   A reply without tags is stored as it is.
   */
  lemma TaggedReplyStored(shown: string, parts: seq<Part>, open: Option<Open>)
    requires '<' !in shown && PartsOk(parts) && OpenOk(open)
    ensures StripThinkingTags(shown + Written(parts, open))
      == if parts == [] && open.None? then shown else Strip(shown + Stored(parts, open))
  {
    if parts == [] && open.None? {
      assert shown + Written(parts, open) == shown;
      NoneInPlain(shown);
      assert shown + "" == shown;
      NoTagInPlain(THINK, shown, "");
    } else {
      TagsFound(shown, parts, open);
      PassesStored(shown, parts, open);
    }
  }
}
