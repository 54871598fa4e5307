/**
 The text history of a session: system notices out, questions answered by a
 generation marker out with their answers, and the newest messages that fit a
 token budget.
 */
module HistoryTrim {
  import opened Wrappers

  datatype Message = Message(id: int, role: string, content: string, modelType: string)

  /** What the text tests and measures of the surrounding program do; any functions. */
  datatype TextRules = TextRules(marked: string -> bool, extract: string -> string, estimate: string -> nat)

  const USER: string := "user"
  const ASSISTANT: string := "assistant"
  const SYSTEM: string := "system"

  // ---- system notices ---------------------------------------------------------------

  function WithoutNotices(ms: seq<Message>): seq<Message> {
    if ms == [] then []
    else (if ms[0].modelType != SYSTEM then [ms[0]] else []) + WithoutNotices(ms[1..])
  }

  /** One message is a notice or stays, and a session is filtered message by message. */
  lemma NoticesGo(m: Message)
    ensures WithoutNotices([m]) == if m.modelType == "system" then [] else [m]
  {
  }

  lemma {:induction false} NoticesByMessage(a: seq<Message>, b: seq<Message>)
    ensures WithoutNotices(a + b) == WithoutNotices(a) + WithoutNotices(b)
  {
    if a == [] {
      assert a + b == b;
    } else {
      assert (a + b)[1..] == a[1..] + b;
      NoticesByMessage(a[1..], b);
    }
  }

  // ---- the marker-pair filter ---------------------------------------------------------

  /** An answer that is a generation marker. */
  predicate MarkerAt(ms: seq<Message>, i: int, rules: TextRules) {
    0 <= i < |ms| && ms[i].role == ASSISTANT && rules.marked(ms[i].content)
  }

  /** Consecutive marker answers ending at `i`; the first message has nothing before it to be paired with. */
  function MarkerRun(ms: seq<Message>, i: nat, rules: TextRules): nat {
    if i == 0 || !MarkerAt(ms, i, rules) then 0 else MarkerRun(ms, i - 1, rules) + 1
  }

  /** The messages the filter keeps: nothing before a marker, and no odd member of a run of markers. */
  predicate Stays(ms: seq<Message>, i: nat, rules: TextRules) {
    !MarkerAt(ms, i + 1, rules) && MarkerRun(ms, i, rules) % 2 == 0
  }

  /** The first `n` messages, those that do not stay left out. */
  function Staying(ms: seq<Message>, n: nat, rules: TextRules): seq<Message>
    requires n <= |ms|
  {
    if n == 0 then []
    else Staying(ms, n - 1, rules) + (if Stays(ms, n - 1, rules) then [ms[n - 1]] else [])
  }

  method FilterMarkerPairs(ms: seq<Message>, rules: TextRules) returns (filtered: seq<Message>)
    ensures filtered == Staying(ms, |ms|, rules)
  {
    filtered := [];
    var skipNext := false;
    for i := 0 to |ms|
      invariant filtered == Staying(ms, i, rules)
      invariant skipNext <==> MarkerRun(ms, i, rules) % 2 == 1
    {
      if skipNext {
        skipNext := false;
      } else if i + 1 < |ms| && ms[i + 1].role == ASSISTANT && rules.marked(ms[i + 1].content) {
        skipNext := true;
      } else {
        filtered := filtered + [ms[i]];
      }
    }
  }

  ghost predicate NoMarkers(ms: seq<Message>, rules: TextRules) {
    forall i | 0 <= i < |ms| :: !MarkerAt(ms, i, rules)
  }

  /** Every run of marker answers has an odd number of messages that can be paired away. */
  ghost predicate OddRuns(ms: seq<Message>, n: nat, rules: TextRules) {
    forall i: nat | i < n && MarkerAt(ms, i, rules) && !MarkerAt(ms, i + 1, rules) :: MarkerRun(ms, i, rules) % 2 == 1
  }

  lemma {:induction false} NoMarkersStay(ms: seq<Message>, n: nat, rules: TextRules)
    requires n <= |ms|
    ensures NoMarkers(Staying(ms, n, rules), rules) <==> OddRuns(ms, n, rules)
  {
    if n > 0 {
      NoMarkersStay(ms, n - 1, rules);
      var before := Staying(ms, n - 1, rules);
      NoMarkersSnoc(before, ms[n - 1], rules);
      assert MarkerAt([ms[n - 1]], 0, rules) <==> MarkerAt(ms, n - 1, rules);
      assert Staying(ms, n, rules) == if Stays(ms, n - 1, rules) then before + [ms[n - 1]] else before;
      assert OddRuns(ms, n, rules) <==>
        OddRuns(ms, n - 1, rules) && !(MarkerAt(ms, n - 1, rules) && Stays(ms, n - 1, rules));
    }
  }

  lemma NoMarkersSnoc(s: seq<Message>, m: Message, rules: TextRules)
    ensures NoMarkers(s + [m], rules) <==> NoMarkers(s, rules) && !MarkerAt([m], 0, rules)
  {
    var t := s + [m];
    assert forall i | 0 <= i < |s| :: t[i] == s[i];
    assert MarkerAt(t, |s|, rules) <==> MarkerAt([m], 0, rules);
    assert forall i | 0 <= i < |s| :: MarkerAt(t, i, rules) <==> MarkerAt(s, i, rules);
  }

  /** No marker answer gets through exactly when every run of them is odd. */
  lemma MarkersGoneIff(ms: seq<Message>, rules: TextRules)
    ensures NoMarkers(Staying(ms, |ms|, rules), rules) <==> OddRuns(ms, |ms|, rules)
  {
    NoMarkersStay(ms, |ms|, rules);
  }

  /** In an alternating session that starts with a question none gets through. */
  lemma AlternatingSessionClean(ms: seq<Message>, rules: TextRules)
    requires !MarkerAt(ms, 0, rules)
    requires forall i: nat :: MarkerAt(ms, i + 1, rules) ==> !MarkerAt(ms, i, rules)
    ensures NoMarkers(Staying(ms, |ms|, rules), rules)
    ensures forall i: nat | i < |ms| :: Stays(ms, i, rules) <==> !MarkerAt(ms, i, rules) && !MarkerAt(ms, i + 1, rules)
  {
    MarkersGoneIff(ms, rules);
    forall i: nat | i < |ms|
      ensures Stays(ms, i, rules) <==> !MarkerAt(ms, i, rules) && !MarkerAt(ms, i + 1, rules)
      ensures MarkerAt(ms, i, rules) ==> MarkerRun(ms, i, rules) % 2 == 1
    {
      assert i > 0 ==> MarkerAt(ms, i - 1 + 1, rules) ==> !MarkerAt(ms, i - 1, rules);
      RunOfOne(ms, i, rules);
    }
    assert OddRuns(ms, |ms|, rules);
  }

  lemma RunOfOne(ms: seq<Message>, i: nat, rules: TextRules)
    requires !MarkerAt(ms, 0, rules) && i < |ms|
    requires i > 0 && MarkerAt(ms, i, rules) ==> !MarkerAt(ms, i - 1, rules)
    ensures MarkerRun(ms, i, rules) == if MarkerAt(ms, i, rules) then 1 else 0
  {
    if i > 0 && MarkerAt(ms, i, rules) {
      assert MarkerRun(ms, i - 1, rules) == 0;
    }
  }

  /** A session in which no answer is marked passes whole. */
  lemma {:induction false} UnmarkedUntouched(ms: seq<Message>, n: nat, rules: TextRules)
    requires n <= |ms|
    requires forall m | m in ms :: m.role != "assistant" || !rules.marked(m.content)
    ensures Staying(ms, n, rules) == ms[..n]
  {
    if n > 0 {
      UnmarkedUntouched(ms, n - 1, rules);
      assert !MarkerAt(ms, n - 1, rules) && !MarkerAt(ms, n, rules);
      assert ms[..n] == ms[..n - 1] + [ms[n - 1]];
    }
  }

  /** A question goes with the marked answer behind it. */
  lemma MarkedAnswerGoes(rules: TextRules, question: Message, answer: Message)
    requires question.role == "user" && answer.role == "assistant" && rules.marked(answer.content)
    ensures Staying([question, answer], 2, rules) == []
  {
    var ms := [question, answer];
    assert MarkerAt(ms, 1, rules) && !MarkerAt(ms, 2, rules);
    assert MarkerRun(ms, 0, rules) == 0 && MarkerRun(ms, 1, rules) == 1;
    assert Staying(ms, 1, rules) == [];
  }

  /** Two marker answers in a row: the second one stays. */
  lemma SecondMarkerStays(rules: TextRules, question: Message, first: Message, second: Message)
    requires question.role == USER && first.role == ASSISTANT && second.role == ASSISTANT
    requires rules.marked(first.content) && rules.marked(second.content)
    ensures Staying([question, first, second], 3, rules) == [second]
  {
    var ms := [question, first, second];
    assert MarkerAt(ms, 1, rules) && MarkerAt(ms, 2, rules) && !MarkerAt(ms, 3, rules);
    assert MarkerRun(ms, 0, rules) == 0;
    assert MarkerRun(ms, 1, rules) == 1;
    assert MarkerRun(ms, 2, rules) == 2;
    assert Staying(ms, 1, rules) == [];
    assert Staying(ms, 2, rules) == [];
  }

  // ---- the token budget ---------------------------------------------------------------------

  function Text(m: Message, rules: TextRules): Message {
    m.(content := rules.extract(m.content))
  }

  function Tokens(m: Message, rules: TextRules): nat {
    rules.estimate(rules.extract(m.content))
  }

  /** Tokens of the messages from `from` on. */
  function TokensFrom(ms: seq<Message>, from: nat, rules: TextRules): nat
    requires from <= |ms|
    decreases |ms| - from
  {
    if from == |ms| then 0 else Tokens(ms[from], rules) + TokensFrom(ms, from + 1, rules)
  }

  /** The tokens of a session are those of its texts, added up. */
  lemma TokensOfOne(m: Message, rules: TextRules)
    ensures TokensFrom([m], 0, rules) == rules.estimate(rules.extract(m.content))
  {
    assert TokensFrom([m], 1, rules) == 0;
  }

  lemma {:induction false} TokensAdd(a: seq<Message>, b: seq<Message>, from: nat, rules: TextRules)
    requires from <= |a|
    ensures TokensFrom(a + b, from, rules) == TokensFrom(a, from, rules) + TokensFrom(b, 0, rules)
    decreases |a| - from
  {
    if from == |a| {
      TokensShifted(a, b, 0, rules);
    } else {
      TokensAdd(a, b, from + 1, rules);
    }
  }

  lemma {:induction false} TokensShifted(a: seq<Message>, b: seq<Message>, from: nat, rules: TextRules)
    requires from <= |b|
    ensures TokensFrom(a + b, |a| + from, rules) == TokensFrom(b, from, rules)
    decreases |b| - from
  {
    if from < |b| {
      TokensShifted(a, b, from + 1, rules);
    }
  }

  function Texts(ms: seq<Message>, rules: TextRules): (texts: seq<Message>)
    ensures |texts| == |ms| && forall i | 0 <= i < |ms| :: texts[i] == Text(ms[i], rules)
  {
    seq(|ms|, i requires 0 <= i < |ms| => Text(ms[i], rules))
  }

  lemma {:induction false} TokensGrow(ms: seq<Message>, from: nat, later: nat, rules: TextRules)
    requires from <= later <= |ms|
    ensures TokensFrom(ms, later, rules) <= TokensFrom(ms, from, rules)
    decreases later - from
  {
    if from < later {
      TokensGrow(ms, from + 1, later, rules);
    }
  }

  /** From `cut` on the messages fit, and no earlier cut fits. */
  ghost predicate LongestFit(ms: seq<Message>, budget: int, cut: nat, rules: TextRules) {
    && cut <= |ms|
    && (cut < |ms| ==> TokensFrom(ms, cut, rules) <= budget)
    && forall i: nat | i < cut :: TokensFrom(ms, i, rules) > budget
  }

  /** The newest messages, last one first, until one does not fit. */
  method NewestThatFit(ms: seq<Message>, budget: int, rules: TextRules) returns (kept: seq<Message>)
    ensures |kept| <= |ms| && kept == Texts(ms[|ms| - |kept|..], rules)
    ensures LongestFit(ms, budget, |ms| - |kept|, rules)
  {
    var total := 0;
    var i := |ms|;
    kept := [];
    while i > 0 && total + Tokens(ms[i - 1], rules) <= budget
      invariant 0 <= i <= |ms| && total == TokensFrom(ms, i, rules)
      invariant i < |ms| ==> total <= budget
      invariant kept == Texts(ms[i..], rules)
    {
      i := i - 1;
      total := total + Tokens(ms[i], rules);
      kept := [Text(ms[i], rules)] + kept;
    }
    forall j: nat | j < i ensures TokensFrom(ms, j, rules) > budget {
      TokensGrow(ms, j, i - 1, rules);
    }
  }

  /** Answers whose question was cut away go too. */
  method DropOrphans(ms: seq<Message>) returns (kept: seq<Message>)
    ensures |kept| <= |ms| && kept == ms[|ms| - |kept|..]
    ensures kept != [] ==> kept[0].role == USER
    ensures forall i | 0 <= i < |ms| - |kept| :: ms[i].role != USER
  {
    kept := ms;
    while kept != [] && kept[0].role != USER
      invariant |kept| <= |ms| && kept == ms[|ms| - |kept|..]
      invariant forall i | 0 <= i < |ms| - |kept| :: ms[i].role != USER
      decreases |kept|
    {
      kept := kept[1..];
    }
  }

  /** A start that fits the budget and is a question. */
  ghost predicate GoodStart(ms: seq<Message>, budget: int, i: nat, rules: TextRules) {
    i < |ms| && TokensFrom(ms, i, rules) <= budget && ms[i].role == USER
  }

  datatype Meta = Meta(droppedCount: nat, oldestKeptId: Option<int>, totalCount: nat)

  /** The messages the history is cut from. */
  function Candidates(ms: seq<Message>, rules: TextRules): seq<Message> {
    var visible := WithoutNotices(ms);
    Staying(visible, |visible|, rules)
  }

  method RemoveNotices(ms: seq<Message>) returns (visible: seq<Message>)
    ensures visible == WithoutNotices(ms)
  {
    visible := [];
    for i := 0 to |ms|
      invariant WithoutNotices(ms) == visible + WithoutNotices(ms[i..])
    {
      if ms[i].modelType != SYSTEM {
        visible := visible + [ms[i]];
      }
    }
  }

  /** `kept` is the longest tail that fits the budget and starts with a question, or empty. */
  ghost predicate LongestTail(all: seq<Message>, budget: int, kept: seq<Message>, rules: TextRules) {
    && |kept| <= |all| && kept == Texts(all[|all| - |kept|..], rules)
    && (kept != [] ==> GoodStart(all, budget, |all| - |kept|, rules))
    && forall i: nat | i < |all| - |kept| :: !GoodStart(all, budget, i, rules)
  }

  /** A kept tail is the texts of a tail of the candidates and starts with what the user wrote. */
  lemma TailStarts(all: seq<Message>, budget: int, kept: seq<Message>, rules: TextRules)
    requires LongestTail(all, budget, kept, rules) && kept != []
    ensures kept[0].role == "user" && kept[0].content == rules.extract(all[|all| - |kept|].content)
  {
  }

  method TrimToBudget(all: seq<Message>, budget: int, rules: TextRules) returns (kept: seq<Message>)
    ensures LongestTail(all, budget, kept, rules)
  {
    var fitting := NewestThatFit(all, budget, rules);
    kept := DropOrphans(fitting);
    TailOfTail(all, budget, |all| - |fitting|, |fitting| - |kept|, rules);
  }

  /**
   The kept history is the longest tail of the candidates that fits the budget and
   starts with a question; the counts tell where it was cut.
   */
  method SessionTextHistory(ms: seq<Message>, budget: Option<int>, rules: TextRules)
    returns (kept: seq<Message>, meta: Meta)
    ensures var all := Candidates(ms, rules);
      && meta.totalCount == |all| && meta.droppedCount + |kept| == |all|
      && meta.oldestKeptId == (if kept == [] then None else Some(kept[0].id))
      && (if budget.Some? then LongestTail(all, budget.value, kept, rules) else kept == all)
  {
    var visible := RemoveNotices(ms);
    var all := FilterMarkerPairs(visible, rules);
    kept := all;
    if budget.Some? {
      kept := TrimToBudget(all, budget.value, rules);
    }
    meta := Meta(Max(0, |all| - |kept|), if kept == [] then None else Some(kept[0].id), |all|);
  }

  lemma TailOfTail(all: seq<Message>, budget: int, cut: nat, dropped: nat, rules: TextRules)
    requires LongestFit(all, budget, cut, rules) && cut + dropped <= |all|
    requires var fitting := Texts(all[cut..], rules);
      (dropped < |fitting| ==> fitting[dropped].role == USER) && forall i | 0 <= i < dropped :: fitting[i].role != USER
    ensures Texts(all[cut..], rules)[dropped..] == Texts(all[cut + dropped..], rules)
    ensures cut + dropped < |all| ==> GoodStart(all, budget, cut + dropped, rules)
    ensures forall i: nat | i < cut + dropped :: !GoodStart(all, budget, i, rules)
  {
    var fitting := Texts(all[cut..], rules);
    assert forall i | 0 <= i < |all| - cut :: fitting[i].role == all[cut + i].role;
    if cut + dropped < |all| {
      TokensGrow(all, cut, cut + dropped, rules);
    }
    forall i: nat | i < cut + dropped ensures !GoodStart(all, budget, i, rules) {
      if i >= cut {
        assert fitting[i - cut].role != USER;
      }
    }
  }
}
