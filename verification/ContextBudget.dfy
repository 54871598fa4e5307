/**
 How a context window is divided: a reserve for the answer, the fixed prompt, and
 the rest split between documents and history by what they need.
 */
module ContextBudget {
  import opened Wrappers

  const MIN_ANSWER_TOKENS: nat := 512
  const MAX_ANSWER_TOKENS: nat := 4096
  const MIN_HISTORY_TOKENS: nat := 256

  datatype Shares = Shares(documents: nat, history: nat)

  datatype Budget = Budget(window: int, fixed: int, answer: int, available: int) {

    /** The least history may get when the needs collide. */
    function HistoryFloor(historyNeed: nat): nat
      requires available >= 0
    {
      Min(historyNeed, Max(MIN_HISTORY_TOKENS, available / 8))
    }

    function Split(historyNeed: int, documentNeed: int): Shares {
      if available <= 0 then Shares(0, 0)
      else
        var h, d := Max(0, historyNeed), Max(0, documentNeed);
        if h + d <= available then Shares(d, h)
        else
          var proportional := available * d / (h + d);
          var wanted := Min(available, Max(proportional, available / 2));
          var documents := Min(wanted, available - HistoryFloor(h));
          var history := if available - documents >= h then h else available - documents;
          Shares(Max(0, documents), Max(0, history))
    }
  }

  /** The needs do not fit the room together. */
  predicate Contested(b: Budget, h: nat, d: nat) {
    b.available > 0 && h + d > b.available
  }

  /** A room below the history minimum, and a history that does not fit it. */
  predicate Overdrawn(b: Budget, h: nat) {
    0 < b.available < MIN_HISTORY_TOKENS && h > b.available
  }

  /** A collision leaves the documents at most their need, the history at most its own. */
  lemma ProportionalShare(a: nat, h: nat, d: nat)
    requires h + d > a
    ensures a * d / (h + d) <= d && a - a * d / (h + d) <= h
  {
    var t := h + d;
    MulMono(a, t, d);
    QuotientAtMost(a * d, t, d);
    if a > h {
      SharesLeft(a, h, d);
      QuotientAtLeast(a * d, t, a - h);
    } else {
      QuotientAtLeast(a * d, t, 0);
    }
  }

  lemma QuotientAtMost(x: nat, t: nat, d: nat)
    requires t > 0 && x <= d * t
    ensures x / t <= d
  {
    var q := x / t;
    assert x == q * t + x % t;
    if q > d {
      MulMono(d + 1, q, t);
    }
  }

  lemma QuotientAtLeast(x: nat, t: nat, n: nat)
    requires t > 0 && n * t <= x
    ensures x / t >= n
  {
    var q := x / t;
    assert x == q * t + x % t;
    if q < n {
      MulMono(q + 1, n, t);
    }
  }

  lemma MulMono(x: int, y: int, z: nat)
    requires x <= y
    ensures x * z <= y * z && z * x <= z * y
  {
  }

  /** What the history leaves of the room is less than the documents' weighed share. */
  lemma SharesLeft(a: nat, h: nat, d: nat)
    requires h + d > a > h
    ensures (a - h) * (h + d) <= a * d
  {
    MulMono(a, h + d, h);
    assert (a - h) * (h + d) == a * h + a * d - h * (h + d);
  }

  /**
   Needs that fit are granted as they are; needs that collide use the whole room,
   unless the room is below the history minimum and the history does not fit it:
   then the history minimum is granted all the same and nothing else.
   */
  lemma SplitTotal(b: Budget, h: nat, d: nat)
    ensures var s := b.Split(h, d);
      && (b.available > 0 && h + d <= b.available ==> s == Shares(d, h))
      && (Contested(b, h, d) && !Overdrawn(b, h) ==> s.documents + s.history == b.available)
      && (Overdrawn(b, h) ==> s == Shares(0, Min(h, MIN_HISTORY_TOKENS)))
  {
    if Contested(b, h, d) {
      ProportionalShare(b.available, h, d);
    }
  }

  /** The split exceeds the room in exactly that case. */
  lemma SplitFitsIff(b: Budget, historyNeed: int, documentNeed: int)
    ensures var s := b.Split(historyNeed, documentNeed);
      s.documents + s.history <= Max(0, b.available) <==> !Overdrawn(b, Max(0, historyNeed))
  {
    SplitTotal(b, Max(0, historyNeed), Max(0, documentNeed));
  }

  /** Both floors hold when the needs collide, and the history never gets more than it needs. */
  lemma SplitFloors(b: Budget, h: nat, d: nat)
    requires Contested(b, h, d)
    ensures var s := b.Split(h, d);
      && b.HistoryFloor(h) <= s.history <= h
      && s.documents >= Min(b.available / 2, b.available - b.HistoryFloor(h))
      && (b.available >= 2 * MIN_HISTORY_TOKENS ==> s.documents >= b.available / 2)
  {
    ProportionalShare(b.available, h, d);
  }

  /** Documents get more than they asked for exactly when both their floors lie above the need. */
  lemma DocumentsOvergrantedIff(b: Budget, h: nat, d: nat)
    ensures b.Split(h, d).documents > d <==>
            Contested(b, h, d) && d < b.available / 2 && d < b.available - b.HistoryFloor(h)
  {
    if Contested(b, h, d) {
      ProportionalShare(b.available, h, d);
    }
  }

  // ---- the whole window ---------------------------------------------------------------------

  function AnswerReserve(window: int): (r: int)
    ensures MIN_ANSWER_TOKENS <= r <= MAX_ANSWER_TOKENS
  {
    Max(MIN_ANSWER_TOKENS, Min(MAX_ANSWER_TOKENS, window / 10))
  }

  /** `application` pins the reserve when it is positive. */
  function MakeBudget(window: int, fixedTokens: int, application: int): Budget {
    var w := Max(1, window);
    var answer := Min(if application > 0 then application else AnswerReserve(w), Max(1, w / 2));
    var fixed := Max(0, fixedTokens);
    Budget(w, fixed, answer, Max(0, w - fixed - answer))
  }

  /**
   The reserve for the answer: what the application asks for, or a tenth of the window
   between 512 and 4096; never more than half of the window, and never nothing.
   */
  lemma ReserveIs(window: int, fixedTokens: int, application: int)
    ensures var b := MakeBudget(window, fixedTokens, application);
      && (application <= 0 ==>
            && (b.window >= 40960 ==> b.answer == 4096)
            && (5120 <= b.window < 40960 ==> 10 * b.answer <= b.window < 10 * b.answer + 10)
            && (1024 <= b.window < 5120 ==> b.answer == 512))
      && (application > 0 && b.window >= 2 * application ==> b.answer == application)
      && ((if application > 0 then b.window < 2 * application else b.window < 1024) ==>
            b.answer == 1 == b.window || 2 * b.answer <= b.window <= 2 * b.answer + 1)
  {
  }

  /** The window is taken as it is, the fixed prompt too, and what they and the answer leave is the room. */
  lemma RoomIs(window: int, fixedTokens: int, application: int)
    ensures var b := MakeBudget(window, fixedTokens, application);
      && (if window < 1 then b.window == 1 else b.window == window)
      && (if fixedTokens < 0 then b.fixed == 0 else b.fixed == fixedTokens)
      && (if b.fixed + b.answer >= b.window then b.available == 0 else b.fixed + b.answer + b.available == b.window)
  {
  }

  /** The history minimum: 256 tokens or an eighth of the room, and no more than the history needs. */
  lemma FloorIs(b: Budget, h: nat)
    requires b.available >= 0
    ensures var f := b.HistoryFloor(h);
      && (h <= 256 || 8 * h <= b.available ==> f == h)
      && (h > 256 && b.available < 2056 ==> f == 256)
      && (h > b.available / 8 && b.available >= 2056 ==> 8 * f <= b.available < 8 * f + 8)
  {
  }

  /** The parts of a window never add up to more than the window, whatever is asked, with the two exceptions. */
  lemma WindowHolds(window: int, fixedTokens: int, application: int, historyNeed: int, documentNeed: int)
    ensures var b := MakeBudget(window, fixedTokens, application);
      var s := b.Split(historyNeed, documentNeed);
      b.fixed + b.answer + s.documents + s.history <= b.window
      <==> b.fixed + b.answer <= b.window && !Overdrawn(b, Max(0, historyNeed))
  {
    SplitFitsIff(MakeBudget(window, fixedTokens, application), historyNeed, documentNeed);
  }

  /** An operator's cap in percent of the room; 0 or less means none. */
  function CapShare(tokens: int, available: int, percent: int): (r: int)
    ensures r <= tokens && (percent <= 0 ==> r == tokens)
    ensures percent > 0 && available >= 0 ==> 100 * r <= available * Min(100, percent)
  {
    if percent <= 0 then tokens else Min(tokens, available * Min(100, percent) / 100)
  }

  /** The cap takes away no more than it has to. */
  lemma CapIs(tokens: int, available: nat, percent: int)
    requires percent > 0
    ensures var r := CapShare(tokens, available, percent);
      r == tokens || 100 * (r + 1) > available * (if percent < 100 then percent else 100)
  {
  }
}
