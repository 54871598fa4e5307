/** How many document fragments a retrieval may put into the prompt. */
module RagBudget {
  import opened Wrappers
  import opened ContextBudget

  const MIN_TOP_K: nat := 1

  datatype Retrieval = Retrieval(topK: int, coverage: int, fragments: int, tokens: int, perFragment: nat, historyTokens: nat)

  /** The request: the corpus is 0 when unknown, the cap and the configured top-k are 0 when unset. */
  datatype Request = Request(
    window: int, fixed: int, perFragment: nat, historyNeed: int, corpus: int, percent: int, configured: int)

  /** `int(x / 2)`. */
  function Half(x: int): int {
    if x >= 0 then x / 2 else -((-x) / 2)
  }

  function Room(r: Request): Budget {
    MakeBudget(r.window, r.fixed, 0)
  }

  /** One and a half fragments for every document, or all the room. */
  function DocumentsNeed(r: Request): int {
    if r.corpus != 0 then Half(r.corpus * r.perFragment * 3) else Room(r).available
  }

  /** Fragments for documents that the relevance half may miss. */
  function Coverage(corpus: nat, fragments: int): int {
    if 0 < corpus <= fragments then corpus
    else if corpus > 0 then Min(corpus, Max(1, fragments / 4))
    else 0
  }

  function RetrievalBudget(r: Request): Retrieval
    requires r.perFragment > 0
  {
    var shares := Room(r).Split(r.historyNeed, DocumentsNeed(r));
    var tokens := CapShare(shares.documents, Room(r).available, r.percent);
    var fragments := Max(MIN_TOP_K, tokens / r.perFragment);
    var coverage := Coverage(Max(0, r.corpus), fragments);
    var topK := Max(MIN_TOP_K, fragments - coverage);
    Retrieval(if r.configured > 0 then Min(topK, r.configured) else topK,
              coverage, fragments, tokens, r.perFragment, shares.history)
  }

  /** The fragment count is the quotient of tokens and cost, and at least one. */
  lemma FragmentCount(r: Request)
    requires r.perFragment > 0
    ensures var b := RetrievalBudget(r); b.tokens >= 0 && b.fragments == Max(MIN_TOP_K, b.tokens / r.perFragment)
  {
  }

  lemma CountPaid(tokens: nat, cost: nat, count: int)
    requires cost > 0 && count == Max(1, tokens / cost)
    ensures count >= 1
    ensures count * cost <= tokens <==> tokens >= cost
    ensures tokens >= cost ==> tokens < (count + 1) * cost
  {
    Division(tokens, cost);
  }

  /** At least one fragment is always allowed; every further one is paid for. */
  lemma FragmentsPaidFor(r: Request)
    requires r.perFragment > 0
    ensures var b := RetrievalBudget(r);
      && b.fragments >= 1
      && (b.fragments * r.perFragment <= b.tokens <==> b.tokens >= r.perFragment)
      && (b.tokens >= r.perFragment ==> b.tokens < (b.fragments + 1) * r.perFragment)
  {
    var b := RetrievalBudget(r);
    FragmentCount(r);
    CountPaid(b.tokens, r.perFragment, b.fragments);
  }

  lemma Division(n: nat, d: nat)
    requires d > 0
    ensures n / d * d <= n < (n / d + 1) * d && (n / d >= 1 <==> n >= d)
  {
    assert n == n / d * d + n % d;
    assert n / d == 0 ==> n < d;
  }

  /**
   The two halves together take at most one fragment too many, and exactly when
   coverage leaves none; without a configured top-k they leave none unused.
   */
  lemma HalvesFitIff(r: Request)
    requires r.perFragment > 0
    ensures var b := RetrievalBudget(r);
      && b.topK + b.coverage <= b.fragments + 1
      && (b.topK + b.coverage == b.fragments + 1 <==>
            r.corpus == b.fragments || (r.corpus > 0 && b.fragments == 1))
      && (r.configured <= 0 ==> b.fragments <= b.topK + b.coverage)
  {
  }

  lemma CountReaches(tokens: nat, cost: nat, count: int, n: nat)
    requires cost > 0 && count == Max(1, tokens / cost)
    ensures n <= count <==> n <= 1 || n * cost <= tokens
  {
    Division(tokens, cost);
    var q := tokens / cost;
    if n <= q {
      MulMono(n, q, cost);
    } else {
      MulMono(q + 1, n, cost);
    }
  }

  /** Every document is represented exactly when a fragment for each fits the granted tokens, or there is one at most. */
  lemma EveryDocumentIff(r: Request)
    requires r.perFragment > 0 && r.corpus >= 0
    ensures var b := RetrievalBudget(r);
      b.coverage == r.corpus <==> r.corpus <= 1 || r.corpus * r.perFragment <= b.tokens
  {
    var b := RetrievalBudget(r);
    FragmentCount(r);
    CoverageIff(r.corpus, b.fragments);
    CountReaches(b.tokens, r.perFragment, b.fragments, r.corpus);
  }

  lemma CoverageIff(corpus: nat, fragments: int)
    requires fragments >= 1
    ensures Coverage(corpus, fragments) == corpus <==> corpus <= fragments
  {
  }

  lemma HalfAgain(n: nat, p: nat)
    requires p > 0
    ensures n * p * 3 / 2 / p == n + n / 2
  {
    var q := n + n / 2;
    var x := n * p * 3 / 2;
    assert n == 2 * (n / 2) + n % 2;
    Twice(n, p);
    assert q * p <= x < (q + 1) * p;
    QuotientIs(x, p, q);
  }

  /** Three halves of `n * p`, from below and from above. */
  lemma Twice(n: nat, p: nat)
    requires p > 0
    ensures var q := n + n / 2; 2 * (q * p) <= n * p * 3 && n * p * 3 / 2 < (q + 1) * p
  {
    var k := n / 2;
    if n % 2 == 0 {
      assert n == 2 * k;
      assert n * p * 3 == 6 * (k * p) && (n + k) * p == 3 * (k * p);
    } else {
      assert n == 2 * k + 1;
      assert n * p * 3 == 6 * (k * p) + 3 * p && (n + k) * p == 3 * (k * p) + p;
      assert (n + k + 1) * p == 3 * (k * p) + 2 * p;
    }
  }

  lemma QuotientIs(x: nat, p: nat, q: nat)
    requires p > 0 && q * p <= x < (q + 1) * p
    ensures x / p == q
  {
    Division(x, p);
    if x / p < q {
      MulMono(x / p + 1, q, p);
    } else if x / p > q {
      MulMono(q + 1, x / p, p);
    }
  }

  /** A corpus whose need fits beside the history is covered, with half of it again for depth. */
  lemma FittingCorpusCovered(r: Request)
    requires r.perFragment > 0 && r.corpus > 0 && r.percent <= 0 && r.configured <= 0
    requires Max(0, r.historyNeed) + DocumentsNeed(r) <= Room(r).available
    ensures var b := RetrievalBudget(r);
      && b.tokens == DocumentsNeed(r) && b.historyTokens == Max(0, r.historyNeed)
      && b.fragments == r.corpus + r.corpus / 2
      && b.coverage == r.corpus && b.topK == Max(1, r.corpus / 2)
  {
    HalfAgain(r.corpus, r.perFragment);
    assert r.corpus * r.perFragment > 0;
    SplitTotal(Room(r), Max(0, r.historyNeed), DocumentsNeed(r));
  }

  /** The two halves of any retrieval: coverage for the documents, and what it leaves, cut to the configured top-k. */
  lemma HalvesAre(r: Request)
    requires r.perFragment > 0
    ensures var b := RetrievalBudget(r);
      && (r.corpus <= 0 ==> b.coverage == 0)
      && (0 < r.corpus <= b.fragments ==> b.coverage == r.corpus)
      && (r.corpus > b.fragments ==> b.coverage == if b.fragments < 4 then 1 else b.fragments / 4)
      && var free := if b.fragments > b.coverage then b.fragments - b.coverage else 1;
         b.topK == if 0 < r.configured < free then r.configured else free
  {
  }

  /** A corpus of unknown size without a history gets what prompt and answer leave of the window. */
  lemma UnknownCorpus(r: Request)
    requires r.perFragment > 0 && r.corpus == 0 && r.historyNeed <= 0 && r.percent <= 0
    requires r.window >= 40960 && r.fixed >= 0
    ensures RetrievalBudget(r).tokens == if r.fixed + 4096 <= r.window then r.window - 4096 - r.fixed else 0
  {
    ReserveIs(r.window, r.fixed, 0);
    RoomIs(r.window, r.fixed, 0);
    SplitTotal(Room(r), 0, DocumentsNeed(r));
  }
}
