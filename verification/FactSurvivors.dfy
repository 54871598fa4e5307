/** Which facts each of the three passes keeps, in plain terms. */
module FactSurvivors {
  import opened Wrappers
  import opened Words
  import opened EditDistance
  import opened FactOrder
  import opened FactCleanup
  import opened FactMerge
  import opened FactWitness

  predicate StandsAt(p: string, s: string, k: nat) {
    k + |p| <= |s| && s[k..k + |p|] == p
  }

  /** `p` is a contiguous part of `s`. */
  ghost predicate Inside(p: string, s: string) {
    exists k: nat :: StandsAt(p, s, k)
  }

  lemma StandsIff(p: string, s: string, k: nat)
    ensures OccursAt(p, s, k) <==> StandsAt(p, s, k)
  {
    if k + |p| <= |s| {
      var part := s[k..k + |p|];
      assert forall m | 0 <= m < |p| :: part[m] == s[k + m];
    }
  }

  lemma InsideIff(p: string, s: string)
    ensures IsPart(p, s) <==> Inside(p, s)
  {
    if IsPart(p, s) {
      StandsIff(p, s, Find(p, s, 0).value);
    }
    forall k: nat | StandsAt(p, s, k) ensures IsPart(p, s) {
      StandsIff(p, s, k);
    }
  }

  // ---- pass 1 -----------------------------------------------------------------------------

  /** The older text says the same, or is a part of under 80 % of the newer one. */
  ghost predicate SaysNoMore(lower: TextMap, older: Fact, newer: Fact) {
    || lower(older.content) == lower(newer.content)
    || (Inside(lower(older.content), lower(newer.content)) && 100 * |lower(older.content)| < 80 * |newer.content|)
  }

  lemma EarlierRemains(lower: TextMap, s: seq<Fact>, i: nat, j: nat)
    requires j < i <= |s| && FastKeeps(lower, s, j)
    ensures s[j] in FastRemaining(lower, s, i)
  {
    var a := KeptIndex(lower, s, i, j);
    KeptAt(lower, s, i, a);
  }

  /** A fact survives pass 1 exactly when it has five characters and no newer survivor says as much. */
  lemma FastKeepsIff(lower: TextMap, s: seq<Fact>, i: nat)
    requires i < |s|
    ensures FastKeeps(lower, s, i) <==>
      |s[i].content| >= 5 && forall j: nat | j < i && FastKeeps(lower, s, j) :: !SaysNoMore(lower, s[i], s[j])
  {
    forall j: nat | j < i ensures Covered(lower, s[i], s[j]) <==> SaysNoMore(lower, s[i], s[j]) {
      InsideIff(lower(s[i].content), lower(s[j].content));
    }
    if FastKeeps(lower, s, i) {
      forall j: nat | j < i && FastKeeps(lower, s, j) ensures !SaysNoMore(lower, s[i], s[j]) {
        EarlierRemains(lower, s, i, j);
      }
    } else if |s[i].content| >= 5 {
      var j := FastWitness(lower, s, i);
    }
  }

  // ---- pass 2 -----------------------------------------------------------------------------

  /** More than 75 % similar: equal, or a distance of under a quarter of the longer length. */
  lemma NearDuplicateIff(a: string, b: string)
    ensures NearDuplicate(a, b, LEVENSHTEIN_THRESHOLD) <==> a == b || 4 * Distance(a, b) < Max(|a|, |b|)
  {
    ShortcutKeepsDecision(a, b, LEVENSHTEIN_THRESHOLD);
    if a != b {
      QuarterIff(Distance(a, b), Max(|a|, |b|));
    }
  }

  lemma QuarterIff(d: nat, m: nat)
    requires m > 0
    ensures 1.0 - d as real / m as real > 0.75 <==> 4 * d < m
  {
    var q := d as real / m as real;
    QuotientTimes(d as real, m as real);
    if q < 0.25 {
      TimesMonotone(q, 0.25, m as real);
    } else if q > 0.25 {
      TimesMonotone(0.25, q, m as real);
    }
  }

  lemma {:induction false} EarlierKept(norm: TextMap, facts: seq<Fact>, n: nat, j: nat)
    requires j < n <= |facts| && EditKeeps(norm, facts, LEVENSHTEIN_THRESHOLD, j)
    ensures norm(facts[j].content) in EditKept(norm, facts, LEVENSHTEIN_THRESHOLD, n)
  {
    if j < n - 1 {
      EarlierKept(norm, facts, n - 1, j);
    }
  }

  /** A fact survives pass 2 exactly when it has a text, and each newer survivor differs in a quarter of it or more. */
  lemma EditKeepsIff(norm: TextMap, facts: seq<Fact>, i: nat)
    requires i < |facts|
    ensures EditKeeps(norm, facts, LEVENSHTEIN_THRESHOLD, i) <==>
      && norm(facts[i].content) != ""
      && forall j: nat | j < i && EditKeeps(norm, facts, LEVENSHTEIN_THRESHOLD, j) ::
           var a, b := norm(facts[i].content), norm(facts[j].content);
           a != b && 4 * Distance(a, b) >= Max(|a|, |b|)
  {
    var a := norm(facts[i].content);
    forall j: nat | j < i
      ensures NearDuplicate(a, norm(facts[j].content), LEVENSHTEIN_THRESHOLD)
        <==> a == norm(facts[j].content) || 4 * Distance(a, norm(facts[j].content)) < Max(|a|, |norm(facts[j].content)|)
    {
      NearDuplicateIff(a, norm(facts[j].content));
    }
    if EditKeeps(norm, facts, LEVENSHTEIN_THRESHOLD, i) {
      forall j: nat | j < i && EditKeeps(norm, facts, LEVENSHTEIN_THRESHOLD, j)
        ensures !NearDuplicate(a, norm(facts[j].content), LEVENSHTEIN_THRESHOLD)
      {
        EarlierKept(norm, facts, i, j);
      }
    } else if a != "" {
      var k :| k in EditKept(norm, facts, LEVENSHTEIN_THRESHOLD, i) && NearDuplicate(a, k, LEVENSHTEIN_THRESHOLD);
      var j := EditKeptFrom(norm, facts, LEVENSHTEIN_THRESHOLD, i, k);
    }
  }

  // ---- pass 3 -----------------------------------------------------------------------------

  /** A part of under 70 % of the other. */
  ghost predicate SmallPart(a: string, b: string) {
    Inside(a, b) && 100 * |a| < 70 * |b|
  }

  lemma SmallPartIff(a: string, b: string)
    ensures Fragment(a, b) <==> SmallPart(a, b)
  {
    InsideIff(a, b);
  }

  lemma KeptGrows(norm: TextMap, facts: seq<Fact>, i: nat)
    requires i < |facts|
    ensures FragmentKept(norm, facts, i + 1)
         == FragmentKept(norm, facts, i) + if FragmentKeeps(norm, facts, i) then [norm(facts[i].content)] else []
  {
  }

  /** The kept texts in front of a kept fact are those kept before it. */
  lemma {:induction false} KeptPlace(norm: TextMap, facts: seq<Fact>, n: nat, j: nat)
    requires j < n <= |facts| && FragmentKeeps(norm, facts, j)
    ensures var at, kept := |FragmentKept(norm, facts, j)|, FragmentKept(norm, facts, n);
      at < |kept| && kept[at] == norm(facts[j].content) && FragmentKept(norm, facts, j) <= kept
  {
    KeptGrows(norm, facts, n - 1);
    if j < n - 1 {
      KeptPlace(norm, facts, n - 1, j);
    }
  }

  lemma {:induction false} KeptFact(norm: TextMap, facts: seq<Fact>, n: nat, a: nat) returns (j: nat)
    requires n <= |facts| && a < |FragmentKept(norm, facts, n)|
    ensures j < n && FragmentKeeps(norm, facts, j) && |FragmentKept(norm, facts, j)| == a
    ensures FragmentKept(norm, facts, n)[a] == norm(facts[j].content)
  {
    if a < |FragmentKept(norm, facts, n - 1)| {
      j := KeptFact(norm, facts, n - 1, a);
    } else {
      j := n - 1;
    }
  }

  /** A newer survivor that contains the text, and no still newer one is a small part of it. */
  ghost predicate Swallowed(norm: TextMap, facts: seq<Fact>, i: nat, j: nat)
    requires j < i < |facts|
  {
    && FragmentKeeps(norm, facts, j) && SmallPart(norm(facts[i].content), norm(facts[j].content))
    && forall b: nat | b < j && FragmentKeeps(norm, facts, b) :: !SmallPart(norm(facts[b].content), norm(facts[i].content))
  }

  lemma SwallowedIsDropped(norm: TextMap, facts: seq<Fact>, i: nat, j: nat)
    requires j < i < |facts| && Swallowed(norm, facts, i, j)
    ensures FragmentVerdict(FragmentKept(norm, facts, i), norm(facts[i].content))
  {
    var kept, text := FragmentKept(norm, facts, i), norm(facts[i].content);
    var at := |FragmentKept(norm, facts, j)|;
    KeptPlace(norm, facts, i, j);
    SmallPartIff(text, kept[at]);
    forall b | 0 <= b < at ensures !Fragment(kept[b], text) {
      var f := KeptFact(norm, facts, j, b);
      assert kept[b] == FragmentKept(norm, facts, j)[b];
      SmallPartIff(kept[b], text);
    }
    VerdictExact(kept, text);
  }

  lemma DroppedIsSwallowed(norm: TextMap, facts: seq<Fact>, i: nat) returns (j: nat)
    requires i < |facts| && FragmentVerdict(FragmentKept(norm, facts, i), norm(facts[i].content))
    ensures j < i && Swallowed(norm, facts, i, j)
  {
    var kept, text := FragmentKept(norm, facts, i), norm(facts[i].content);
    VerdictExact(kept, text);
    var a :| 0 <= a < |kept| && Fragment(text, kept[a]) && forall b | 0 <= b < a :: !Fragment(kept[b], text);
    j := KeptFact(norm, facts, i, a);
    SmallPartIff(text, kept[a]);
    forall b: nat | b < j && FragmentKeeps(norm, facts, b) ensures !SmallPart(norm(facts[b].content), text) {
      KeptPlace(norm, facts, j, b);
      KeptPlace(norm, facts, i, j);
      KeptPlace(norm, facts, i, b);
      SmallPartIff(norm(facts[b].content), text);
    }
  }

  /** A fact survives pass 3 exactly when it has a text and no newer survivor swallows it. */
  lemma FragmentKeepsIff(norm: TextMap, facts: seq<Fact>, i: nat)
    requires i < |facts|
    ensures FragmentKeeps(norm, facts, i) <==>
      norm(facts[i].content) != "" && forall j: nat | j < i :: !Swallowed(norm, facts, i, j)
  {
    if FragmentVerdict(FragmentKept(norm, facts, i), norm(facts[i].content)) {
      var j := DroppedIsSwallowed(norm, facts, i);
    }
    forall j: nat | j < i && Swallowed(norm, facts, i, j) ensures !FragmentKeeps(norm, facts, i) {
      SwallowedIsDropped(norm, facts, i, j);
    }
  }

  // ---- what is deleted ----------------------------------------------------------------------

  lemma {:induction false} FastDeletedAre(lower: TextMap, s: seq<Fact>, n: nat, id: string)
    requires n <= |s|
    ensures id in FastDeleted(lower, s, n) <==> exists i: nat :: i < n && !FastKeeps(lower, s, i) && s[i].id == id
    ensures |FastDeleted(lower, s, n)| + |FastRemaining(lower, s, n)| == n
  {
    if n > 0 {
      FastDeletedAre(lower, s, n - 1, id);
    }
  }

  predicate EditDrops(norm: TextMap, facts: seq<Fact>, threshold: real, i: nat, id: string)
    requires i < |facts|
  {
    !EditKeeps(norm, facts, threshold, i) && facts[i].id == id
  }

  lemma EditDeletedStep(norm: TextMap, facts: seq<Fact>, threshold: real, i: nat, id: string)
    requires i < |facts|
    ensures id in EditDeleted(norm, facts, threshold, i + 1) <==>
            id in EditDeleted(norm, facts, threshold, i) || EditDrops(norm, facts, threshold, i, id)
  {
  }

  /** The index of a fact that the pass deleted under this id. */
  lemma {:induction false} EditDeletedFrom(norm: TextMap, facts: seq<Fact>, threshold: real, n: nat, id: string)
    returns (i: nat)
    requires n <= |facts| && id in EditDeleted(norm, facts, threshold, n)
    ensures i < n && EditDrops(norm, facts, threshold, i, id)
    decreases n
  {
    i := n - 1;
    EditDeletedStep(norm, facts, threshold, i, id);
    if id in EditDeleted(norm, facts, threshold, i) {
      i := EditDeletedFrom(norm, facts, threshold, i, id);
    }
  }

  lemma {:induction false} EditDeletedGrows(norm: TextMap, facts: seq<Fact>, threshold: real, m: nat, n: nat)
    requires m <= n <= |facts|
    ensures EditDeleted(norm, facts, threshold, m) <= EditDeleted(norm, facts, threshold, n)
    decreases n
  {
    if m < n {
      EditDeletedGrows(norm, facts, threshold, m, n - 1);
    }
  }

  lemma EditDropIsDeleted(norm: TextMap, facts: seq<Fact>, threshold: real, i: nat, id: string)
    requires i < |facts| && EditDrops(norm, facts, threshold, i, id)
    ensures id in EditDeleted(norm, facts, threshold, |facts|)
  {
    EditDeletedStep(norm, facts, threshold, i, id);
    EditDeletedGrows(norm, facts, threshold, i + 1, |facts|);
  }

  lemma {:induction false} FragmentDeletedAre(norm: TextMap, facts: seq<Fact>, n: nat, id: string)
    requires n <= |facts|
    ensures id in FragmentDeleted(norm, facts, n) <==>
            exists i: nat :: i < n && !FragmentKeeps(norm, facts, i) && facts[i].id == id
  {
    if n > 0 {
      FragmentDeletedAre(norm, facts, n - 1, id);
    }
  }

  /** A later pass does not keep survivor `i` of the first. */
  predicate LaterDrops(norm: TextMap, left: seq<Fact>, i: nat)
    requires i < |left|
  {
    !EditKeeps(norm, left, LEVENSHTEIN_THRESHOLD, i) || !FragmentKeeps(norm, left, i)
  }

  /**
   Exactly the facts that a pass does not keep are deleted; of fewer than three facts
   none is, and of fewer than three survivors of the first pass no further one.
   */
  lemma MergeDeletes(lower: TextMap, norm: TextMap, facts: seq<Fact>, id: string)
    ensures |facts| < 3 ==> MergeDeleted(lower, norm, facts) == []
    ensures var s := NewestFirst(facts);
      var left := FastRemaining(lower, s, |s|);
      |facts| >= 3 ==>
        (id in MergeDeleted(lower, norm, facts) <==>
          || (exists i: nat :: i < |s| && !FastKeeps(lower, s, i) && s[i].id == id)
          || (|left| >= 3 && exists i: nat :: i < |left| && LaterDrops(norm, left, i) && left[i].id == id))
  {
    var s := NewestFirst(facts);
    var left := FastRemaining(lower, s, |s|);
    FastDeletedAre(lower, s, |s|, id);
    FragmentDeletedAre(norm, left, |left|, id);
    if id in EditDeleted(norm, left, LEVENSHTEIN_THRESHOLD, |left|) {
      var i := EditDeletedFrom(norm, left, LEVENSHTEIN_THRESHOLD, |left|, id);
      assert LaterDrops(norm, left, i);
    }
    if i: nat :| i < |left| && !FragmentKeeps(norm, left, i) && left[i].id == id {
      assert LaterDrops(norm, left, i);
    }
    if i: nat :| i < |left| && LaterDrops(norm, left, i) && left[i].id == id && FragmentKeeps(norm, left, i) {
      EditDropIsDeleted(norm, left, LEVENSHTEIN_THRESHOLD, i, id);
    }
  }
}
