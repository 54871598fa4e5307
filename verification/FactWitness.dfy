/**
 Nothing is merged away without a representative: every deleted fact is linked,
 through facts earlier in the newest-first order, to one that all three passes keep.
 */
module FactWitness {
  import opened Words
  import opened EditDistance
  import opened FactOrder
  import opened FactCleanup
  import opened FactMerge

  /** `g` is a reason to drop `f`: the same or a containing text, or a similar one. */
  predicate Linked(lower: TextMap, norm: TextMap, f: Fact, g: Fact) {
    || Covered(lower, f, g)
    || NearDuplicate(norm(f.content), norm(g.content), LEVENSHTEIN_THRESHOLD)
    || Fragment(norm(f.content), norm(g.content))
  }

  /** Indices into a newest-first list, each linked to the next, earlier one. */
  ghost predicate Chain(lower: TextMap, norm: TextMap, s: seq<Fact>, path: seq<nat>) {
    && path != []
    && (forall a | 0 <= a < |path| :: path[a] < |s|)
    && forall a, b | 0 <= a < b < |path| && b == a + 1 :: path[b] < path[a] && Linked(lower, norm, s[path[a]], s[path[b]])
  }

  lemma ChainCons(lower: TextMap, norm: TextMap, s: seq<Fact>, i: nat, path: seq<nat>)
    requires Chain(lower, norm, s, path) && i < |s|
    requires path[0] < i && Linked(lower, norm, s[i], s[path[0]])
    ensures Chain(lower, norm, s, [i] + path)
  {
    var longer := [i] + path;
    forall a, b | 0 <= a < b < |longer| && b == a + 1
      ensures longer[b] < longer[a] && Linked(lower, norm, s[longer[a]], s[longer[b]])
    {
      assert a > 0 ==> longer[a] == path[a - 1] && longer[b] == path[b - 1];
    }
  }

  // ---- where the survivors of pass 1 stand ------------------------------------------------

  /** Indices of the survivors among the first `n`. */
  function FastKept(lower: TextMap, s: seq<Fact>, n: nat): seq<nat>
    requires n <= |s|
  {
    if n == 0 then []
    else
      var earlier := FastKept(lower, s, n - 1);
      if FastKeeps(lower, s, n - 1) then earlier + [n - 1] else earlier
  }

  lemma {:induction false} KeptAt(lower: TextMap, s: seq<Fact>, n: nat, a: nat)
    requires n <= |s|
    ensures |FastRemaining(lower, s, n)| == |FastKept(lower, s, n)|
    ensures a < |FastKept(lower, s, n)| ==>
      var i := FastKept(lower, s, n)[a];
      i < n && FastRemaining(lower, s, n)[a] == s[i] && FastKeeps(lower, s, i)
  {
    if n > 0 {
      KeptAt(lower, s, n - 1, a);
    }
  }

  lemma {:induction false} KeptAscends(lower: TextMap, s: seq<Fact>, n: nat, a: nat, b: nat)
    requires n <= |s| && a < b < |FastKept(lower, s, n)|
    ensures FastKept(lower, s, n)[a] < FastKept(lower, s, n)[b]
  {
    if b < |FastKept(lower, s, n - 1)| {
      KeptAscends(lower, s, n - 1, a, b);
    } else {
      KeptAt(lower, s, n - 1, a);
    }
  }

  lemma {:induction false} KeptIndex(lower: TextMap, s: seq<Fact>, n: nat, i: nat) returns (a: nat)
    requires i < n <= |s| && FastKeeps(lower, s, i)
    ensures a < |FastKept(lower, s, n)| && FastKept(lower, s, n)[a] == i
  {
    if i == n - 1 {
      a := |FastKept(lower, s, n)| - 1;
    } else {
      a := KeptIndex(lower, s, n - 1, i);
    }
  }

  /** A fact of at least five characters that pass 1 drops is covered by a newer survivor. */
  lemma FastWitness(lower: TextMap, s: seq<Fact>, i: nat) returns (j: nat)
    requires i < |s| && |s[i].content| >= MIN_CONTENT && !FastKeeps(lower, s, i)
    ensures j < i && FastKeeps(lower, s, j) && Covered(lower, s[i], s[j])
  {
    var kept := FastRemaining(lower, s, i);
    var k :| k in kept && Covered(lower, s[i], k);
    var a :| 0 <= a < |kept| && kept[a] == k;
    KeptAt(lower, s, i, a);
    j := FastKept(lower, s, i)[a];
  }

  /** Cleaning the survivors again deletes nothing and keeps them in order. */
  lemma FastCleanupIdempotent(lower: TextMap, facts: seq<Fact>)
    ensures var s := NewestFirst(facts);
      var left := FastRemaining(lower, s, |s|);
      && NewestFirst(left) == left
      && FastRemaining(lower, left, |left|) == left
      && FastDeleted(lower, left, |left|) == []
  {
    var s := NewestFirst(facts);
    var left := FastRemaining(lower, s, |s|);
    NewestFirstOrders(facts);
    RemainingSorted(lower, s);
    SortedStays(left);
    RemainingAgain(lower, s, |left|);
  }

  lemma RemainingSorted(lower: TextMap, s: seq<Fact>)
    requires Descending(s)
    ensures Descending(FastRemaining(lower, s, |s|))
  {
    var left := FastRemaining(lower, s, |s|);
    forall a, b | 0 <= a < b < |left| ensures left[a].createdAt >= left[b].createdAt {
      KeptAt(lower, s, |s|, a);
      KeptAt(lower, s, |s|, b);
      KeptAscends(lower, s, |s|, a, b);
    }
  }

  /** The survivors before survivor `a` are the first `a` of the remaining list. */
  lemma {:induction false} RemainingBefore(lower: TextMap, s: seq<Fact>, n: nat, a: nat)
    requires n <= |s| && a < |FastKept(lower, s, n)|
    ensures FastKept(lower, s, n)[a] < |s| && a < |FastRemaining(lower, s, n)|
    ensures FastRemaining(lower, s, FastKept(lower, s, n)[a]) == FastRemaining(lower, s, n)[..a]
    decreases n
  {
    KeptAt(lower, s, n, a);
    KeptAt(lower, s, n - 1, a);
    var before, after := FastRemaining(lower, s, n - 1), FastRemaining(lower, s, n);
    if a < |FastKept(lower, s, n - 1)| {
      RemainingBefore(lower, s, n - 1, a);
      assert after[..a] == before[..a];
    } else {
      assert after[..a] == before;
    }
  }

  lemma {:induction false} RemainingAgain(lower: TextMap, s: seq<Fact>, n: nat)
    requires n <= |FastRemaining(lower, s, |s|)|
    ensures var left := FastRemaining(lower, s, |s|);
      FastRemaining(lower, left, n) == left[..n] && FastDeleted(lower, left, n) == []
  {
    if n > 0 {
      var left := FastRemaining(lower, s, |s|);
      RemainingAgain(lower, s, n - 1);
      KeptAt(lower, s, |s|, n - 1);
      RemainingBefore(lower, s, |s|, n - 1);
      KeepsAgain(lower, s, left, n, FastKept(lower, s, |s|)[n - 1]);
    }
  }

  /** The verdict on a fact depends on what is kept before it. */
  lemma SameVerdict(lower: TextMap, s: seq<Fact>, i: nat, left: seq<Fact>, m: nat)
    requires i < |s| && m < |left| && left[m] == s[i] && FastRemaining(lower, left, m) == FastRemaining(lower, s, i)
    ensures FastKeeps(lower, left, m) <==> FastKeeps(lower, s, i)
  {
  }

  /** A fact that is kept joins the remaining ones. */
  lemma KeptJoins(lower: TextMap, s: seq<Fact>, m: nat)
    requires m < |s| && FastKeeps(lower, s, m)
    ensures FastRemaining(lower, s, m + 1) == FastRemaining(lower, s, m) + [s[m]]
    ensures FastDeleted(lower, s, m + 1) == FastDeleted(lower, s, m)
  {
  }

  lemma KeptExtends(lower: TextMap, left: seq<Fact>, m: nat, before: seq<Fact>, after: seq<Fact>)
    requires m < |left| && FastKeeps(lower, left, m) && before == left[..m] && after == left[..m + 1]
    requires FastRemaining(lower, left, m) == before && FastDeleted(lower, left, m) == []
    ensures FastRemaining(lower, left, m + 1) == after && FastDeleted(lower, left, m + 1) == []
  {
    KeptJoins(lower, left, m);
    assert after == before + [left[m]];
  }

  lemma KeepsAgain(lower: TextMap, s: seq<Fact>, left: seq<Fact>, n: nat, i: nat)
    requires 0 < n <= |left| && i < |s|
    requires FastKeeps(lower, s, i) && left[n - 1] == s[i] && FastRemaining(lower, s, i) == left[..n - 1]
    requires FastRemaining(lower, left, n - 1) == left[..n - 1] && FastDeleted(lower, left, n - 1) == []
    ensures FastRemaining(lower, left, n) == left[..n] && FastDeleted(lower, left, n) == []
  {
    SameVerdict(lower, s, i, left, n - 1);
    KeptExtends(lower, left, n - 1, left[..n - 1], left[..n]);
  }

  // ---- witnesses of passes 2 and 3 ----------------------------------------------------------

  lemma {:induction false} EditKeptFrom(norm: TextMap, facts: seq<Fact>, threshold: real, n: nat, k: string) returns (j: nat)
    requires n <= |facts| && k in EditKept(norm, facts, threshold, n)
    ensures j < n && EditKeeps(norm, facts, threshold, j) && norm(facts[j].content) == k
  {
    if k in EditKept(norm, facts, threshold, n - 1) {
      j := EditKeptFrom(norm, facts, threshold, n - 1, k);
    } else {
      j := n - 1;
    }
  }

  lemma EditWitness(norm: TextMap, facts: seq<Fact>, i: nat) returns (j: nat)
    requires i < |facts| && norm(facts[i].content) != "" && !EditKeeps(norm, facts, LEVENSHTEIN_THRESHOLD, i)
    ensures j < i && norm(facts[j].content) != ""
    ensures NearDuplicate(norm(facts[i].content), norm(facts[j].content), LEVENSHTEIN_THRESHOLD)
  {
    var k :| k in EditKept(norm, facts, LEVENSHTEIN_THRESHOLD, i)
      && NearDuplicate(norm(facts[i].content), k, LEVENSHTEIN_THRESHOLD);
    j := EditKeptFrom(norm, facts, LEVENSHTEIN_THRESHOLD, i, k);
  }

  lemma {:induction false} FragmentKeptFrom(norm: TextMap, facts: seq<Fact>, n: nat, k: string) returns (j: nat)
    requires n <= |facts| && k in FragmentKept(norm, facts, n)
    ensures j < n && FragmentKeeps(norm, facts, j) && norm(facts[j].content) == k
  {
    if k in FragmentKept(norm, facts, n - 1) {
      j := FragmentKeptFrom(norm, facts, n - 1, k);
    } else {
      j := n - 1;
    }
  }

  lemma FragmentWitness(norm: TextMap, facts: seq<Fact>, i: nat) returns (j: nat)
    requires i < |facts| && norm(facts[i].content) != "" && !FragmentKeeps(norm, facts, i)
    ensures j < i && norm(facts[j].content) != ""
    ensures Fragment(norm(facts[i].content), norm(facts[j].content))
  {
    var kept := FragmentKept(norm, facts, i);
    VerdictExact(kept, norm(facts[i].content));
    var a :| 0 <= a < |kept| && Fragment(norm(facts[i].content), kept[a]);
    j := FragmentKeptFrom(norm, facts, i, kept[a]);
  }

  // ---- survivors ---------------------------------------------------------------------------

  ghost predicate DistinctIds(facts: seq<Fact>) {
    forall i, j | 0 <= i < j < |facts| :: facts[i].id != facts[j].id
  }

  lemma {:induction false} SortKeepsDistinct(facts: seq<Fact>)
    requires DistinctIds(facts)
    ensures DistinctIds(NewestFirst(facts))
    ensures forall x :: x in NewestFirst(facts) ==> x in facts
  {
    if facts != [] {
      SortKeepsDistinct(facts[1..]);
      var rest := NewestFirst(facts[1..]);
      InsertMembers(facts[0], rest);
      forall x | x in rest ensures x.id != facts[0].id {
        var k :| 0 <= k < |facts[1..]| && facts[1..][k] == x;
        assert facts[k + 1] == x;
      }
      InsertDistinct(facts[0], rest);
    }
  }

  lemma {:induction false} InsertDistinct(f: Fact, s: seq<Fact>)
    requires DistinctIds(s) && forall x | x in s :: x.id != f.id
    ensures DistinctIds(InsertNewest(f, s))
  {
    if s != [] && s[0].createdAt > f.createdAt {
      InsertDistinct(f, s[1..]);
      InsertMembers(f, s[1..]);
      var rest := InsertNewest(f, s[1..]);
      forall j | 0 <= j < |rest| ensures rest[j].id != s[0].id {
        assert rest[j] in rest;
        if rest[j] in s[1..] {
          var k :| 0 <= k < |s[1..]| && s[1..][k] == rest[j];
          assert s[k + 1] == rest[j];
        }
      }
    }
  }

  lemma {:induction false} FastIdsDropped(lower: TextMap, s: seq<Fact>, n: nat, i: nat)
    requires n <= |s| && i < |s| && DistinctIds(s) && FastKeeps(lower, s, i)
    ensures s[i].id !in FastDeleted(lower, s, n)
  {
    if n > 0 {
      FastIdsDropped(lower, s, n - 1, i);
    }
  }

  lemma {:induction false} EditIdsDropped(norm: TextMap, s: seq<Fact>, n: nat, i: nat)
    requires n <= |s| && i < |s| && DistinctIds(s) && EditKeeps(norm, s, LEVENSHTEIN_THRESHOLD, i)
    ensures s[i].id !in EditDeleted(norm, s, LEVENSHTEIN_THRESHOLD, n)
  {
    if n > 0 {
      EditIdsDropped(norm, s, n - 1, i);
    }
  }

  lemma {:induction false} FragmentIdsDropped(norm: TextMap, s: seq<Fact>, n: nat, i: nat)
    requires n <= |s| && i < |s| && DistinctIds(s) && FragmentKeeps(norm, s, i)
    ensures s[i].id !in FragmentDeleted(norm, s, n)
  {
    if n > 0 {
      FragmentIdsDropped(norm, s, n - 1, i);
    }
  }

  lemma RemainingDistinct(lower: TextMap, s: seq<Fact>)
    requires DistinctIds(s)
    ensures DistinctIds(FastRemaining(lower, s, |s|))
  {
    var left := FastRemaining(lower, s, |s|);
    forall a, b | 0 <= a < b < |left| ensures left[a].id != left[b].id {
      KeptAt(lower, s, |s|, a);
      KeptAt(lower, s, |s|, b);
      KeptAscends(lower, s, |s|, a, b);
    }
  }

  /** Index `i` of the sorted list is kept by every pass that runs. */
  ghost predicate KeptByAll(lower: TextMap, norm: TextMap, facts: seq<Fact>, i: nat) {
    var s := NewestFirst(facts);
    var left := FastRemaining(lower, s, |s|);
    && i < |s| && (|facts| < 3 || FastKeeps(lower, s, i))
    && (|facts| >= 3 && |left| >= 3 ==> exists a: nat ::
          a < |left| && a < |FastKept(lower, s, |s|)| && FastKept(lower, s, |s|)[a] == i
          && EditKeeps(norm, left, LEVENSHTEIN_THRESHOLD, a) && FragmentKeeps(norm, left, a))
  }

  lemma KeptIsNotDeleted(lower: TextMap, norm: TextMap, facts: seq<Fact>, i: nat)
    requires DistinctIds(facts) && KeptByAll(lower, norm, facts, i)
    ensures NewestFirst(facts)[i].id !in MergeDeleted(lower, norm, facts)
  {
    var s := NewestFirst(facts);
    var left := FastRemaining(lower, s, |s|);
    SortKeepsDistinct(facts);
    if |facts| >= 3 {
      FastIdsDropped(lower, s, |s|, i);
      if |left| >= 3 {
        var a: nat :| a < |left| && a < |FastKept(lower, s, |s|)| && FastKept(lower, s, |s|)[a] == i
          && EditKeeps(norm, left, LEVENSHTEIN_THRESHOLD, a) && FragmentKeeps(norm, left, a);
        KeptAt(lower, s, |s|, a);
        RemainingDistinct(lower, s);
        EditIdsDropped(norm, left, |left|, a);
        FragmentIdsDropped(norm, left, |left|, a);
      }
    }
  }

  // ---- the chain ---------------------------------------------------------------------------

  /** A text that contains a text with normal form has one itself; true of every real normaliser. */
  ghost predicate Respects(lower: TextMap, norm: TextMap, s: seq<Fact>) {
    forall f, g | f in s && g in s && IsPart(lower(f.content), lower(g.content)) && norm(f.content) != "" ::
      norm(g.content) != ""
  }

  /** From position `a` of the list that passes 2 and 3 share. */
  lemma {:induction false} ChainOnRemaining(lower: TextMap, norm: TextMap, facts: seq<Fact>, a: nat) returns (path: seq<nat>)
    requires var s := NewestFirst(facts);
      var left := FastRemaining(lower, s, |s|);
      |facts| >= 3 && |left| >= 3 && a < |left| && a < |FastKept(lower, s, |s|)| && norm(left[a].content) != ""
    ensures Chain(lower, norm, NewestFirst(facts), path)
    ensures path[0] == FastKept(lower, NewestFirst(facts), |NewestFirst(facts)|)[a]
    ensures KeptByAll(lower, norm, facts, path[|path| - 1])
    decreases a
  {
    var s := NewestFirst(facts);
    var left := FastRemaining(lower, s, |s|);
    var i := FastKept(lower, s, |s|)[a];
    KeptAt(lower, s, |s|, a);
    path := [i];
    if EditKeeps(norm, left, LEVENSHTEIN_THRESHOLD, a) && FragmentKeeps(norm, left, a) {
      return;
    }
    var b;
    if !EditKeeps(norm, left, LEVENSHTEIN_THRESHOLD, a) {
      b := EditWitness(norm, left, a);
    } else {
      b := FragmentWitness(norm, left, a);
    }
    KeptAt(lower, s, |s|, b);
    KeptAscends(lower, s, |s|, b, a);
    var rest := ChainOnRemaining(lower, norm, facts, b);
    ChainCons(lower, norm, s, i, rest);
    path := [i] + rest;
  }

  /**
   Every fact of at least five characters with a non-empty normal form is linked,
   through facts earlier in the newest-first order, to one that no pass deletes.
   */
  lemma DeletedHasSurvivor(lower: TextMap, norm: TextMap, facts: seq<Fact>, i: nat) returns (path: seq<nat>)
    requires DistinctIds(facts) && Respects(lower, norm, NewestFirst(facts))
    requires var s := NewestFirst(facts);
      i < |s| && |s[i].content| >= MIN_CONTENT && norm(s[i].content) != ""
    ensures Chain(lower, norm, NewestFirst(facts), path) && path[0] == i
    ensures NewestFirst(facts)[path[|path| - 1]].id !in MergeDeleted(lower, norm, facts)
  {
    path := ChainFrom(lower, norm, facts, i);
    KeptIsNotDeleted(lower, norm, facts, path[|path| - 1]);
  }

  lemma ChainFrom(lower: TextMap, norm: TextMap, facts: seq<Fact>, i: nat) returns (path: seq<nat>)
    requires Respects(lower, norm, NewestFirst(facts))
    requires var s := NewestFirst(facts);
      i < |s| && |s[i].content| >= MIN_CONTENT && norm(s[i].content) != ""
    ensures Chain(lower, norm, NewestFirst(facts), path) && path[0] == i
    ensures KeptByAll(lower, norm, facts, path[|path| - 1])
  {
    var s := NewestFirst(facts);
    path := [i];
    if |facts| >= 3 {
      var j := i;
      if !FastKeeps(lower, s, i) {
        j := FastWitness(lower, s, i);
        CoveredIsPart(lower, s[i], s[j]);
        assert s[i] in s && s[j] in s;
      }
      var rest := [j];
      if |FastRemaining(lower, s, |s|)| >= 3 {
        var a := KeptIndex(lower, s, |s|, j);
        KeptAt(lower, s, |s|, a);
        rest := ChainOnRemaining(lower, norm, facts, a);
      }
      if j == i {
        path := rest;
      } else {
        ChainCons(lower, norm, s, i, rest);
        path := [i] + rest;
      }
    }
  }

  lemma CoveredIsPart(lower: TextMap, f: Fact, g: Fact)
    requires Covered(lower, f, g)
    ensures IsPart(lower(f.content), lower(g.content))
  {
    if lower(f.content) == lower(g.content) {
      assert OccursAt(lower(f.content), lower(g.content), 0);
    }
  }

  /** A text less than half as long as another is not similar to it. */
  lemma HalfNotSimilar(x: string, y: string)
    requires x != "" && 2 * |x| < |y|
    ensures !NearDuplicate(y, x, LEVENSHTEIN_THRESHOLD)
  {
    HalfFarApart(|x|, |y|);
  }

  lemma HalfFarApart(m: nat, n: nat)
    requires 2 * m < n
    ensures (n - m) as real / n as real > 0.5
  {
    QuotientBetween((n - m) as real, n as real, 2.0);
  }

  lemma FragmentPassKeeps(norm: TextMap, a: Fact, b: Fact, c: Fact)
    requires norm(a.content) != "" && Fragment(norm(a.content), norm(b.content))
    requires Fragment(norm(a.content), norm(c.content)) && Fragment(norm(c.content), norm(b.content))
    ensures FragmentDeleted(norm, [a, b, c], 3) == []
  {
    var facts := [a, b, c];
    var x, y := norm(a.content), norm(b.content);
    assert FragmentKept(norm, facts, 1) == [] + [x] == [x];
    assert !FragmentVerdict([x], y);
    assert FragmentKept(norm, facts, 2) == [x] + [y];
    assert !FragmentVerdict([x] + [y], norm(c.content));
    assert FragmentDeleted(norm, facts, 1) == [];
    assert FragmentDeleted(norm, facts, 2) == [];
  }

  lemma EditPassKeeps(norm: TextMap, a: Fact, b: Fact, c: Fact)
    requires norm(a.content) != ""
    requires 2 * |norm(a.content)| < |norm(c.content)| && 2 * |norm(c.content)| < |norm(b.content)|
    ensures EditDeleted(norm, [a, b, c], LEVENSHTEIN_THRESHOLD, 3) == []
  {
    var facts, t := [a, b, c], LEVENSHTEIN_THRESHOLD;
    var x, y, z := norm(a.content), norm(b.content), norm(c.content);
    HalfNotSimilar(x, y);
    HalfNotSimilar(x, z);
    NotSimilarBack(z, y);
    assert EditKept(norm, facts, t, 1) == [] + [x] == [x];
    assert EditKept(norm, facts, t, 2) == [x] + [y];
    assert EditDeleted(norm, facts, t, 1) == [];
    assert EditDeleted(norm, facts, t, 2) == [];
  }

  lemma NotSimilarBack(x: string, y: string)
    requires x != "" && 2 * |x| < |y|
    ensures !NearDuplicate(x, y, LEVENSHTEIN_THRESHOLD)
  {
    HalfFarApart(|x|, |y|);
  }

  lemma FastPassKeeps(lower: TextMap, a: Fact, b: Fact, c: Fact)
    requires |a.content| >= MIN_CONTENT && |b.content| >= MIN_CONTENT && |c.content| >= MIN_CONTENT
    requires !Covered(lower, b, a) && !Covered(lower, c, a) && !Covered(lower, c, b)
    ensures FastRemaining(lower, [a, b, c], 3) == [a, b, c] && FastDeleted(lower, [a, b, c], 3) == []
  {
    var facts := [a, b, c];
    assert FastRemaining(lower, facts, 1) == [] + [a] == [a];
    assert FastRemaining(lower, facts, 2) == [a] + [b] == [a, b];
    assert FastRemaining(lower, facts, 3) == [a, b] + [c];
    assert FastDeleted(lower, facts, 1) == [];
    assert FastDeleted(lower, facts, 2) == [];
  }

  /**
   The three passes can leave a fragment standing: when the newest kept text is
   itself a fragment of the new one, the last search stops before the containing
   text.  The first pass lets such texts through when only the normal forms contain
   each other, the second when their lengths are far apart.
   */
  lemma FragmentCanStay(lower: TextMap, norm: TextMap, a: Fact, b: Fact, c: Fact)
    requires a.createdAt >= b.createdAt >= c.createdAt
    requires |a.content| >= MIN_CONTENT && |b.content| >= MIN_CONTENT && |c.content| >= MIN_CONTENT
    requires !Covered(lower, b, a) && !Covered(lower, c, a) && !Covered(lower, c, b)
    requires var x, y, z := norm(a.content), norm(b.content), norm(c.content);
      x != "" && 2 * |x| < |z| && 2 * |z| < |y| && IsPart(x, z) && IsPart(x, y) && IsPart(z, y)
    ensures Fragment(norm(c.content), norm(b.content)) && MergeDeleted(lower, norm, [a, b, c]) == []
  {
    var facts := [a, b, c];
    SortedStays(facts);
    FastPassKeeps(lower, a, b, c);
    EditPassKeeps(norm, a, b, c);
    FragmentPassKeeps(norm, a, b, c);
  }

  lemma PartByPrefix(p: string, s: string)
    requires p <= s
    ensures IsPart(p, s)
  {
    assert OccursAt(p, s, 0);
  }

  lemma FirstTwo(p: string, s: string, i: nat)
    requires |p| > 1 && OccursAt(p, s, i)
    ensures s[i] == p[0] && s[i + 1] == p[1]
  {
    assert s[i + 0] == p[0] && s[i + 1] == p[1];
  }

  /** No part, when the first characters agree there only and the second ones differ. */
  lemma NotPart(p: string, s: string)
    requires |p| > 1 && |s| > 1 && s[0] == p[0] && s[1] != p[1]
    requires forall i | 0 < i < |s| :: s[i] != p[0]
    ensures !IsPart(p, s)
  {
    forall i: nat ensures !OccursAt(p, s, i) {
      if OccursAt(p, s, i) {
        FirstTwo(p, s, i);
      }
    }
  }

  /** Three numbers written with different dashes, for any normalisation that drops them. */
  lemma DashedNumbersStay(lower: TextMap, norm: TextMap, a: Fact, b: Fact, c: Fact)
    requires a.createdAt >= b.createdAt >= c.createdAt
    requires a.content == "123456" && c.content == "1-234567890abcd" && b.content == "12-34567890abcdefghijklmnopqrst"
    requires lower(a.content) == a.content && lower(b.content) == b.content && lower(c.content) == c.content
    requires norm(a.content) == "123456" && norm(c.content) == "1234567890abcd"
    requires norm(b.content) == "1234567890abcdefghijklmnopqrst"
    ensures Fragment(norm(c.content), norm(b.content)) && MergeDeleted(lower, norm, [a, b, c]) == []
  {
    PartByPrefix(norm(a.content), norm(c.content));
    PartByPrefix(norm(a.content), norm(b.content));
    PartByPrefix(norm(c.content), norm(b.content));
    NotPart(c.content, b.content);
    NotPart(c.content, a.content);
    LongerNotPart(b.content, a.content);
    FragmentCanStay(lower, norm, a, b, c);
  }

  lemma LongerNotPart(p: string, s: string)
    requires |p| > |s|
    ensures !IsPart(p, s)
  {
  }
}
