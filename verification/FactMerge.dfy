/**
 The rule-based passes that merge long-term facts: cleanup, near-duplicates by edit
 distance, and stricter fragments.  `lower` and `norm` stand for the two text
 normalisations and may be any functions.
 */
module FactMerge {
  import opened EditDistance
  import opened FactOrder
  import opened FactCleanup

  const LEVENSHTEIN_THRESHOLD: real := 0.25

  // ---- pass 2: near-duplicates ---------------------------------------------------------

  predicate NearDuplicate(a: string, b: string, threshold: real) {
    Similar(Ratio(a, b), threshold)
  }

  predicate Fresh(kept: seq<string>, text: string, threshold: real) {
    text != "" && forall k | k in kept :: !NearDuplicate(text, k, threshold)
  }

  /** Normalised texts kept among the first `n` facts. */
  function EditKept(norm: TextMap, facts: seq<Fact>, threshold: real, n: nat): seq<string>
    requires n <= |facts|
  {
    if n == 0 then []
    else
      var kept := EditKept(norm, facts, threshold, n - 1);
      var text := norm(facts[n - 1].content);
      if Fresh(kept, text, threshold) then kept + [text] else kept
  }

  predicate EditKeeps(norm: TextMap, facts: seq<Fact>, threshold: real, i: nat)
    requires i < |facts|
  {
    Fresh(EditKept(norm, facts, threshold, i), norm(facts[i].content), threshold)
  }

  function EditDeleted(norm: TextMap, facts: seq<Fact>, threshold: real, n: nat): seq<string>
    requires n <= |facts|
  {
    if n == 0 then []
    else EditDeleted(norm, facts, threshold, n - 1)
         + (if EditKeeps(norm, facts, threshold, n - 1) then [] else [facts[n - 1].id])
  }

  method EditDistanceMerge(norm: TextMap, facts: seq<Fact>, threshold: real) returns (toDelete: seq<string>)
    ensures toDelete == if |facts| < 2 then [] else EditDeleted(norm, facts, threshold, |facts|)
  {
    if |facts| < 2 {
      return [];
    }
    toDelete := [];
    var kept: seq<string> := [];
    for i := 0 to |facts|
      invariant kept == EditKept(norm, facts, threshold, i)
      invariant toDelete == EditDeleted(norm, facts, threshold, i)
    {
      var text := norm(facts[i].content);
      if text == "" {
        toDelete := toDelete + [facts[i].id];
        continue;
      }
      var isDup := HasNearDuplicate(kept, text, threshold);
      if isDup {
        toDelete := toDelete + [facts[i].id];
      } else {
        kept := kept + [text];
      }
    }
  }

  method HasNearDuplicate(kept: seq<string>, text: string, threshold: real) returns (found: bool)
    ensures found <==> exists k | k in kept :: NearDuplicate(text, k, threshold)
  {
    for a := 0 to |kept|
      invariant forall b | 0 <= b < a :: !NearDuplicate(text, kept[b], threshold)
    {
      var ratio := LevenshteinRatio(text, kept[a]);
      if ratio > 1.0 - threshold {
        assert kept[a] in kept;
        return true;
      }
    }
    return false;
  }

  // ---- pass 3: stricter fragments -------------------------------------------------------

  /** `a` is contained in `b` and under 70 % of its length. */
  predicate Fragment(a: string, b: string) {
    IsPart(a, b) && 10 * |a| < 7 * |b|
  }

  /** The inner loop: the first kept text that contains, or is contained, decides. */
  function FragmentVerdict(kept: seq<string>, text: string): bool {
    if kept == [] then false
    else if Fragment(text, kept[0]) then true
    else if Fragment(kept[0], text) then false
    else FragmentVerdict(kept[1..], text)
  }

  /** Dropped exactly when a kept text contains it and no earlier kept text is a fragment of it. */
  lemma {:induction false} VerdictExact(kept: seq<string>, text: string)
    ensures FragmentVerdict(kept, text) <==>
      exists a :: 0 <= a < |kept| && Fragment(text, kept[a]) && forall b | 0 <= b < a :: !Fragment(kept[b], text)
  {
    if kept != [] {
      var rest := kept[1..];
      VerdictExact(rest, text);
      if a :| 0 <= a < |rest| && Fragment(text, rest[a]) && forall b | 0 <= b < a :: !Fragment(rest[b], text) {
        assert kept[a + 1] == rest[a];
        assert forall b | 1 <= b < a + 1 :: kept[b] == rest[b - 1];
      }
      if a :| 1 <= a < |kept| && Fragment(text, kept[a]) && forall b | 0 <= b < a :: !Fragment(kept[b], text) {
        assert rest[a - 1] == kept[a];
        assert forall b | 0 <= b < a - 1 :: rest[b] == kept[b + 1];
      }
    }
  }

  function FragmentKept(norm: TextMap, facts: seq<Fact>, n: nat): seq<string>
    requires n <= |facts|
  {
    if n == 0 then []
    else
      var kept := FragmentKept(norm, facts, n - 1);
      var text := norm(facts[n - 1].content);
      if text != "" && !FragmentVerdict(kept, text) then kept + [text] else kept
  }

  predicate FragmentKeeps(norm: TextMap, facts: seq<Fact>, i: nat)
    requires i < |facts|
  {
    norm(facts[i].content) != "" && !FragmentVerdict(FragmentKept(norm, facts, i), norm(facts[i].content))
  }

  function FragmentDeleted(norm: TextMap, facts: seq<Fact>, n: nat): seq<string>
    requires n <= |facts|
  {
    if n == 0 then []
    else FragmentDeleted(norm, facts, n - 1) + (if FragmentKeeps(norm, facts, n - 1) then [] else [facts[n - 1].id])
  }

  method FragmentMerge(norm: TextMap, facts: seq<Fact>) returns (toDelete: seq<string>)
    ensures toDelete == if |facts| < 2 then [] else FragmentDeleted(norm, facts, |facts|)
  {
    if |facts| < 2 {
      return [];
    }
    toDelete := [];
    var kept: seq<string> := [];
    for i := 0 to |facts|
      invariant kept == FragmentKept(norm, facts, i)
      invariant toDelete == FragmentDeleted(norm, facts, i)
    {
      var text := norm(facts[i].content);
      if text == "" {
        toDelete := toDelete + [facts[i].id];
        continue;
      }
      var isFragment := IsFragmentOfKept(kept, text);
      if isFragment {
        toDelete := toDelete + [facts[i].id];
      } else {
        kept := kept + [text];
      }
    }
  }

  method IsFragmentOfKept(kept: seq<string>, text: string) returns (found: bool)
    ensures found == FragmentVerdict(kept, text)
  {
    assert kept[0..] == kept;
    for a := 0 to |kept|
      invariant FragmentVerdict(kept, text) == FragmentVerdict(kept[a..], text)
    {
      if Fragment(text, kept[a]) {
        return true;
      }
      if Fragment(kept[a], text) {
        return false;
      }
    }
    return false;
  }

  // ---- the three passes together ----------------------------------------------------------

  /** Ids deleted by passes 1 to 3; passes 2 and 3 both read what pass 1 left. */
  function MergeDeleted(lower: TextMap, norm: TextMap, facts: seq<Fact>): seq<string> {
    var s := NewestFirst(facts);
    var left := FastRemaining(lower, s, |s|);
    if |facts| < 3 then []
    else if |left| < 3 then FastDeleted(lower, s, |s|)
    else FastDeleted(lower, s, |s|) + EditDeleted(norm, left, LEVENSHTEIN_THRESHOLD, |left|)
         + FragmentDeleted(norm, left, |left|)
  }

  /** How many facts each pass deleted. */
  datatype Stats = Stats(fast: nat, edit: nat, fragment: nat)

  method MergeFacts(lower: TextMap, norm: TextMap, facts: seq<Fact>) returns (deleted: seq<string>, stats: Stats)
    ensures deleted == MergeDeleted(lower, norm, facts)
    ensures stats.fast + stats.edit + stats.fragment == |deleted|
    ensures |facts| >= 3 ==> stats.fast == |FastDeleted(lower, NewestFirst(facts), |NewestFirst(facts)|)|
  {
    if |facts| < 3 {
      return [], Stats(0, 0, 0);
    }
    var fastDeleted, remaining := FastCleanup(lower, facts);
    if |remaining| < 3 {
      return fastDeleted, Stats(|fastDeleted|, 0, 0);
    }
    var editDups := EditDistanceMerge(norm, remaining, LEVENSHTEIN_THRESHOLD);
    var fragDups := FragmentMerge(norm, remaining);
    deleted := fastDeleted + editDups + fragDups;
    stats := Stats(|fastDeleted|, |editDups|, |fragDups|);
  }
}
