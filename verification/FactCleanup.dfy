/**
 The first pass over a user's facts: short ones, exact duplicates and short
 fragments of newer ones go.  `lower` stands for the lower-case mapping and may be
 any function.
 */
module FactCleanup {
  import opened Words
  import opened FactOrder

  const MIN_CONTENT: nat := 5

  predicate IsPart(p: string, s: string) {
    Find(p, s, 0).Some?
  }

  /** `f` says nothing that `newer` does not: the same text, or a part under 80 % of its length. */
  predicate Covered(lower: TextMap, f: Fact, newer: Fact) {
    var text := lower(f.content);
    text == lower(newer.content) || (IsPart(text, lower(newer.content)) && 10 * |text| < 8 * |newer.content|)
  }

  predicate Survives(lower: TextMap, kept: seq<Fact>, f: Fact) {
    |f.content| >= MIN_CONTENT && forall k | k in kept :: !Covered(lower, f, k)
  }

  /** The survivors among the first `n` facts of a newest-first list. */
  function FastRemaining(lower: TextMap, s: seq<Fact>, n: nat): seq<Fact>
    requires n <= |s|
  {
    if n == 0 then []
    else
      var kept := FastRemaining(lower, s, n - 1);
      if Survives(lower, kept, s[n - 1]) then kept + [s[n - 1]] else kept
  }

  predicate FastKeeps(lower: TextMap, s: seq<Fact>, i: nat)
    requires i < |s|
  {
    Survives(lower, FastRemaining(lower, s, i), s[i])
  }

  function FastDeleted(lower: TextMap, s: seq<Fact>, n: nat): seq<string>
    requires n <= |s|
  {
    if n == 0 then []
    else FastDeleted(lower, s, n - 1) + (if FastKeeps(lower, s, n - 1) then [] else [s[n - 1].id])
  }

  /** `seen` maps the lowered text of every survivor to its content, and nothing else. */
  ghost predicate Indexes(lower: TextMap, kept: seq<Fact>, seen: map<string, string>) {
    && (forall k | k in kept :: lower(k.content) in seen && seen[lower(k.content)] == k.content)
    && (forall key | key in seen :: exists k :: k in kept && lower(k.content) == key && k.content == seen[key])
  }

  method FastCleanup(lower: TextMap, facts: seq<Fact>) returns (toDelete: seq<string>, remaining: seq<Fact>)
    ensures var s := NewestFirst(facts);
      toDelete == FastDeleted(lower, s, |s|) && remaining == FastRemaining(lower, s, |s|)
  {
    var seen: map<string, string> := map[];
    var s := NewestFirst(facts);
    toDelete := [];
    remaining := [];
    for i := 0 to |s|
      invariant Indexes(lower, remaining, seen)
      invariant toDelete == FastDeleted(lower, s, i)
      invariant remaining == FastRemaining(lower, s, i)
    {
      var f := s[i];
      if |f.content| < MIN_CONTENT {
        toDelete := toDelete + [f.id];
        continue;
      }
      var normalized := lower(f.content);
      if normalized in seen {
        SeenIsCovered(lower, remaining, f, seen);
        toDelete := toDelete + [f.id];
        continue;
      }
      var isFragment := FragmentOfSeen(lower, normalized, seen);
      SurvivesIffNotFragment(lower, remaining, f, seen, isFragment);
      if isFragment {
        toDelete := toDelete + [f.id];
      } else {
        seen := seen[normalized := f.content];
        remaining := remaining + [f];
      }
    }
  }

  predicate FragmentOf(lower: TextMap, text: string, content: string) {
    IsPart(text, lower(content)) && 10 * |text| < 8 * |content|
  }

  /** The inner loop over the contents seen so far. */
  method FragmentOfSeen(lower: TextMap, text: string, seen: map<string, string>) returns (found: bool)
    ensures found <==> exists key | key in seen :: FragmentOf(lower, text, seen[key])
  {
    var pending := seen.Keys;
    found := false;
    while pending != {}
      invariant pending <= seen.Keys
      invariant forall key | key in seen && key !in pending :: !FragmentOf(lower, text, seen[key])
    {
      var key :| key in pending;
      if FragmentOf(lower, text, seen[key]) {
        return true;
      }
      pending := pending - {key};
    }
  }

  lemma SeenIsCovered(lower: TextMap, kept: seq<Fact>, f: Fact, seen: map<string, string>)
    requires Indexes(lower, kept, seen) && lower(f.content) in seen
    ensures !Survives(lower, kept, f)
  {
    var k :| k in kept && lower(k.content) == lower(f.content);
    assert Covered(lower, f, k);
  }

  lemma SurvivesIffNotFragment(lower: TextMap, kept: seq<Fact>, f: Fact, seen: map<string, string>, isFragment: bool)
    requires Indexes(lower, kept, seen) && lower(f.content) !in seen && |f.content| >= MIN_CONTENT
    requires isFragment <==> exists key | key in seen :: FragmentOf(lower, lower(f.content), seen[key])
    ensures Survives(lower, kept, f) <==> !isFragment
  {
    if isFragment {
      var key :| key in seen && FragmentOf(lower, lower(f.content), seen[key]);
      var k :| k in kept && lower(k.content) == key && k.content == seen[key];
      assert Covered(lower, f, k);
    } else {
      forall k | k in kept ensures !Covered(lower, f, k) {
        assert !FragmentOf(lower, lower(f.content), seen[lower(k.content)]);
      }
    }
  }
}
