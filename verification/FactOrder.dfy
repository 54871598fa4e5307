/** Stored facts, newest first. */
module FactOrder {
  /** A stored fact; `content` is already stripped of surrounding white space. */
  datatype Fact = Fact(id: string, content: string, createdAt: int)

  /** A text normalisation; any function. */
  type TextMap = string -> string

  /** Stable insertion into a list sorted newest first. */
  function InsertNewest(f: Fact, sorted: seq<Fact>): seq<Fact> {
    if sorted == [] || sorted[0].createdAt <= f.createdAt then [f] + sorted
    else [sorted[0]] + InsertNewest(f, sorted[1..])
  }

  /** `sorted(facts, key=created_at, reverse=True)`: equal keys keep their order. */
  function NewestFirst(facts: seq<Fact>): seq<Fact> {
    if facts == [] then [] else InsertNewest(facts[0], NewestFirst(facts[1..]))
  }

  ghost predicate Descending(s: seq<Fact>) {
    forall i, j | 0 <= i < j < |s| :: s[i].createdAt >= s[j].createdAt
  }

  lemma {:induction false} InsertAdds(f: Fact, s: seq<Fact>)
    ensures multiset(InsertNewest(f, s)) == multiset(s) + multiset{f}
  {
    if s != [] && s[0].createdAt > f.createdAt {
      InsertAdds(f, s[1..]);
      assert s == [s[0]] + s[1..];
    }
  }

  lemma InsertMembers(f: Fact, s: seq<Fact>)
    ensures forall x :: x in InsertNewest(f, s) ==> x == f || x in s
  {
    InsertAdds(f, s);
    forall x | x in InsertNewest(f, s) ensures x == f || x in s {
      assert x in multiset(InsertNewest(f, s));
    }
  }

  lemma {:induction false} InsertKeepsOrder(f: Fact, s: seq<Fact>)
    requires Descending(s)
    ensures Descending(InsertNewest(f, s))
  {
    if s != [] && s[0].createdAt > f.createdAt {
      InsertKeepsOrder(f, s[1..]);
      InsertMembers(f, s[1..]);
      var rest := InsertNewest(f, s[1..]);
      forall j | 0 <= j < |rest| ensures rest[j].createdAt <= s[0].createdAt {
        assert rest[j] in rest;
      }
    }
  }

  /** The facts with one time, in order. */
  function AtTime(facts: seq<Fact>, time: int): seq<Fact> {
    if facts == [] then []
    else if facts[0].createdAt == time then [facts[0]] + AtTime(facts[1..], time)
    else AtTime(facts[1..], time)
  }

  /** A fact goes in front of those of its own time, and among no others of one time. */
  lemma {:induction false} InsertStable(f: Fact, s: seq<Fact>, time: int)
    requires Descending(s)
    ensures AtTime(InsertNewest(f, s), time) == AtTime([f] + s, time)
  {
    assert ([f] + s)[1..] == s;
    if s != [] && s[0].createdAt > f.createdAt {
      InsertStable(f, s[1..], time);
      assert ([f] + s[1..])[1..] == s[1..];
    }
  }

  lemma {:induction false} NewestFirstStable(facts: seq<Fact>, time: int)
    ensures AtTime(NewestFirst(facts), time) == AtTime(facts, time)
  {
    if facts != [] {
      var sorted := NewestFirst(facts[1..]);
      NewestFirstStable(facts[1..], time);
      NewestFirstOrders(facts[1..]);
      InsertStable(facts[0], sorted, time);
      assert ([facts[0]] + sorted)[1..] == sorted;
    }
  }

  lemma {:induction false} NewestFirstOrders(facts: seq<Fact>)
    ensures Descending(NewestFirst(facts)) && multiset(NewestFirst(facts)) == multiset(facts)
  {
    if facts != [] {
      NewestFirstOrders(facts[1..]);
      InsertKeepsOrder(facts[0], NewestFirst(facts[1..]));
      InsertAdds(facts[0], NewestFirst(facts[1..]));
      assert facts == [facts[0]] + facts[1..];
    }
  }

  /** Newest first, the same facts, and those of equal times in their old order. */
  lemma NewestFirstSorts(facts: seq<Fact>)
    ensures Descending(NewestFirst(facts))
    ensures multiset(NewestFirst(facts)) == multiset(facts)
    ensures forall time :: AtTime(NewestFirst(facts), time) == AtTime(facts, time)
  {
    NewestFirstOrders(facts);
    forall time ensures AtTime(NewestFirst(facts), time) == AtTime(facts, time) {
      NewestFirstStable(facts, time);
    }
  }

  lemma {:induction false} SortedStays(facts: seq<Fact>)
    requires Descending(facts)
    ensures NewestFirst(facts) == facts
  {
    if facts != [] {
      SortedStays(facts[1..]);
    }
  }
}
