/**
 Words over characters: concatenation of chunks, occurrences of a pattern and
 periods.  The streaming filters are specified in these terms.
 */
module Words {
  import opened Wrappers

  /** The text a list of chunks carries. */
  function Concat(chunks: seq<string>): string {
    if chunks == [] then "" else chunks[0] + Concat(chunks[1..])
  }

  lemma Assoc(a: string, b: string, c: string)
    ensures (a + b) + c == a + (b + c)
  {
  }

  lemma SliceSplit(s: string, k: nat, n: nat)
    requires k <= n <= |s|
    ensures s[..n] == s[..k] + s[k..][..n - k]
    ensures s[k..][n - k..] == s[n..]
  {
  }

  lemma SliceJoin(s: string, a: nat, b: nat, c: nat)
    requires a <= b <= c <= |s|
    ensures s[a..b] + s[b..c] == s[a..c]
  {
  }

  lemma SliceOfLonger(s: string, t: string, a: nat, b: nat)
    requires a <= b <= |s|
    ensures (s + t)[a..b] == s[a..b]
  {
  }

  lemma DropConcat(a: string, b: string)
    ensures (a + b)[|a|..] == b && (a + b)[..|a|] == a
  {
  }

  lemma SplitConcat(a: string, b: string, n: nat)
    requires n <= |a|
    ensures (a + b)[..n] == a[..n]
    ensures (a + b)[n..] == a[n..] + b
  {
  }

  lemma {:induction false} ConcatSnoc(chunks: seq<string>, last: string)
    ensures Concat(chunks + [last]) == Concat(chunks) + last
  {
    if chunks == [] {
      assert chunks + [last] == [last];
      assert Concat([last]) == last + Concat([]);
    } else {
      assert (chunks + [last])[1..] == chunks[1..] + [last];
      ConcatSnoc(chunks[1..], last);
    }
  }

  lemma ConcatFront(chunks: seq<string>)
    requires chunks != []
    ensures Concat(chunks) == Concat(chunks[..|chunks| - 1]) + chunks[|chunks| - 1]
  {
    ConcatSnoc(chunks[..|chunks| - 1], chunks[|chunks| - 1]);
    assert chunks[..|chunks| - 1] + [chunks[|chunks| - 1]] == chunks;
  }

  lemma {:induction false} ConcatAppend(a: seq<string>, b: seq<string>)
    ensures Concat(a + b) == Concat(a) + Concat(b)
  {
    if a == [] {
      assert a + b == b;
    } else {
      assert (a + b)[1..] == a[1..] + b;
      ConcatAppend(a[1..], b);
    }
  }

  /** `p` stands in `s` at index `i`. */
  predicate OccursAt(p: string, s: string, i: int) {
    0 <= i && i + |p| <= |s| && forall k | 0 <= k < |p| :: p[k] == s[i + k]
  }

  /** Leftmost occurrence at or after `from`; `str.find`. */
  function Find(p: string, s: string, from: nat): (r: Option<nat>)
    ensures r.Some? ==> from <= r.value && OccursAt(p, s, r.value)
    ensures r.Some? ==> forall i | from <= i < r.value :: !OccursAt(p, s, i)
    ensures r.None? ==> forall i | from <= i :: !OccursAt(p, s, i)
    decreases |s| - from
  {
    if from + |p| > |s| then None
    else if OccursAt(p, s, from) then Some(from)
    else Find(p, s, from + 1)
  }

  lemma OccursBetween(p: string, a: string, b: string)
    ensures OccursAt(p, a + (p + b), |a|)
    ensures (a + (p + b))[|a| + |p|..] == b
  {
    var s := a + (p + b);
    forall k | 0 <= k < |p| ensures p[k] == s[|a| + k] {
      assert s[|a| + k] == (p + b)[k];
    }
  }

  /** Every index at or after `from` where `p` occurs in `s`, ascending. */
  function Occurrences(p: string, s: string, from: nat): seq<nat>
    decreases |s| - from
  {
    if from + |p| > |s| then []
    else if OccursAt(p, s, from) then [from] + Occurrences(p, s, from + 1)
    else Occurrences(p, s, from + 1)
  }

  /** Ascending, nothing but occurrences, and no occurrence missing. */
  lemma {:induction false} OccurrencesComplete(p: string, s: string, from: nat)
    ensures var ps := Occurrences(p, s, from);
      && (forall k | 0 <= k < |ps| :: from <= ps[k] && OccursAt(p, s, ps[k]))
      && (forall j, k | 0 <= j < k < |ps| :: ps[j] < ps[k])
      && (forall i | from <= i && OccursAt(p, s, i) :: i in ps)
    decreases |s| - from
  {
    if from + |p| <= |s| {
      OccurrencesComplete(p, s, from + 1);
      var rest := Occurrences(p, s, from + 1);
      if OccursAt(p, s, from) {
        var ps := [from] + rest;
        assert forall k | 1 <= k < |ps| :: ps[k] == rest[k - 1];
        assert ps[0] == from;
        forall i | from <= i && OccursAt(p, s, i) ensures i in ps {
          assert i == from || i in rest;
        }
      }
    }
  }

  /** Splitting the search at an occurrence, which is how repeated `find` proceeds. */
  lemma {:induction false} OccurrencesSkip(p: string, s: string, from: nat, upto: nat)
    requires from <= upto
    requires forall i | from <= i < upto :: !OccursAt(p, s, i)
    ensures Occurrences(p, s, from) == Occurrences(p, s, upto)
    decreases upto - from
  {
    if from < upto {
      if from + |p| <= |s| {
        assert !OccursAt(p, s, from);
        OccurrencesSkip(p, s, from + 1, upto);
      }
    }
  }

  /** An occurrence with none before it heads the list. */
  lemma OccurrencesHead(p: string, s: string, from: nat, head: nat)
    requires from <= head && OccursAt(p, s, head)
    requires forall i | from <= i < head :: !OccursAt(p, s, i)
    ensures Occurrences(p, s, from) == [head] + Occurrences(p, s, head + 1)
  {
    OccurrencesSkip(p, s, from, head);
  }

  lemma {:induction false} OccurrencesNone(p: string, s: string, from: nat)
    requires forall i | from <= i :: !OccursAt(p, s, i)
    ensures Occurrences(p, s, from) == []
    decreases |s| - from
  {
    if from + |p| <= |s| {
      OccurrencesNone(p, s, from + 1);
    }
  }

  /** The entries are occurrences. */
  lemma OccurrenceEntry(p: string, s: string, k: nat)
    requires k < |Occurrences(p, s, 0)|
    ensures OccursAt(p, s, Occurrences(p, s, 0)[k])
  {
    OccurrencesComplete(p, s, 0);
  }

  /** The entries ascend. */
  lemma OccurrencesAscend(p: string, s: string, j: nat, k: nat)
    requires j <= k < |Occurrences(p, s, 0)|
    ensures Occurrences(p, s, 0)[j] <= Occurrences(p, s, 0)[k]
    ensures j < k ==> Occurrences(p, s, 0)[j] < Occurrences(p, s, 0)[k]
  {
    OccurrencesComplete(p, s, 0);
  }

  /** Every occurrence is an entry. */
  lemma OccurrenceIndex(p: string, s: string, i: nat) returns (k: nat)
    requires OccursAt(p, s, i)
    ensures k < |Occurrences(p, s, 0)| && Occurrences(p, s, 0)[k] == i
  {
    OccurrencesComplete(p, s, 0);
    assert i in Occurrences(p, s, 0);
    k :| k < |Occurrences(p, s, 0)| && Occurrences(p, s, 0)[k] == i;
  }

  /** The neighbour of an entry of the list is the nearest earlier occurrence. */
  lemma Predecessor(p: string, s: string, k: nat, i: nat)
    requires k < |Occurrences(p, s, 0)|
    requires i < Occurrences(p, s, 0)[k] && OccursAt(p, s, i)
    requires forall f | i < f < Occurrences(p, s, 0)[k] :: !OccursAt(p, s, f)
    ensures k > 0 && Occurrences(p, s, 0)[k - 1] == i
  {
    var m := OccurrenceIndex(p, s, i);
    if k <= m {
      OccurrencesAscend(p, s, k, m);
      assert false;
    }
    OccurrencesAscend(p, s, k - 1, k);
    OccurrenceEntry(p, s, k - 1);
    OccurrencesAscend(p, s, m, k - 1);
  }

  /** `p` is a period of `s`: characters `p` apart agree. */
  ghost predicate HasPeriod(s: string, p: int) {
    0 < p && forall i, j | 0 <= i < j < |s| && j - i == p :: s[i] == s[j]
  }

  /** The last `n` characters. */
  function Suffix(s: string, n: nat): string
    requires n <= |s|
  {
    s[|s| - n..]
  }

  lemma SuffixPeriod(s: string, p: int, n: nat)
    requires HasPeriod(s, p) && n <= |s|
    ensures HasPeriod(Suffix(s, n), p)
  {
    var t := Suffix(s, n);
    forall i, j | 0 <= i < j < |t| && j - i == p ensures t[i] == t[j] {
      assert t[i] == s[|s| - n + i] && t[j] == s[|s| - n + j];
    }
  }

  /** A period of a long enough suffix spreads over a word that has another period. */
  lemma PeriodSpreads(s: string, p: int, d: int, n: nat)
    requires HasPeriod(s, p) && 0 < d && n <= |s|
    requires HasPeriod(Suffix(s, n), d)
    requires p + d <= n
    ensures HasPeriod(s, d)
  {
    forall i, j | 0 <= i < j < |s| && j - i == d ensures s[i] == s[j] {
      PeriodSpreadsAt(s, p, d, n, i);
    }
  }

  lemma {:induction false} PeriodSpreadsAt(s: string, p: int, d: int, n: nat, i: nat)
    requires HasPeriod(s, p) && 0 < d && n <= |s|
    requires HasPeriod(Suffix(s, n), d)
    requires p + d <= n && i + d < |s|
    ensures s[i] == s[i + d]
    decreases |s| - i
  {
    var t := Suffix(s, n);
    if i >= |s| - n {
      var k := i - (|s| - n);
      assert t[k] == s[i] && t[k + d] == s[i + d];
    } else {
      PeriodSpreadsAt(s, p, d, n, i + p);
      assert s[i] == s[i + p] && s[i + d] == s[i + d + p];
    }
  }

  function Gcd(p: nat, q: nat): (g: nat)
    requires 0 < p && 0 < q
    ensures 0 < g <= p && g <= q
    decreases p + q
  {
    if p == q then p else if p < q then Gcd(p, q - p) else Gcd(p - q, q)
  }

  ghost predicate Divides(d: int, n: int) {
    exists k: int :: Multiple(k, d) == n
  }

  function Multiple(k: int, d: int): int { k * d }

  lemma {:induction false} GcdDivides(p: nat, q: nat)
    requires 0 < p && 0 < q
    ensures Divides(Gcd(p, q), p) && Divides(Gcd(p, q), q)
    decreases p + q
  {
    var g := Gcd(p, q);
    if p == q {
      assert Multiple(1, g) == p;
    } else if p < q {
      GcdDivides(p, q - p);
      var a, b :| Multiple(a, g) == p && Multiple(b, g) == q - p;
      assert Multiple(a + b, g) == q;
    } else {
      GcdDivides(p - q, q);
      var a, b :| Multiple(a, g) == p - q && Multiple(b, g) == q;
      assert Multiple(a + b, g) == p;
    }
  }

  /** Fine and Wilf: two periods of a word at least as long as their sum give their gcd. */
  lemma {:induction false} FineWilf(s: string, p: nat, q: nat)
    requires HasPeriod(s, p) && HasPeriod(s, q)
    requires p + q <= |s|
    ensures HasPeriod(s, Gcd(p, q))
    decreases p + q
  {
    if p < q {
      PeriodDifference(s, p, q);
      FineWilf(s, p, q - p);
    } else if q < p {
      PeriodDifference(s, q, p);
      FineWilf(s, p - q, q);
    }
  }

  lemma PeriodDifference(s: string, p: nat, q: nat)
    requires HasPeriod(s, p) && HasPeriod(s, q)
    requires p < q && p + q <= |s|
    ensures HasPeriod(s, q - p)
  {
    forall i, j | 0 <= i < j < |s| && j - i == q - p ensures s[i] == s[j] {
      if i >= p {
        assert s[i - p] == s[i] && s[i - p] == s[j];
      } else {
        assert s[i] == s[i + q] && s[j] == s[i + q];
      }
    }
  }
}
