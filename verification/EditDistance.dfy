/**
 The similarity ratio that decides whether two facts are near-duplicates.  One
 row of the distance table is overwritten in place; the meaning of a distance is
 the cost of the cheapest edit script.
 */
module EditDistance {
  import opened Wrappers

  /** Distances from the first `i` characters of `s` to every prefix of `t`. */
  function Row(s: string, t: string, i: nat): (row: seq<nat>)
    requires i <= |s|
    ensures |row| == |t| + 1
  {
    if i == 0 then seq(|t| + 1, j => j) else NextRow(Row(s, t, i - 1), s[i - 1], t, |t|)
  }

  /** The first `n + 1` entries of the row below `above`. */
  function NextRow(above: seq<nat>, c: char, t: string, n: nat): (row: seq<nat>)
    requires |above| == |t| + 1 && n <= |t|
    ensures |row| == n + 1
  {
    if n == 0 then [above[0] + 1]
    else
      var row := NextRow(above, c, t, n - 1);
      row + [Least(above[n] + 1, row[n - 1] + 1, above[n - 1] + Mismatch(c, t[n - 1]))]
  }

  /** Distance between the first `i` characters of `s` and the first `j` of `t`. */
  function Dist(s: string, t: string, i: nat, j: nat): nat
    requires i <= |s| && j <= |t|
  {
    Row(s, t, i)[j]
  }

  /** The recurrence away from the edges of the table. */
  function Inner(s: string, t: string, i: nat, j: nat): nat
    requires 0 < i <= |s| && 0 < j <= |t|
  {
    Least(Dist(s, t, i - 1, j) + 1, Dist(s, t, i, j - 1) + 1, Dist(s, t, i - 1, j - 1) + Mismatch(s[i - 1], t[j - 1]))
  }

  function Least(a: nat, b: nat, c: nat): nat {
    Min(Min(a, b), c)
  }

  lemma {:induction false} NextRowAt(above: seq<nat>, c: char, t: string, n: nat, j: nat)
    requires |above| == |t| + 1 && j <= n <= |t|
    ensures var row := NextRow(above, c, t, n);
      row[j] == if j == 0 then above[0] + 1
                else Least(above[j] + 1, row[j - 1] + 1, above[j - 1] + Mismatch(c, t[j - 1]))
    decreases n
  {
    if j < n {
      NextRowAt(above, c, t, n - 1, j);
    }
  }

  /** The recurrence of the distance table. */
  lemma {:induction false} DistStep(s: string, t: string, i: nat, j: nat)
    requires i <= |s| && j <= |t|
    ensures i == 0 ==> Dist(s, t, i, j) == j
    ensures j == 0 ==> Dist(s, t, i, j) == i
    ensures i == 0 && j > 0 ==> Dist(s, t, i, j) == Dist(s, t, i, j - 1) + 1
    ensures i > 0 && j == 0 ==> Dist(s, t, i, j) == Dist(s, t, i - 1, j) + 1
    ensures i > 0 && j > 0 ==> Dist(s, t, i, j) == Inner(s, t, i, j)
  {
    if i > 0 {
      NextRowAt(Row(s, t, i - 1), s[i - 1], t, |t|, j);
      if j == 0 {
        DistStep(s, t, i - 1, 0);
      }
    }
  }

  function Mismatch(a: char, b: char): nat {
    if a == b then 0 else 1
  }

  function Distance(s: string, t: string): nat {
    Dist(s, t, |s|, |t|)
  }

  /** The lengths are so far apart that the table is not computed. */
  predicate LengthsFarApart(s: string, t: string)
    requires s != "" && t != ""
  {
    Max(|s| - |t|, |t| - |s|) as real / Max(|s|, |t|) as real > 0.5
  }

  /** Normalized similarity from the distance alone. */
  function TrueRatio(s: string, t: string): real {
    if s == "" && t == "" then 1.0
    else 1.0 - Distance(s, t) as real / Max(|s|, |t|) as real
  }

  /** Normalized similarity as it is computed, with the shortcuts. */
  function Ratio(s: string, t: string): real {
    if s == t then 1.0
    else if s == "" || t == "" then 0.0
    else if LengthsFarApart(s, t) then 0.0
    else TrueRatio(s, t)
  }

  /** The table, one row of it at a time in one array. */
  method TableDistance(s1: string, s2: string) returns (distance: nat)
    ensures distance == Distance(s1, s2)
  {
    var matrix := new nat[|s2| + 1](j => j);
    for i := 1 to |s1| + 1
      invariant forall j | 0 <= j <= |s2| :: matrix[j] == Dist(s1, s2, i - 1, j)
    {
      DistStep(s1, s2, i, 0);
      var prev := matrix[0];
      matrix[0] := i;
      for j := 1 to |s2| + 1
        invariant prev == Dist(s1, s2, i - 1, j - 1)
        invariant forall k | 0 <= k < j :: matrix[k] == Dist(s1, s2, i, k)
        invariant forall k | j <= k <= |s2| :: matrix[k] == Dist(s1, s2, i - 1, k)
      {
        DistStep(s1, s2, i, j);
        var cost := if s1[i - 1] == s2[j - 1] then 0 else 1;
        prev, matrix[j] := matrix[j], Min(Min(matrix[j] + 1, matrix[j - 1] + 1), prev + cost);
      }
    }
    return matrix[|s2|];
  }

  method LevenshteinRatio(s1: string, s2: string) returns (r: real)
    ensures r == Ratio(s1, s2)
  {
    if s1 == s2 {
      return 1.0;
    }
    if s1 == "" || s2 == "" {
      return 0.0;
    }
    if LengthsFarApart(s1, s2) {
      return 0.0;
    }
    var distance := TableDistance(s1, s2);
    r := 1.0 - distance as real / Max(|s1|, |s2|) as real;
  }

  // ---- edit scripts -----------------------------------------------------------------

  datatype Op = Keep | Change(c: char) | Insert(c: char) | Delete

  /** The text a script makes of `s`, read from the end; None when it does not fit. */
  function Apply(script: seq<Op>, s: string): Option<string> {
    if script == [] then (if s == "" then Some("") else None)
    else
      var front := script[..|script| - 1];
      match script[|script| - 1]
      case Keep =>
        if s == "" then None else Extend(Apply(front, s[..|s| - 1]), s[|s| - 1])
      case Change(c) =>
        if s == "" then None else Extend(Apply(front, s[..|s| - 1]), c)
      case Insert(c) => Extend(Apply(front, s), c)
      case Delete =>
        if s == "" then None else Apply(front, s[..|s| - 1])
  }

  function Extend(t: Option<string>, c: char): Option<string> {
    if t.None? then None else Some(t.value + [c])
  }

  function Cost(script: seq<Op>): nat {
    if script == [] then 0
    else Cost(script[..|script| - 1]) + (if script[|script| - 1].Keep? then 0 else 1)
  }

  lemma CostSnoc(script: seq<Op>, op: Op)
    ensures Cost(script + [op]) == Cost(script) + (if op.Keep? then 0 else 1)
  {
    assert (script + [op])[..|script|] == script;
  }

  /** No script is cheaper than the distance. */
  lemma {:induction false} ScriptCostsDistance(script: seq<Op>, s: string, t: string, i: nat, j: nat)
    requires i <= |s| && j <= |t| && Apply(script, s[..i]) == Some(t[..j])
    ensures Dist(s, t, i, j) <= Cost(script)
  {
    DistStep(s, t, i, j);
    if script != [] {
      var front, op := script[..|script| - 1], script[|script| - 1];
      if !op.Delete? {
        assert j > 0 by {
          assert |t[..j]| > 0;
        }
        assert t[..j][..j - 1] == t[..j - 1] && t[..j][j - 1] == t[j - 1];
      }
      if !op.Insert? {
        assert i > 0;
        assert s[..i][..i - 1] == s[..i - 1] && s[..i][i - 1] == s[i - 1];
      }
      match op
      case Keep => ExtendInverse(Apply(front, s[..i - 1]), s[i - 1], t[..j]);
        ScriptCostsDistance(front, s, t, i - 1, j - 1);
      case Change(c) => ExtendInverse(Apply(front, s[..i - 1]), c, t[..j]);
        ScriptCostsDistance(front, s, t, i - 1, j - 1);
      case Insert(c) => ExtendInverse(Apply(front, s[..i]), c, t[..j]);
        ScriptCostsDistance(front, s, t, i, j - 1);
      case Delete => ScriptCostsDistance(front, s, t, i - 1, j);
    }
  }

  lemma ExtendInverse(r: Option<string>, c: char, t: string)
    requires Extend(r, c) == Some(t)
    ensures t != "" && r == Some(t[..|t| - 1]) && t[|t| - 1] == c
  {
  }

  lemma InsertLast(front: seq<Op>, s: string, t: string, j: nat)
    requires 0 < j <= |t| && Apply(front, s) == Some(t[..j - 1])
    ensures Apply(front + [Insert(t[j - 1])], s) == Some(t[..j])
  {
    assert (front + [Insert(t[j - 1])])[..|front|] == front;
    assert t[..j] == t[..j - 1] + [t[j - 1]];
  }

  lemma DeleteLast(front: seq<Op>, s: string, i: nat, t: string)
    requires 0 < i <= |s| && Apply(front, s[..i - 1]) == Some(t)
    ensures Apply(front + [Delete], s[..i]) == Some(t)
  {
    assert (front + [Delete])[..|front|] == front;
    assert s[..i][..i - 1] == s[..i - 1];
  }

  function Match(a: char, b: char): Op {
    if a == b then Keep else Change(b)
  }

  lemma MatchLast(front: seq<Op>, s: string, t: string, i: nat, j: nat)
    requires 0 < i <= |s| && 0 < j <= |t| && Apply(front, s[..i - 1]) == Some(t[..j - 1])
    ensures Apply(front + [Match(s[i - 1], t[j - 1])], s[..i]) == Some(t[..j])
  {
    var op := Match(s[i - 1], t[j - 1]);
    assert (front + [op])[..|front|] == front;
    assert s[..i][..i - 1] == s[..i - 1] && s[..i][i - 1] == s[i - 1];
    assert t[..j] == t[..j - 1] + [t[j - 1]];
  }

  /** Some script costs exactly the distance. */
  lemma {:induction false} BestScript(s: string, t: string, i: nat, j: nat) returns (script: seq<Op>)
    requires i <= |s| && j <= |t|
    ensures Apply(script, s[..i]) == Some(t[..j]) && Cost(script) == Dist(s, t, i, j)
    decreases i + j
  {
    DistStep(s, t, i, j);
    if i == 0 && j == 0 {
      script := [];
      return;
    }
    var front, op;
    if j > 0 && Dist(s, t, i, j) == Dist(s, t, i, j - 1) + 1 {
      front := BestScript(s, t, i, j - 1);
      op := Insert(t[j - 1]);
      InsertLast(front, s[..i], t, j);
    } else if i > 0 && Dist(s, t, i, j) == Dist(s, t, i - 1, j) + 1 {
      front := BestScript(s, t, i - 1, j);
      op := Delete;
      DeleteLast(front, s, i, t[..j]);
    } else {
      front := BestScript(s, t, i - 1, j - 1);
      op := Match(s[i - 1], t[j - 1]);
      MatchLast(front, s, t, i, j);
    }
    CostSnoc(front, op);
    script := front + [op];
  }

  /** The distance is the least cost of a script from `s` to `t`. */
  lemma DistanceIsLeastCost(s: string, t: string)
    ensures exists script :: Apply(script, s) == Some(t) && Cost(script) == Distance(s, t)
    ensures forall script | Apply(script, s) == Some(t) :: Distance(s, t) <= Cost(script)
  {
    assert s[..|s|] == s && t[..|t|] == t;
    var best := BestScript(s, t, |s|, |t|);
    forall script | Apply(script, s) == Some(t) ensures Distance(s, t) <= Cost(script) {
      ScriptCostsDistance(script, s, t, |s|, |t|);
    }
  }

  // ---- metric laws --------------------------------------------------------------------

  lemma {:induction false} Symmetric(s: string, t: string, i: nat, j: nat)
    requires i <= |s| && j <= |t|
    ensures Dist(s, t, i, j) == Dist(t, s, j, i)
    decreases i + j
  {
    DistStep(s, t, i, j);
    DistStep(t, s, j, i);
    if i > 0 && j > 0 {
      Symmetric(s, t, i - 1, j);
      Symmetric(s, t, i, j - 1);
      Symmetric(s, t, i - 1, j - 1);
    }
  }

  lemma {:induction false} LengthBounds(s: string, t: string, i: nat, j: nat)
    requires i <= |s| && j <= |t|
    ensures i - j <= Dist(s, t, i, j) && j - i <= Dist(s, t, i, j)
    ensures Dist(s, t, i, j) <= i + j
    decreases i + j
  {
    DistStep(s, t, i, j);
    if i > 0 && j > 0 {
      LengthBounds(s, t, i - 1, j);
      LengthBounds(s, t, i, j - 1);
      LengthBounds(s, t, i - 1, j - 1);
    }
  }

  datatype LastEdit = DropLeft | AddRight | Both

  /** The distance comes from this one of the three entries. */
  predicate ComesFrom(s: string, t: string, i: nat, j: nat, e: LastEdit)
    requires 0 < i <= |s| && 0 < j <= |t|
  {
    Dist(s, t, i, j) == match e
      case DropLeft => Dist(s, t, i - 1, j) + 1
      case AddRight => Dist(s, t, i, j - 1) + 1
      case Both => Dist(s, t, i - 1, j - 1) + Mismatch(s[i - 1], t[j - 1])
  }

  lemma WhichEdit(s: string, t: string, i: nat, j: nat) returns (e: LastEdit)
    requires 0 < i <= |s| && 0 < j <= |t|
    ensures ComesFrom(s, t, i, j, e)
  {
    DistStep(s, t, i, j);
    e := if Dist(s, t, i, j) == Dist(s, t, i - 1, j) + 1 then DropLeft
         else if Dist(s, t, i, j) == Dist(s, t, i, j - 1) + 1 then AddRight else Both;
  }

  /** One more character costs at most one edit. */
  lemma OneEdit(s: string, t: string, i: nat, j: nat)
    requires 0 < i <= |s| && 0 < j <= |t|
    ensures Dist(s, t, i, j) <= Dist(s, t, i - 1, j) + 1
    ensures Dist(s, t, i, j) <= Dist(s, t, i, j - 1) + 1
    ensures Dist(s, t, i, j) <= Dist(s, t, i - 1, j - 1) + Mismatch(s[i - 1], t[j - 1])
  {
    DistStep(s, t, i, j);
  }

  lemma {:induction false} Triangle(s: string, t: string, u: string, i: nat, j: nat, k: nat)
    requires i <= |s| && j <= |t| && k <= |u|
    ensures Dist(s, u, i, k) <= Dist(s, t, i, j) + Dist(t, u, j, k)
    decreases i + j + k, 1
  {
    if i == 0 || j == 0 || k == 0 {
      LengthBounds(s, t, i, j);
      LengthBounds(t, u, j, k);
      LengthBounds(s, u, i, k);
    } else {
      OneEdit(s, u, i, k);
      var e := WhichEdit(s, t, i, j);
      var f := WhichEdit(t, u, j, k);
      if e.DropLeft? {
        Triangle(s, t, u, i - 1, j, k);
      } else if f.AddRight? {
        Triangle(s, t, u, i, j, k - 1);
      } else {
        TriangleThroughMiddle(s, t, u, i, j, k, e, f);
      }
    }
  }

  /** The last character of `t` comes from `s` or is new, and goes to `u` or is dropped. */
  lemma {:induction false} TriangleThroughMiddle(s: string, t: string, u: string, i: nat, j: nat, k: nat, e: LastEdit, f: LastEdit)
    requires 0 < i <= |s| && 0 < j <= |t| && 0 < k <= |u|
    requires ComesFrom(s, t, i, j, e) && ComesFrom(t, u, j, k, f) && !e.DropLeft? && !f.AddRight?
    ensures Dist(s, u, i, k) <= Dist(s, t, i, j) + Dist(t, u, j, k)
    decreases i + j + k, 0
  {
    OneEdit(s, u, i, k);
    if e.Both? && f.Both? {
      Triangle(s, t, u, i - 1, j - 1, k - 1);
    } else if e.Both? {
      Triangle(s, t, u, i - 1, j - 1, k);
    } else if f.Both? {
      Triangle(s, t, u, i, j - 1, k - 1);
    } else {
      Triangle(s, t, u, i, j - 1, k);
    }
  }

  lemma {:induction false} ZeroIffEqual(s: string, t: string, i: nat, j: nat)
    requires i <= |s| && j <= |t|
    ensures Dist(s, t, i, j) == 0 <==> s[..i] == t[..j]
    decreases i + j
  {
    DistStep(s, t, i, j);
    if i > 0 && j > 0 {
      ZeroIffEqual(s, t, i - 1, j - 1);
      assert s[..i] == s[..i - 1] + [s[i - 1]];
      assert t[..j] == t[..j - 1] + [t[j - 1]];
      assert s[..i][..i - 1] == s[..i - 1] && t[..j][..j - 1] == t[..j - 1];
    }
  }

  /** The distance is a metric on texts. */
  lemma DistanceIsMetric(s: string, t: string, u: string)
    ensures Distance(s, t) == Distance(t, s)
    ensures Distance(s, u) <= Distance(s, t) + Distance(t, u)
    ensures Distance(s, t) == 0 <==> s == t
  {
    Symmetric(s, t, |s|, |t|);
    Triangle(s, t, u, |s|, |t|, |u|);
    ZeroIffEqual(s, t, |s|, |t|);
    assert s[..|s|] == s && t[..|t|] == t;
  }

  // ---- the length shortcut --------------------------------------------------------------

  /** The duplicate test of the merge passes. */
  predicate Similar(ratio: real, threshold: real) {
    ratio > 1.0 - threshold
  }

  lemma RatioBounds(s: string, t: string)
    requires s != "" && t != ""
    ensures 0.0 <= TrueRatio(s, t) <= 1.0
    ensures LengthsFarApart(s, t) ==> TrueRatio(s, t) < 0.5
    ensures s == t ==> TrueRatio(s, t) == 1.0
  {
    LengthBounds(s, t, |s|, |t|);
    AtMostLonger(s, t, |s|, |t|);
    ZeroIffEqual(s, t, |s|, |t|);
    assert s[..|s|] == s && t[..|t|] == t;
    var d, m, gap := Distance(s, t), Max(|s|, |t|), Max(|s| - |t|, |t| - |s|);
    FractionOrder(gap, d, m);
    FractionOrder(d, m, m);
  }

  lemma FractionOrder(a: nat, b: nat, m: nat)
    requires m > 0 && a <= b
    ensures 0.0 <= a as real / m as real <= b as real / m as real
    ensures m as real / m as real == 1.0
  {
    assert (b - a) as real / m as real >= 0.0;
    assert b as real == a as real + (b - a) as real;
  }

  lemma {:induction false} AtMostLonger(s: string, t: string, i: nat, j: nat)
    requires i <= |s| && j <= |t|
    ensures Dist(s, t, i, j) <= Max(i, j)
    decreases i + j
  {
    DistStep(s, t, i, j);
    if i > 0 && j > 0 {
      AtMostLonger(s, t, i - 1, j - 1);
    }
  }

  lemma {:induction false} PrefixDistance(s: string, t: string, i: nat, j: nat)
    requires i <= |s| && j <= |t| && i <= j && s <= t
    ensures Dist(s, t, i, j) <= j - i
    decreases i + j
  {
    DistStep(s, t, i, j);
    if i < j {
      PrefixDistance(s, t, i, j - 1);
    } else if i > 0 {
      PrefixDistance(s, t, i - 1, j - 1);
    }
  }

  /** For these thresholds the shortcuts never change the decision, on any two texts. */
  lemma ShortcutKeepsDecision(s: string, t: string, threshold: real)
    requires threshold <= 0.5 || threshold > 1.0
    ensures Similar(Ratio(s, t), threshold) <==> Similar(TrueRatio(s, t), threshold)
  {
    if s != "" && t != "" {
      RatioBounds(s, t);
    } else if s != t {
      var m := Max(|s|, |t|);
      LengthBounds(s, t, |s|, |t|);
      FractionOrder(m, m, m);
    }
  }

  /** For every other threshold some pair of texts is decided differently. */
  lemma ShortcutChangesDecision(threshold: real) returns (s: string, t: string)
    requires 0.5 < threshold <= 1.0
    ensures !Similar(Ratio(s, t), threshold) && Similar(TrueRatio(s, t), threshold)
  {
    var k: nat := (1.0 / (threshold - 0.5)).Floor + 1;
    s := seq(k, _ => 'a');
    t := seq(2 * k + 1, _ => 'a');
    PrefixDistance(s, t, k, 2 * k + 1);
    FractionOrder(Distance(s, t), k + 1, 2 * k + 1);
    ShareNearHalf(threshold, k);
  }

  lemma ShareNearHalf(threshold: real, k: nat)
    requires threshold > 0.5 && k as real > 1.0 / (threshold - 0.5)
    ensures 0.5 < (k + 1) as real / (2 * k + 1) as real < threshold
  {
    var d, m := threshold - 0.5, (2 * k + 1) as real;
    TimesMonotone(1.0 / d, k as real, d);
    QuotientTimes(1.0, d);
    var kd := k as real * d;
    assert m * d == (k as real + k as real + 1.0) * d == kd + kd + d;
    assert threshold * m == (0.5 + d) * m == 0.5 * m + m * d;
    QuotientBetween((k + 1) as real, m, threshold);
  }

  lemma TimesMonotone(a: real, b: real, d: real)
    requires a < b && d > 0.0
    ensures a * d < b * d
  {
  }

  lemma QuotientTimes(a: real, m: real)
    requires m != 0.0
    ensures a / m * m == a
  {
  }

  lemma QuotientBetween(a: real, m: real, hi: real)
    requires m > 0.0 && 0.5 * m < a < hi * m
    ensures 0.5 < a / m < hi
  {
    QuotientTimes(a, m);
    var q := a / m;
    if q < 0.5 {
      TimesMonotone(q, 0.5, m);
    }
    if hi < q {
      TimesMonotone(hi, q, m);
    }
  }

  /** The shortcuts are safe exactly for thresholds up to one half, or above one. */
  lemma ShortcutSafeIff(threshold: real)
    ensures (forall s, t :: Similar(Ratio(s, t), threshold) <==> Similar(TrueRatio(s, t), threshold))
            <==> (threshold <= 0.5 || threshold > 1.0)
  {
    if threshold <= 0.5 || threshold > 1.0 {
      forall s, t ensures Similar(Ratio(s, t), threshold) <==> Similar(TrueRatio(s, t), threshold) {
        ShortcutKeepsDecision(s, t, threshold);
      }
    } else {
      var s, t := ShortcutChangesDecision(threshold);
    }
  }
}
