/**
 The detector for degenerate output loops: the last WINDOW characters are a
 probe, and a text whose last three probe occurrences are evenly spaced is cut
 at the first occurrence.
 */
module Repetition {
  import opened Wrappers
  import opened Words
  import opened Whitespace

  const WINDOW: nat := 200
  const MIN_COUNT: nat := 3
  const SCAN_LIMIT: nat := 4096

  /** The part of the text that is searched. */
  function Scan(text: string, scanLimit: Option<nat>): string {
    if scanLimit.None? || |text| <= scanLimit.value || scanLimit.value == 0 then text
    else Suffix(text, scanLimit.value)
  }

  /** `scan[-WINDOW:]` */
  function Probe(scan: string): string {
    Suffix(scan, Min(WINDOW, |scan|))
  }

  /** Three occurrences at least, the last three evenly spaced. */
  predicate EvenTail(ps: seq<nat>) {
    && |ps| >= MIN_COUNT
    && ps[|ps| - 1] as int - ps[|ps| - 2] == ps[|ps| - 2] as int - ps[|ps| - 3]
  }

  function Cutoff(text: string, scanLimit: Option<nat>): Option<nat> {
    if |text| < WINDOW * MIN_COUNT then None
    else
      var scan := Scan(text, scanLimit);
      var ps := Occurrences(Probe(scan), scan, 0);
      if EvenTail(ps) then Some(ps[0]) else None
  }

  /** The search loop: `find` again from one past the last hit. */
  method AllOccurrences(probe: string, scan: string) returns (positions: seq<nat>)
    ensures positions == Occurrences(probe, scan, 0)
  {
    positions := [];
    var start: nat := 0;
    while true
      invariant Occurrences(probe, scan, 0) == positions + Occurrences(probe, scan, start)
      invariant start <= |scan| + 1
      decreases |scan| + 1 - start
    {
      var idx := Find(probe, scan, start);
      if idx.None? {
        OccurrencesNone(probe, scan, start);
        break;
      }
      OccurrencesHead(probe, scan, start, idx.value);
      positions := positions + [idx.value];
      start := idx.value + 1;
    }
  }

  method RepetitionCutoff(text: string, scanLimit: Option<nat>) returns (r: Option<nat>)
    ensures r == Cutoff(text, scanLimit)
  {
    if |text| < WINDOW * MIN_COUNT {
      return None;
    }
    var scan := Scan(text, scanLimit);
    var positions := AllOccurrences(Probe(scan), scan);
    if |positions| < MIN_COUNT {
      return None;
    }
    var spacings := seq(|positions| - 1, i requires 0 <= i < |positions| - 1 => positions[i + 1] as int - positions[i]);
    if |spacings| >= 2 && spacings[|spacings| - 1] == spacings[|spacings| - 2] {
      return Some(positions[0]);
    }
    return None;
  }

  // ---- what a flagged text looks like -------------------------------------

  /** The last WINDOW + 2p characters repeat with period `p`, at most WINDOW. */
  ghost predicate PeriodicTail(text: string, p: nat) {
    && 0 < p <= WINDOW
    && WINDOW + 2 * p <= |text|
    && HasPeriod(Suffix(text, WINDOW + 2 * p), p)
  }

  /** Limits under which the scan keeps three windows; both callers stay inside. */
  predicate WideEnough(scanLimit: Option<nat>) {
    scanLimit.None? || scanLimit.value >= WINDOW * MIN_COUNT
  }

  /** Distance between the last two probe occurrences. */
  ghost function LastSpacing(text: string, scanLimit: Option<nat>): nat
    requires Cutoff(text, scanLimit).Some?
  {
    var scan := Scan(text, scanLimit);
    var ps := Occurrences(Probe(scan), scan, 0);
    OccurrencesAscend(Probe(scan), scan, |ps| - 2, |ps| - 1);
    ps[|ps| - 1] as int - ps[|ps| - 2]
  }

  lemma SuffixOfSuffix(s: string, n: nat, m: nat)
    requires m <= n <= |s|
    ensures Suffix(Suffix(s, n), m) == Suffix(s, m)
  {
  }

  lemma PeriodicTailOfScan(text: string, scanLimit: Option<nat>, p: nat)
    requires |text| >= WINDOW * MIN_COUNT && WideEnough(scanLimit)
    ensures PeriodicTail(text, p) <==> PeriodicTail(Scan(text, scanLimit), p)
  {
    var scan := Scan(text, scanLimit);
    assert |scan| >= WINDOW * MIN_COUNT;
    if 0 < p <= WINDOW {
      if scan != text {
        SuffixOfSuffix(text, |scan|, WINDOW + 2 * p);
      }
    }
  }

  /** Two occurrences of the probe `d` apart make the stretch they span `d`-periodic. */
  lemma OccurrencesGivePeriod(probe: string, s: string, e: int, d: int)
    requires 0 < d && OccursAt(probe, s, e) && OccursAt(probe, s, e - d)
    ensures forall i, j | e - d <= i < j < e + |probe| && i < e - d + |probe| && j - i == d :: s[i] == s[j]
  {
    forall i, j | e - d <= i < j < e + |probe| && i < e - d + |probe| && j - i == d ensures s[i] == s[j] {
      var k := i - (e - d);
      assert probe[k] == s[e + k] && probe[k] == s[e - d + k];
    }
  }

  /** Inside a `p`-periodic suffix an occurrence moves by `p` in both directions. */
  lemma PeriodMovesOccurrence(probe: string, s: string, p: nat, n: nat, e: int)
    requires p > 0 && n <= |s| && HasPeriod(Suffix(s, n), p)
    requires |s| - n <= e - p && e + |probe| <= |s|
    ensures OccursAt(probe, s, e) <==> OccursAt(probe, s, e - p)
  {
    var t := Suffix(s, n);
    var o := |s| - n;
    forall i, j | e - p <= i < j < e + |probe| && j - i == p ensures s[i] == s[j] {
      assert t[i - o] == s[i] && t[j - o] == s[j];
    }
  }

  /** The occurrence list of the probe ends at |s| - WINDOW. */
  lemma LastOccurrence(s: string)
    requires |s| >= WINDOW
    ensures OccursAt(Probe(s), s, |s| - WINDOW)
    ensures var ps := Occurrences(Probe(s), s, 0);
      |ps| > 0 && ps[|ps| - 1] == |s| - WINDOW
  {
    var ps := Occurrences(Probe(s), s, 0);
    var k := OccurrenceIndex(Probe(s), s, |s| - WINDOW);
    OccurrencesAscend(Probe(s), s, k, |ps| - 1);
    OccurrenceEntry(Probe(s), s, |ps| - 1);
  }

  /** The distance from an occurrence to the nearest one on its left. */
  lemma NearestDistance(probe: string, s: string, e: nat, p: nat) returns (d: nat)
    requires 0 < p <= e && OccursAt(probe, s, e - p)
    ensures 0 < d <= p && OccursAt(probe, s, e - d)
    ensures forall i | e - d < i < e :: !OccursAt(probe, s, i)
  {
    d := 1;
    while !OccursAt(probe, s, e - d)
      invariant 0 < d <= p
      invariant forall i | e - d < i < e :: !OccursAt(probe, s, i)
      decreases p - d
    {
      d := d + 1;
    }
  }

  /** That distance is a period of the whole periodic tail. */
  lemma NearestSpreads(probe: string, s: string, p: nat, d: nat)
    requires 0 < d <= p <= |probe| && |probe| + 2 * p <= |s|
    requires HasPeriod(Suffix(s, |probe| + 2 * p), p)
    requires OccursAt(probe, s, |s| - |probe|) && OccursAt(probe, s, |s| - |probe| - d)
    ensures HasPeriod(Suffix(s, |probe| + d), d)
    ensures HasPeriod(Suffix(s, |probe| + 2 * p), d)
  {
    TailBetweenOccurrences(probe, s, d);
    SuffixOfSuffix(s, |probe| + 2 * p, |probe| + d);
    PeriodSpreads(Suffix(s, |probe| + 2 * p), p, d, |probe| + d);
  }

  lemma TailBetweenOccurrences(probe: string, s: string, d: nat)
    requires 0 < d <= |probe| && |probe| + d <= |s|
    requires OccursAt(probe, s, |s| - |probe|) && OccursAt(probe, s, |s| - |probe| - d)
    ensures HasPeriod(Suffix(s, |probe| + d), d)
  {
    var e := |s| - |probe|;
    OccurrencesGivePeriod(probe, s, e, d);
    var t := Suffix(s, |probe| + d);
    forall i, j | 0 <= i < j < |t| && j - i == d ensures t[i] == t[j] {
      assert t[i] == s[e - d + i] && t[j] == s[e - d + j];
    }
  }

  /** The occurrences before the last two repeat the same distance. */
  lemma SecondDistance(probe: string, s: string, n: nat, e: nat, d: nat)
    requires 0 < d && n <= |s| && HasPeriod(Suffix(s, n), d)
    requires |s| - n <= e - 2 * d && e + |probe| <= |s|
    requires OccursAt(probe, s, e - d)
    requires forall i | e - d < i < e :: !OccursAt(probe, s, i)
    ensures OccursAt(probe, s, e - 2 * d)
    ensures forall i | e - 2 * d < i < e - d :: !OccursAt(probe, s, i)
  {
    PeriodMovesOccurrence(probe, s, d, n, e - d);
    forall i | e - 2 * d < i < e - d ensures !OccursAt(probe, s, i) {
      PeriodMovesOccurrence(probe, s, d, n, i + d);
    }
  }

  lemma EvenTailFrom(probe: string, s: string, e: nat, d: nat)
    requires 0 < d && 2 * d <= e
    requires var ps := Occurrences(probe, s, 0); |ps| > 0 && ps[|ps| - 1] == e
    requires OccursAt(probe, s, e - d) && OccursAt(probe, s, e - 2 * d)
    requires forall i | e - d < i < e :: !OccursAt(probe, s, i)
    requires forall i | e - 2 * d < i < e - d :: !OccursAt(probe, s, i)
    ensures var ps := Occurrences(probe, s, 0);
      EvenTail(ps) && ps[|ps| - 1] - d == ps[|ps| - 2]
  {
    var ps := Occurrences(probe, s, 0);
    Predecessor(probe, s, |ps| - 1, e - d);
    Predecessor(probe, s, |ps| - 2, e - 2 * d);
  }

  /** The first probe occurrence is no later than the third copy from the end. */
  lemma FirstOccurrence(s: string, p: nat)
    requires PeriodicTail(s, p)
    ensures var ps := Occurrences(Probe(s), s, 0);
      |ps| > 0 && ps[0] <= |s| - WINDOW - 2 * p
  {
    var probe := Probe(s);
    var e := |s| - WINDOW;
    PeriodMovesOccurrence(probe, s, p, WINDOW + 2 * p, e);
    PeriodMovesOccurrence(probe, s, p, WINDOW + 2 * p, e - p);
    var m := OccurrenceIndex(probe, s, e - 2 * p);
    OccurrencesAscend(probe, s, 0, m);
  }

  /** The last occurrence has a nearest neighbour, at most `p` away. */
  lemma OneDistance(probe: string, s: string, e: nat, p: nat) returns (d: nat)
    requires e + |probe| == |s| && OccursAt(probe, s, e)
    requires 0 < p <= |probe| && 2 * p <= e
    requires HasPeriod(Suffix(s, |probe| + 2 * p), p)
    ensures 0 < d <= p && OccursAt(probe, s, e - d)
    ensures forall i | e - d < i < e :: !OccursAt(probe, s, i)
  {
    PeriodMovesOccurrence(probe, s, p, |probe| + 2 * p, e);
    d := NearestDistance(probe, s, e, p);
  }

  /** The last occurrence has two neighbours at the same distance, at most `p`. */
  lemma TwoDistances(probe: string, s: string, e: nat, p: nat) returns (d: nat)
    requires e + |probe| == |s| && OccursAt(probe, s, e)
    requires 0 < p <= |probe| && 2 * p <= e
    requires HasPeriod(Suffix(s, |probe| + 2 * p), p)
    ensures 0 < d <= p && HasPeriod(Suffix(s, |probe| + d), d)
    ensures OccursAt(probe, s, e - d) && OccursAt(probe, s, e - 2 * d)
    ensures forall i | e - d < i < e :: !OccursAt(probe, s, i)
    ensures forall i | e - 2 * d < i < e - d :: !OccursAt(probe, s, i)
  {
    d := OneDistance(probe, s, e, p);
    NearestSpreads(probe, s, p, d);
    SecondDistance(probe, s, |probe| + 2 * p, e, d);
  }

  /** A periodic tail puts the last three occurrences at even distances of at most `p`. */
  lemma PeriodicTailDetected(s: string, p: nat) returns (d: nat)
    requires PeriodicTail(s, p)
    ensures 0 < d <= p
    ensures var ps := Occurrences(Probe(s), s, 0);
      EvenTail(ps) && ps[|ps| - 1] - d == ps[|ps| - 2]
    ensures forall i | |s| - WINDOW - d < i < |s| - WINDOW :: !OccursAt(Probe(s), s, i)
    ensures HasPeriod(Suffix(s, WINDOW + d), d)
  {
    LastOccurrence(s);
    d := TwoDistances(Probe(s), s, |s| - WINDOW, p);
    EvenTailFrom(Probe(s), s, |s| - WINDOW, d);
  }

  // ---- the exactness of detection ------------------------------------------

  /**
   A text is flagged with a spacing of at most WINDOW exactly when its last
   WINDOW + 2p characters have some period p of at most WINDOW.
   */
  lemma DetectionExact(text: string, scanLimit: Option<nat>)
    requires |text| >= WINDOW * MIN_COUNT && WideEnough(scanLimit)
    ensures (Cutoff(text, scanLimit).Some? && LastSpacing(text, scanLimit) <= WINDOW)
            <==> exists p: nat :: PeriodicTail(text, p)
  {
    if p: nat :| PeriodicTail(text, p) {
      DetectionComplete(text, scanLimit, p);
    }
    if Cutoff(text, scanLimit).Some? && LastSpacing(text, scanLimit) <= WINDOW {
      DetectionSound(text, scanLimit);
    }
  }

  /** Every short loop is flagged, and at least its last three copies are cut. */
  lemma DetectionComplete(text: string, scanLimit: Option<nat>, p: nat)
    requires |text| >= WINDOW * MIN_COUNT && WideEnough(scanLimit)
    requires PeriodicTail(text, p)
    ensures Cutoff(text, scanLimit).Some?
    ensures LastSpacing(text, scanLimit) <= p
    ensures Cutoff(text, scanLimit).value <= |Scan(text, scanLimit)| - WINDOW - 2 * p
  {
    PeriodicTailOfScan(text, scanLimit, p);
    var d := PeriodicTailDetected(Scan(text, scanLimit), p);
    FirstOccurrence(Scan(text, scanLimit), p);
  }

  /** An evenly spaced tail with spacing at most WINDOW really is periodic. */
  lemma DetectionSound(text: string, scanLimit: Option<nat>)
    requires WideEnough(scanLimit)
    requires Cutoff(text, scanLimit).Some? && LastSpacing(text, scanLimit) <= WINDOW
    ensures PeriodicTail(text, LastSpacing(text, scanLimit))
  {
    var scan := Scan(text, scanLimit);
    LastOccurrence(scan);
    SoundOnScan(scan, Probe(scan), Occurrences(Probe(scan), scan, 0), LastSpacing(text, scanLimit));
    PeriodicTailOfScan(text, scanLimit, LastSpacing(text, scanLimit));
  }

  lemma SoundOnScan(s: string, probe: string, ps: seq<nat>, d: nat)
    requires |s| >= WINDOW && probe == Probe(s) && ps == Occurrences(probe, s, 0) && EvenTail(ps)
    requires ps[|ps| - 1] == |s| - WINDOW && d == ps[|ps| - 1] as int - ps[|ps| - 2]
    requires d <= WINDOW
    ensures PeriodicTail(s, d)
  {
    LastThree(probe, s, ps);
    EvenTriple(probe, s, ps[|ps| - 3], ps[|ps| - 2], ps[|ps| - 1]);
  }

  /** The last three entries are occurrences, the last two apart. */
  lemma LastThree(probe: string, s: string, ps: seq<nat>)
    requires ps == Occurrences(probe, s, 0) && |ps| >= 3
    ensures OccursAt(probe, s, ps[|ps| - 3]) && OccursAt(probe, s, ps[|ps| - 2]) && OccursAt(probe, s, ps[|ps| - 1])
    ensures ps[|ps| - 2] < ps[|ps| - 1]
  {
    OccurrencesAscend(probe, s, |ps| - 2, |ps| - 1);
    OccurrenceEntry(probe, s, |ps| - 3);
    OccurrenceEntry(probe, s, |ps| - 2);
    OccurrenceEntry(probe, s, |ps| - 1);
  }

  lemma EvenTriple(probe: string, s: string, a: int, b: int, c: int)
    requires |probe| == WINDOW && c == |s| - WINDOW
    requires a < b < c && c - b == b - a <= WINDOW
    requires OccursAt(probe, s, a) && OccursAt(probe, s, b) && OccursAt(probe, s, c)
    ensures PeriodicTail(s, c - b)
  {
    EvenOccurrencesArePeriodic(probe, s, c - b);
  }

  lemma EvenOccurrencesArePeriodic(probe: string, s: string, d: nat)
    requires 0 < d <= |probe| && |probe| + 2 * d <= |s|
    requires OccursAt(probe, s, |s| - |probe|)
    requires OccursAt(probe, s, |s| - |probe| - d)
    requires OccursAt(probe, s, |s| - |probe| - 2 * d)
    ensures HasPeriod(Suffix(s, |probe| + 2 * d), d)
  {
    var e := |s| - |probe|;
    OccurrencesGivePeriod(probe, s, e, d);
    OccurrencesGivePeriod(probe, s, e - d, d);
    var t := Suffix(s, |probe| + 2 * d);
    forall i, j | 0 <= i < j < |t| && j - i == d ensures t[i] == t[j] {
      assert t[i] == s[e - 2 * d + i] && t[j] == s[e - 2 * d + j];
    }
  }

  /** The reported spacing is the primitive one: it divides every period of the tail. */
  lemma SpacingDividesEveryPeriod(text: string, scanLimit: Option<nat>, p: nat)
    requires |text| >= WINDOW * MIN_COUNT && WideEnough(scanLimit)
    requires PeriodicTail(text, p)
    ensures Cutoff(text, scanLimit).Some?
    ensures Divides(LastSpacing(text, scanLimit), p)
  {
    PeriodicTailOfScan(text, scanLimit, p);
    DividesOnScan(Scan(text, scanLimit), p);
  }

  lemma DividesOnScan(s: string, p: nat)
    requires PeriodicTail(s, p)
    ensures var ps := Occurrences(Probe(s), s, 0);
      EvenTail(ps) && Divides(ps[|ps| - 1] as int - ps[|ps| - 2], p)
  {
    var d := PeriodicTailDetected(s, p);
    SuffixPeriod(Suffix(s, WINDOW + 2 * p), p, WINDOW + d);
    SuffixOfSuffix(s, WINDOW + 2 * p, WINDOW + d);
    NearestIsGcd(Probe(s), s, p, d);
    GcdDivides(p, d);
  }

  lemma NearestIsGcd(probe: string, s: string, p: nat, d: nat)
    requires 0 < d && 0 < p <= |probe| && |probe| + d <= |s|
    requires HasPeriod(Suffix(s, |probe| + d), d) && HasPeriod(Suffix(s, |probe| + d), p)
    requires OccursAt(probe, s, |s| - |probe|)
    requires forall i | |s| - |probe| - d < i < |s| - |probe| :: !OccursAt(probe, s, i)
    ensures d == Gcd(p, d)
  {
    FineWilf(Suffix(s, |probe| + d), p, d);
    PeriodMovesOccurrence(probe, s, Gcd(p, d), |probe| + d, |s| - |probe|);
  }

  // ---- what a flag of any spacing means -----------------------------------------------------

  /** The probe stands `d` and `2d` characters before the end of the text as well, and nowhere in between. */
  ghost predicate EvenCopies(s: string, d: nat)
    requires |s| >= WINDOW
  {
    var e := |s| - WINDOW;
    && 0 < d && 2 * d <= e
    && OccursAt(Probe(s), s, e - d) && OccursAt(Probe(s), s, e - 2 * d)
    && forall i | e - 2 * d < i < e && i != e - d :: !OccursAt(Probe(s), s, i)
  }

  /** Between two neighbours of the list there is no occurrence. */
  lemma NoneBetween(p: string, s: string, k: nat, i: nat)
    requires k + 1 < |Occurrences(p, s, 0)|
    requires Occurrences(p, s, 0)[k] < i < Occurrences(p, s, 0)[k + 1]
    ensures !OccursAt(p, s, i)
  {
    if OccursAt(p, s, i) {
      var m := OccurrenceIndex(p, s, i);
      if m <= k {
        OccurrencesAscend(p, s, m, k);
      } else {
        OccurrencesAscend(p, s, k + 1, m);
      }
    }
  }

  /** The last three entries are occurrences, and the only ones from the first of them on. */
  lemma LastThreeOnly(p: string, s: string, ps: seq<nat>, a: nat, b: nat, c: nat)
    requires ps == Occurrences(p, s, 0) && |ps| >= 3
    requires a == ps[|ps| - 3] && b == ps[|ps| - 2] && c == ps[|ps| - 1]
    ensures OccursAt(p, s, a) && OccursAt(p, s, b) && a < b < c
    ensures forall i | a < i < c && i != b :: !OccursAt(p, s, i)
  {
    LastThree(p, s, ps);
    OccurrencesAscend(p, s, |ps| - 3, |ps| - 2);
    forall i: nat | a < i < c && i != b ensures !OccursAt(p, s, i) {
      NoneBetween(p, s, if i < b then |ps| - 3 else |ps| - 2, i);
    }
  }

  lemma ThreeAreEven(s: string, a: nat, b: nat, c: nat, d: nat)
    requires |s| >= WINDOW && c == |s| - WINDOW && a < b < c && d == c - b == b - a
    requires OccursAt(Probe(s), s, a) && OccursAt(Probe(s), s, b)
    requires forall i | a < i < c && i != b :: !OccursAt(Probe(s), s, i)
    ensures EvenCopies(s, d)
  {
  }

  lemma EvenTailCopies(s: string, probe: string, ps: seq<nat>, d: nat)
    requires |s| >= WINDOW && probe == Probe(s) && ps == Occurrences(probe, s, 0) && EvenTail(ps)
    requires ps[|ps| - 1] == |s| - WINDOW && d == ps[|ps| - 1] as int - ps[|ps| - 2]
    ensures EvenCopies(s, d)
  {
    var a, b, c := ps[|ps| - 3], ps[|ps| - 2], ps[|ps| - 1];
    LastThreeOnly(probe, s, ps, a, b, c);
    ThreeAreEven(s, a, b, c, d);
  }

  lemma EvenCopiesTail(s: string, d: nat)
    requires |s| >= WINDOW && EvenCopies(s, d)
    ensures var ps := Occurrences(Probe(s), s, 0); EvenTail(ps) && ps[|ps| - 1] - d == ps[|ps| - 2]
  {
    LastOccurrence(s);
    EvenTailFrom(Probe(s), s, |s| - WINDOW, d);
  }

  /**
   A text is flagged exactly when the last three copies of its last WINDOW characters
   are evenly spaced, whatever stands between them; their distance is the spacing.
   */
  lemma FlaggedIff(text: string, scanLimit: Option<nat>)
    requires |text| >= WINDOW * MIN_COUNT && WideEnough(scanLimit)
    ensures Cutoff(text, scanLimit).Some? <==> exists d: nat :: EvenCopies(Scan(text, scanLimit), d)
    ensures forall d: nat | EvenCopies(Scan(text, scanLimit), d) ::
      Cutoff(text, scanLimit).Some? && LastSpacing(text, scanLimit) == d
  {
    var scan := Scan(text, scanLimit);
    if Cutoff(text, scanLimit).Some? {
      LastOccurrence(scan);
      EvenTailCopies(scan, Probe(scan), Occurrences(Probe(scan), scan, 0), LastSpacing(text, scanLimit));
    }
    forall d: nat | EvenCopies(scan, d) ensures Cutoff(text, scanLimit).Some? && LastSpacing(text, scanLimit) == d {
      EvenCopiesTail(scan, d);
    }
  }

  /** The cut is made at the first copy of all. */
  lemma CutAtFirstCopy(text: string, scanLimit: Option<nat>)
    requires Cutoff(text, scanLimit).Some?
    ensures var scan, k := Scan(text, scanLimit), Cutoff(text, scanLimit).value;
      OccursAt(Probe(scan), scan, k) && forall i | 0 <= i < k :: !OccursAt(Probe(scan), scan, i)
  {
    var scan := Scan(text, scanLimit);
    OccurrenceEntry(Probe(scan), scan, 0);
    forall i: nat | i < Cutoff(text, scanLimit).value ensures !OccursAt(Probe(scan), scan, i) {
      if OccursAt(Probe(scan), scan, i) {
        var m := OccurrenceIndex(Probe(scan), scan, i);
        OccurrencesAscend(Probe(scan), scan, 0, m);
      }
    }
  }

  /** Three copies of `w` around two texts of one length. */
  function Sparse(w: string, u: string, v: string): string {
    w + u + w + v + w
  }

  lemma SparseAt(w: string, u: string, v: string, i: nat)
    requires |w| == WINDOW && |u| == |v| && i < |Sparse(w, u, v)|
    ensures var n := |u|;
      Sparse(w, u, v)[i] == if i < WINDOW then w[i]
                            else if i < WINDOW + n then u[i - WINDOW]
                            else if i < 2 * WINDOW + n then w[i - WINDOW - n]
                            else if i < 2 * WINDOW + 2 * n then v[i - 2 * WINDOW - n]
                            else w[i - 2 * WINDOW - 2 * n]
  {
  }

  lemma SparseCopy(w: string, u: string, v: string, i: nat)
    requires |w| == WINDOW && |u| == |v|
    requires i == 0 || i == WINDOW + |u| || i == 2 * (WINDOW + |u|)
    ensures OccursAt(w, Sparse(w, u, v), i)
  {
    var s := Sparse(w, u, v);
    forall k | 0 <= k < |w| ensures w[k] == s[i + k] {
      SparseAt(w, u, v, i + k);
    }
  }

  lemma SparseFiller(w: string, u: string, v: string, k: nat)
    requires |w| == WINDOW && |u| == |v|
    requires WINDOW <= k < WINDOW + |u| || 2 * WINDOW + |u| <= k < 2 * WINDOW + 2 * |u|
    ensures k < |Sparse(w, u, v)| && (Sparse(w, u, v)[k] in u || Sparse(w, u, v)[k] in v)
  {
    SparseAt(w, u, v, k);
  }

  lemma CoverDiffers(p: string, s: string, i: nat, k: nat)
    requires i <= k < i + |p| && k < |s| && s[k] !in p
    ensures !OccursAt(p, s, i)
  {
    var c := p[k - i];
    assert c in p;
  }

  /** Every other place covers a character of `u` or `v`. */
  lemma SparseOnly(w: string, u: string, v: string, i: nat)
    requires |w| == WINDOW && |u| == |v| > 0
    requires forall c | c in w :: c !in u && c !in v
    requires i < 2 * (WINDOW + |u|) && i != 0 && i != WINDOW + |u|
    ensures !OccursAt(w, Sparse(w, u, v), i)
  {
    var n := |u|;
    var k := if i < WINDOW then WINDOW else if i < WINDOW + n then i
             else if i < 2 * WINDOW + n then 2 * WINDOW + n else i;
    SparseFiller(w, u, v, k);
    CoverDiffers(w, Sparse(w, u, v), i, k);
  }

  lemma SuffixBehind(a: string, b: string)
    ensures |b| <= |a + b| && Suffix(a + b, |b|) == b
  {
    DropConcat(a, b);
  }

  lemma SparseProbe(w: string, u: string, v: string)
    requires |w| == WINDOW
    ensures Probe(Sparse(w, u, v)) == w
  {
    var front := w + u + w + v;
    assert Sparse(w, u, v) == front + w;
    SuffixBehind(front, w);
  }

  /**
   Three copies of 200 characters with texts of one length between them, however
   different, are cut away as a loop, although the text has no short period at its end.
   */
  lemma SparseCopiesCut(w: string, u: string, v: string, scanLimit: Option<nat>)
    requires |w| == WINDOW && |u| == |v| > 0
    requires forall c | c in w :: c !in u && c !in v
    requires WideEnough(scanLimit) && (scanLimit.Some? ==> |Sparse(w, u, v)| <= scanLimit.value)
    ensures Cutoff(Sparse(w, u, v), scanLimit) == Some(0)
    ensures forall p: nat :: !PeriodicTail(Sparse(w, u, v), p)
  {
    var s, d := Sparse(w, u, v), WINDOW + |u|;
    SparseProbe(w, u, v);
    SparseCopy(w, u, v, 0);
    SparseCopy(w, u, v, d);
    forall i: nat | i < 2 * d && i != d && i != 0 ensures !OccursAt(w, s, i) {
      SparseOnly(w, u, v, i);
    }
    assert EvenCopies(s, d);
    FlaggedIff(s, scanLimit);
    CutAtFirstCopy(s, scanLimit);
    forall p: nat ensures !PeriodicTail(s, p) {
      if PeriodicTail(s, p) {
        DetectionComplete(s, scanLimit, p);
      }
    }
  }

  /** The safety net over a finished response; it scans the whole text. */
  function StripRepetitionLoop(text: string): string {
    var cutoff := Cutoff(text, None);
    if cutoff.Some? then
      OccurrenceEntry(Probe(text), text, 0);
      TrimRight(text[..cutoff.value])
    else text
  }

  /** A response that ends in a short loop loses at least the looped tail. */
  lemma StripRemovesLoop(text: string, p: nat)
    requires |text| >= WINDOW * MIN_COUNT && PeriodicTail(text, p)
    ensures StripRepetitionLoop(text) <= text
    ensures |StripRepetitionLoop(text)| <= |text| - WINDOW - 2 * p
  {
    DetectionComplete(text, None, p);
    TrimRightPrefix(text[..Cutoff(text, None).value]);
  }

  /** An answer that is too short, or whose last 200 characters have no even copies, stays as it is. */
  lemma StripKeeps(text: string)
    requires |text| < 600 || forall d: nat :: !EvenCopies(text, d)
    ensures StripRepetitionLoop(text) == text
  {
    if |text| >= 600 {
      FlaggedIff(text, None);
    }
  }

  /** Any other answer keeps exactly what stands before the first copy, without the white space there. */
  lemma StripCuts(text: string, d: nat, k: nat)
    requires |text| >= 600 && EvenCopies(text, d)
    requires var probe := text[|text| - 200..];
      OccursAt(probe, text, k) && forall i | 0 <= i < k :: !OccursAt(probe, text, i)
    ensures StripRepetitionLoop(text) == TrimRight(text[..k])
  {
    FlaggedIff(text, None);
    CutAtFirstCopy(text, None);
  }
}
