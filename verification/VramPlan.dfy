/**
 Which resident models have to go before another one is loaded: the least
 recently used ones, one at a time, and everything only when that is not enough.
 */
module VramPlan {
  datatype Resident = Resident(name: string, mb: nat, lastUsed: int)

  function Sum(rs: seq<Resident>): nat {
    if rs == [] then 0 else rs[0].mb + Sum(rs[1..])
  }

  function Names(rs: seq<Resident>): seq<string> {
    if rs == [] then [] else [rs[0].name] + Names(rs[1..])
  }

  /** The residents whose protection is `isProtected`, in order. */
  function Side(rs: seq<Resident>, protect: set<string>, isProtected: bool): seq<Resident> {
    if rs == [] then []
    else if (rs[0].name in protect) == isProtected then [rs[0]] + Side(rs[1..], protect, isProtected)
    else Side(rs[1..], protect, isProtected)
  }

  /** Stable insertion into a list ordered by last use, oldest first. */
  function InsertOldest(r: Resident, rs: seq<Resident>): seq<Resident> {
    if rs == [] || r.lastUsed <= rs[0].lastUsed then [r] + rs
    else [rs[0]] + InsertOldest(r, rs[1..])
  }

  function LruOrder(rs: seq<Resident>): seq<Resident> {
    if rs == [] then [] else InsertOldest(rs[0], LruOrder(rs[1..]))
  }

  /** A demand: what has to fit into the card besides the residents that stay. */
  datatype Demand = Demand(neededMb: nat, headroomMb: nat, totalMb: nat)

  predicate Fits(usedMb: int, d: Demand) {
    usedMb + d.neededMb + d.headroomMb <= d.totalMb
  }

  /** How many candidates go, in order, until the rest fits. */
  function EvictCount(candidates: seq<Resident>, usedMb: int, d: Demand): (k: nat)
    ensures k <= |candidates|
  {
    if candidates == [] || Fits(usedMb, d) then 0
    else 1 + EvictCount(candidates[1..], usedMb - candidates[0].mb, d)
  }

  /** Appends the names that are not planned yet. */
  function AddMissing(plan: seq<string>, rs: seq<Resident>): seq<string>
    decreases rs
  {
    if rs == [] then plan
    else AddMissing(if rs[0].name in plan then plan else plan + [rs[0].name], rs[1..])
  }

  function Plan(loaded: seq<Resident>, d: Demand, protect: set<string>): seq<string> {
    if Fits(Sum(loaded), d) then []
    else
      var candidates := LruOrder(Side(loaded, protect, false));
      var k := EvictCount(candidates, Sum(loaded), d);
      var plan := Names(candidates[..k]);
      if Fits(Sum(loaded) - Sum(candidates[..k]), d) then plan else AddMissing(plan, loaded)
  }

  method PlanUnloads(loaded: seq<Resident>, d: Demand, protect: set<string>) returns (plan: seq<string>)
    ensures plan == Plan(loaded, d, protect)
  {
    var used := Sum(loaded);
    if Fits(used, d) {
      return [];
    }
    var candidates := LruOrder(Side(loaded, protect, false));
    var freed;
    plan, freed := EvictOldest(candidates, used, d);
    if !Fits(used as int - freed, d) {
      plan := Extend(plan, loaded);
    }
  }

  /** The eviction loop: oldest first, stopping as soon as the rest fits. */
  method EvictOldest(candidates: seq<Resident>, used: int, d: Demand) returns (plan: seq<string>, freed: nat)
    ensures var k := EvictCount(candidates, used, d);
      plan == Names(candidates[..k]) && freed == Sum(candidates[..k])
  {
    plan, freed := [], 0;
    var i := 0;
    while i < |candidates|
      invariant 0 <= i <= |candidates|
      invariant plan == Names(candidates[..i]) && freed == Sum(candidates[..i])
      invariant EvictCount(candidates, used, d) == i + EvictCount(candidates[i..], used - freed, d)
    {
      if Fits(used - freed, d) {
        break;
      }
      Snoc(candidates, i);
      EvictStep(candidates, i, used - freed, d);
      plan := plan + [candidates[i].name];
      freed := freed + candidates[i].mb;
      i := i + 1;
    }
  }

  lemma EvictStep(candidates: seq<Resident>, i: nat, usedMb: int, d: Demand)
    requires i < |candidates| && !Fits(usedMb, d)
    ensures EvictCount(candidates[i..], usedMb, d)
         == 1 + EvictCount(candidates[i + 1..], usedMb - candidates[i].mb, d)
  {
  }

  method Extend(plan0: seq<string>, loaded: seq<Resident>) returns (plan: seq<string>)
    ensures plan == AddMissing(plan0, loaded)
  {
    plan := plan0;
    for i := 0 to |loaded|
      invariant AddMissing(plan0, loaded) == AddMissing(plan, loaded[i..])
    {
      if loaded[i].name !in plan {
        plan := plan + [loaded[i].name];
      }
    }
  }

  lemma {:induction false} Snoc(rs: seq<Resident>, i: nat)
    requires i < |rs|
    ensures Names(rs[..i + 1]) == Names(rs[..i]) + [rs[i].name]
    ensures Sum(rs[..i + 1]) == Sum(rs[..i]) + rs[i].mb
    ensures rs[i..] == [rs[i]] + rs[i + 1..]
  {
    if i > 0 {
      Snoc(rs[1..], i - 1);
      assert rs[..i + 1][1..] == rs[1..][..i] && rs[..i][1..] == rs[1..][..i - 1];
    }
  }

  // ---- what a plan achieves -----------------------------------------------------------

  /** Footprint of the residents a plan keeps. */
  function KeptSum(rs: seq<Resident>, plan: seq<string>): nat {
    if rs == [] then 0 else (if rs[0].name in plan then 0 else rs[0].mb) + KeptSum(rs[1..], plan)
  }

  lemma {:induction false} InsertSums(r: Resident, rs: seq<Resident>, plan: seq<string>)
    ensures Sum(InsertOldest(r, rs)) == r.mb + Sum(rs)
    ensures KeptSum(InsertOldest(r, rs), plan) == (if r.name in plan then 0 else r.mb) + KeptSum(rs, plan)
  {
    if rs != [] && r.lastUsed > rs[0].lastUsed {
      InsertSums(r, rs[1..], plan);
    }
  }

  lemma {:induction false} OrderSums(rs: seq<Resident>, plan: seq<string>)
    ensures Sum(LruOrder(rs)) == Sum(rs) && KeptSum(LruOrder(rs), plan) == KeptSum(rs, plan)
  {
    if rs != [] {
      OrderSums(rs[1..], plan);
      InsertSums(rs[0], LruOrder(rs[1..]), plan);
    }
  }

  lemma {:induction false} SideSums(rs: seq<Resident>, protect: set<string>, plan: seq<string>)
    ensures Sum(rs) == Sum(Side(rs, protect, true)) + Sum(Side(rs, protect, false))
    ensures KeptSum(rs, plan) == KeptSum(Side(rs, protect, true), plan) + KeptSum(Side(rs, protect, false), plan)
  {
    if rs != [] {
      SideSums(rs[1..], protect, plan);
    }
  }

  lemma {:induction false} KeptAtMostSum(rs: seq<Resident>, plan: seq<string>)
    ensures KeptSum(rs, plan) <= Sum(rs)
  {
    if rs != [] {
      KeptAtMostSum(rs[1..], plan);
    }
  }

  /** Planned candidates leave nothing of themselves behind. */
  lemma {:induction false} PrefixGone(rs: seq<Resident>, k: nat, plan: seq<string>)
    requires k <= |rs| && forall n | n in Names(rs[..k]) :: n in plan
    ensures KeptSum(rs, plan) <= Sum(rs) - Sum(rs[..k])
  {
    if k == 0 {
      KeptAtMostSum(rs, plan);
    } else {
      assert rs[..k][1..] == rs[1..][..k - 1] && rs[..k][0] == rs[0];
      assert rs[0].name in Names(rs[..k]);
      PrefixGone(rs[1..], k - 1, plan);
    }
  }

  /** Evicting stops at the first prefix after which the rest fits. */
  lemma {:induction false} EvictMinimal(candidates: seq<Resident>, usedMb: int, d: Demand, j: nat)
    requires j < EvictCount(candidates, usedMb, d)
    ensures !Fits(usedMb - Sum(candidates[..j]), d)
  {
    if j > 0 {
      EvictMinimal(candidates[1..], usedMb - candidates[0].mb, d, j - 1);
      assert candidates[..j][1..] == candidates[1..][..j - 1];
    }
  }

  lemma {:induction false} EvictFits(candidates: seq<Resident>, usedMb: int, d: Demand)
    ensures var k := EvictCount(candidates, usedMb, d);
      k < |candidates| ==> Fits(usedMb - Sum(candidates[..k]), d)
  {
    if candidates != [] && !Fits(usedMb, d) {
      var k := EvictCount(candidates[1..], usedMb - candidates[0].mb, d);
      EvictFits(candidates[1..], usedMb - candidates[0].mb, d);
      assert candidates[..k + 1][1..] == candidates[1..][..k];
    }
  }

  lemma {:induction false} AddMissingAll(plan: seq<string>, rs: seq<Resident>)
    ensures forall n | n in plan :: n in AddMissing(plan, rs)
    ensures forall i | 0 <= i < |rs| :: rs[i].name in AddMissing(plan, rs)
    decreases rs
  {
    if rs != [] {
      var next := if rs[0].name in plan then plan else plan + [rs[0].name];
      AddMissingAll(next, rs[1..]);
      assert rs[0].name in next;
      assert forall i | 1 <= i < |rs| :: rs[i] == rs[1..][i - 1];
    }
  }

  ghost predicate EvictsAll(loaded: seq<Resident>, plan: seq<string>) {
    forall i | 0 <= i < |loaded| :: loaded[i].name in plan
  }

  /** The demand fits next to what a plan keeps, or the plan keeps nothing. */
  lemma PlanMakesRoom(loaded: seq<Resident>, d: Demand, protect: set<string>)
    ensures var plan := Plan(loaded, d, protect);
      EvictsAll(loaded, plan) || Fits(KeptSum(loaded, plan), d)
  {
    var plan := Plan(loaded, d, protect);
    if Fits(Sum(loaded), d) {
      KeptAtMostSum(loaded, plan);
    } else {
      var candidates := LruOrder(Side(loaded, protect, false));
      var k := EvictCount(candidates, Sum(loaded), d);
      if Fits(Sum(loaded) - Sum(candidates[..k]), d) {
        SideSums(loaded, protect, plan);
        OrderSums(Side(loaded, protect, false), plan);
        KeptAtMostSum(Side(loaded, protect, true), plan);
        PrefixGone(candidates, k, plan);
      } else {
        AddMissingAll(Names(candidates[..k]), loaded);
      }
    }
  }

  /**
   An evicted set is a minimal prefix of the unprotected residents in order of
   last use; everything goes, protected ones too, only when the protected ones
   alone leave too little room.
   */
  lemma PlanIsMinimalPrefix(loaded: seq<Resident>, d: Demand, protect: set<string>) returns (k: nat)
    ensures var candidates := LruOrder(Side(loaded, protect, false));
      var plan := Plan(loaded, d, protect);
      && k <= |candidates|
      && (forall j | 0 <= j < k :: !Fits(Sum(loaded) - Sum(candidates[..j]), d))
      && if Fits(Sum(loaded) - Sum(candidates[..k]), d) then plan == Names(candidates[..k])
         else EvictsAll(loaded, plan) && !Fits(Sum(Side(loaded, protect, true)), d)
  {
    var candidates := LruOrder(Side(loaded, protect, false));
    k := EvictCount(candidates, Sum(loaded), d);
    forall j | 0 <= j < k ensures !Fits(Sum(loaded) - Sum(candidates[..j]), d) {
      EvictMinimal(candidates, Sum(loaded), d, j);
    }
    if !Fits(Sum(loaded) - Sum(candidates[..k]), d) {
      EvictFits(candidates, Sum(loaded), d);
      assert candidates[..k] == candidates;
      SideSums(loaded, protect, []);
      OrderSums(Side(loaded, protect, false), []);
      AddMissingAll(Names(candidates[..k]), loaded);
    }
  }

  function UsedAt(rs: seq<Resident>, time: int): seq<Resident> {
    if rs == [] then [] else (if rs[0].lastUsed == time then [rs[0]] else []) + UsedAt(rs[1..], time)
  }

  lemma {:induction false} InsertStable(r: Resident, rs: seq<Resident>, time: int)
    ensures UsedAt(InsertOldest(r, rs), time) == (if r.lastUsed == time then [r] else []) + UsedAt(rs, time)
  {
    if rs != [] && r.lastUsed > rs[0].lastUsed {
      InsertStable(r, rs[1..], time);
    }
  }

  /** Residents last used at the same time keep the order of the listing. */
  lemma {:induction false} OrderStable(rs: seq<Resident>, time: int)
    ensures UsedAt(LruOrder(rs), time) == UsedAt(rs, time)
  {
    if rs != [] {
      OrderStable(rs[1..], time);
      InsertStable(rs[0], LruOrder(rs[1..]), time);
    }
  }

  /** The candidates are in order of last use, and they are the unprotected residents. */
  lemma {:induction false} OrderOldestFirst(rs: seq<Resident>)
    ensures OldestFirst(LruOrder(rs)) && multiset(LruOrder(rs)) == multiset(rs)
  {
    if rs != [] {
      OrderOldestFirst(rs[1..]);
      InsertOrdered(rs[0], LruOrder(rs[1..]));
      InsertSame(rs[0], LruOrder(rs[1..]));
      assert rs == [rs[0]] + rs[1..];
    }
  }

  ghost predicate OldestFirst(rs: seq<Resident>) {
    forall i, j | 0 <= i < j < |rs| :: rs[i].lastUsed <= rs[j].lastUsed
  }

  lemma {:induction false} InsertSame(r: Resident, rs: seq<Resident>)
    ensures multiset(InsertOldest(r, rs)) == multiset(rs) + multiset{r}
  {
    if rs != [] && r.lastUsed > rs[0].lastUsed {
      InsertSame(r, rs[1..]);
      assert rs == [rs[0]] + rs[1..];
    }
  }

  lemma {:induction false} InsertOrdered(r: Resident, rs: seq<Resident>)
    requires OldestFirst(rs)
    ensures OldestFirst(InsertOldest(r, rs))
    ensures var first := InsertOldest(r, rs)[0]; first == r || (rs != [] && first == rs[0])
  {
    if rs != [] && r.lastUsed > rs[0].lastUsed {
      InsertOrdered(r, rs[1..]);
    }
  }

  // ---- a plan names residents only --------------------------------------------------------------

  lemma {:induction false} NamesIn(rs: seq<Resident>)
    ensures forall n :: n in Names(rs) <==> exists r :: r in rs && r.name == n
  {
    if rs != [] {
      NamesIn(rs[1..]);
      assert rs == [rs[0]] + rs[1..];
    }
  }

  lemma {:induction false} SideIn(rs: seq<Resident>, protect: set<string>, isProtected: bool)
    ensures forall r | r in Side(rs, protect, isProtected) :: r in rs
  {
    if rs != [] {
      SideIn(rs[1..], protect, isProtected);
    }
  }

  lemma {:induction false} AddMissingNames(plan: seq<string>, rs: seq<Resident>)
    ensures forall n | n in AddMissing(plan, rs) :: n in plan || n in Names(rs)
    decreases rs
  {
    if rs != [] {
      AddMissingNames(if rs[0].name in plan then plan else plan + [rs[0].name], rs[1..]);
    }
  }

  lemma CandidateNames(loaded: seq<Resident>, protect: set<string>, k: nat)
    requires k <= |LruOrder(Side(loaded, protect, false))|
    ensures forall n | n in Names(LruOrder(Side(loaded, protect, false))[..k]) :: n in Names(loaded)
  {
    var side := Side(loaded, protect, false);
    var candidates := LruOrder(side);
    OrderOldestFirst(side);
    SideIn(loaded, protect, false);
    NamesIn(loaded);
    NamesIn(candidates[..k]);
    forall r | r in candidates[..k] ensures r in loaded {
      assert r in candidates;
      assert r in multiset(candidates);
    }
  }

  lemma PlanNames(loaded: seq<Resident>, d: Demand, protect: set<string>)
    ensures forall n | n in Plan(loaded, d, protect) :: n in Names(loaded)
  {
    if !Fits(Sum(loaded), d) {
      var candidates := LruOrder(Side(loaded, protect, false));
      var k := EvictCount(candidates, Sum(loaded), d);
      CandidateNames(loaded, protect, k);
      AddMissingNames(Names(candidates[..k]), loaded);
    }
  }

  // ---- a full eviction in order -------------------------------------------------------------------

  ghost predicate DistinctNames(rs: seq<Resident>) {
    forall i, j | 0 <= i < j < |rs| :: rs[i].name != rs[j].name
  }

  /** The plan so far has exactly the unprotected ones among these residents. */
  predicate HasUnprotected(plan: seq<string>, rs: seq<Resident>, protect: set<string>) {
    forall i | 0 <= i < |rs| :: rs[i].name in plan <==> rs[i].name !in protect
  }

  lemma StillUnprotected(plan: seq<string>, rs: seq<Resident>, protect: set<string>, rest: seq<Resident>)
    requires rs != [] && rest == rs[1..] && DistinctNames(rs) && HasUnprotected(plan, rs, protect)
    ensures DistinctNames(rest) && HasUnprotected(plan, rest, protect) && HasUnprotected(plan + [rs[0].name], rest, protect)
  {
    assert forall i | 0 <= i < |rest| :: rest[i] == rs[i + 1];
  }

  lemma {:induction false} ProtectedAppended(plan: seq<string>, rs: seq<Resident>, protect: set<string>)
    requires DistinctNames(rs) && HasUnprotected(plan, rs, protect)
    ensures AddMissing(plan, rs) == plan + Names(Side(rs, protect, true))
    decreases rs
  {
    if rs != [] {
      var rest := rs[1..];
      StillUnprotected(plan, rs, protect, rest);
      ProtectedAppended(if rs[0].name in plan then plan else plan + [rs[0].name], rest, protect);
    }
  }

  lemma {:induction false} SideNames(rs: seq<Resident>, protect: set<string>)
    ensures forall n :: n in Names(Side(rs, protect, false)) <==> n in Names(rs) && n !in protect
  {
    if rs != [] {
      SideNames(rs[1..], protect);
    }
  }

  /** When even the protected residents leave too little room, the others go oldest first, and then the protected ones. */
  lemma FullEviction(loaded: seq<Resident>, d: Demand, protect: set<string>)
    requires DistinctNames(loaded) && !Fits(Sum(Side(loaded, protect, true)), d)
    ensures Plan(loaded, d, protect)
         == Names(LruOrder(Side(loaded, protect, false))) + Names(Side(loaded, protect, true))
  {
    FullPlan(loaded, d, protect);
    UnprotectedPlanned(loaded, protect);
    ProtectedAppended(Names(LruOrder(Side(loaded, protect, false))), loaded, protect);
  }

  lemma FullPlan(loaded: seq<Resident>, d: Demand, protect: set<string>)
    requires !Fits(Sum(Side(loaded, protect, true)), d)
    ensures Plan(loaded, d, protect) == AddMissing(Names(LruOrder(Side(loaded, protect, false))), loaded)
  {
    var candidates := LruOrder(Side(loaded, protect, false));
    SideSums(loaded, protect, []);
    OrderSums(Side(loaded, protect, false), []);
    AllGo(candidates, Sum(loaded), d);
    assert candidates[..|candidates|] == candidates;
  }

  lemma UnprotectedPlanned(loaded: seq<Resident>, protect: set<string>)
    ensures HasUnprotected(Names(LruOrder(Side(loaded, protect, false))), loaded, protect)
  {
    var side := Side(loaded, protect, false);
    OrderOldestFirst(side);
    SameNames(LruOrder(side), side);
    SideNames(loaded, protect);
    NamesIn(loaded);
  }

  lemma {:induction false} AllGo(candidates: seq<Resident>, usedMb: int, d: Demand)
    requires !Fits(usedMb - Sum(candidates), d)
    ensures EvictCount(candidates, usedMb, d) == |candidates|
  {
    if candidates != [] {
      AllGo(candidates[1..], usedMb - candidates[0].mb, d);
    }
  }

  lemma SameNames(a: seq<Resident>, b: seq<Resident>)
    requires multiset(a) == multiset(b)
    ensures forall n :: n in Names(a) <==> n in Names(b)
  {
    NamesIn(a);
    NamesIn(b);
    assert forall r :: r in a <==> r in multiset(a);
    assert forall r :: r in b <==> r in multiset(b);
  }
}
