/** The models on one card, and what eviction leaves of them. */
module VramCard {
  import opened VramPlan
  import opened VramArbiter

  datatype Card = Card(totalMb: nat, headroomMb: nat)

  /** A request to load a model while other programs hold `otherMb`. */
  datatype Request = Request(model: string, neededMb: nat, otherMb: nat)

  /** The residents a plan keeps, in order. */
  function Kept(rs: seq<Resident>, plan: seq<string>): (kept: seq<Resident>)
    ensures |kept| <= |rs|
  {
    if rs == [] then [] else if rs[0].name in plan then Kept(rs[1..], plan) else [rs[0]] + Kept(rs[1..], plan)
  }

  function DemandOf(c: Card, e: Request): Demand {
    Demand(e.neededMb, c.headroomMb, c.totalMb)
  }

  /** The models that a full unload reaches: all but Whisper. */
  function ServerModels(rs: seq<Resident>): (names: seq<string>)
    ensures forall n :: n in names <==> n != WHISPER && n in Names(rs)
  {
    if rs == [] then []
    else if rs[0].name == WHISPER then ServerModels(rs[1..])
    else [rs[0].name] + ServerModels(rs[1..])
  }

  /** What is left on the card when the gate has acted for `e`. */
  function AfterEviction(c: Card, rs: seq<Resident>, e: Request): seq<Resident> {
    var plan := Plan(rs, DemandOf(c, e), {e.model});
    if plan != [] then Kept(rs, plan)
    else if HasRoom(c, rs, e) then rs
    else Kept(rs, ServerModels(rs))
  }

  predicate HasRoom(c: Card, rs: seq<Resident>, e: Request) {
    Sum(rs) + e.otherMb + e.neededMb <= c.totalMb
  }

  /** Alone, or together within the card with the headroom free. */
  ghost predicate Shares(c: Card, rs: seq<Resident>) {
    && (|rs| <= 1 || Sum(rs) + c.headroomMb <= c.totalMb)
    && DistinctNames(rs)
  }

  lemma {:induction false} KeptSums(rs: seq<Resident>, plan: seq<string>)
    ensures Sum(Kept(rs, plan)) == KeptSum(rs, plan) <= Sum(rs)
    ensures forall i | 0 <= i < |Kept(rs, plan)| :: Kept(rs, plan)[i] in rs && Kept(rs, plan)[i].name !in plan
  {
    if rs != [] {
      KeptSums(rs[1..], plan);
    }
  }

  lemma {:induction false} KeptDistinct(rs: seq<Resident>, plan: seq<string>)
    requires DistinctNames(rs)
    ensures DistinctNames(Kept(rs, plan))
  {
    if rs != [] {
      KeptDistinct(rs[1..], plan);
      KeptSums(rs[1..], plan);
      var kept := Kept(rs[1..], plan);
      forall j | 0 <= j < |kept| ensures kept[j].name != rs[0].name {
        var i :| 0 <= i < |rs[1..]| && rs[1..][i] == kept[j];
        assert rs[i + 1] == kept[j];
      }
    }
  }

  lemma {:induction false} SumSnoc(rs: seq<Resident>, r: Resident)
    ensures Sum(rs + [r]) == Sum(rs) + r.mb
  {
    if rs != [] {
      SumSnoc(rs[1..], r);
      assert (rs + [r])[1..] == rs[1..] + [r];
    }
  }

  lemma {:induction false} AllEvicted(rs: seq<Resident>, plan: seq<string>)
    requires EvictsAll(rs, plan)
    ensures Kept(rs, plan) == []
  {
    if rs != [] {
      assert rs[0].name in plan;
      assert forall i | 0 <= i < |rs| - 1 :: rs[1..][i] == rs[i + 1];
      AllEvicted(rs[1..], plan);
    }
  }

  /** What eviction leaves has distinct names, and is nothing or leaves room for the demand. */
  lemma EvictionLeavesRoom(c: Card, rs: seq<Resident>, e: Request)
    requires Shares(c, rs)
    ensures var left := AfterEviction(c, rs, e);
      Shares(c, left) && (left == [] || Sum(left) + e.neededMb + c.headroomMb <= c.totalMb)
  {
    var d := DemandOf(c, e);
    var plan := Plan(rs, d, {e.model});
    PlanMakesRoom(rs, d, {e.model});
    KeptSums(rs, plan);
    KeptDistinct(rs, plan);
    if EvictsAll(rs, plan) {
      AllEvicted(rs, plan);
    }
    if plan == [] {
      NothingPlanned(rs);
      KeptSums(rs, ServerModels(rs));
      KeptDistinct(rs, ServerModels(rs));
    }
  }

  lemma {:induction false} NothingPlanned(rs: seq<Resident>)
    ensures Kept(rs, []) == rs
  {
    if rs != [] {
      NothingPlanned(rs[1..]);
    }
  }

  /**
   Asking again for a resident of a shared card counts it twice: although all fit
   together, another model is unloaded exactly when the demand does not fit a
   second time.
   */
  lemma RepeatedRequestEvicts(c: Card, rs: seq<Resident>, e: Request)
    requires Shares(c, rs) && |rs| > 1 && (exists r :: r in rs && r.name == e.model)
    ensures Sum(rs) + c.headroomMb <= c.totalMb
    ensures (exists n :: n in Plan(rs, DemandOf(c, e), {e.model}) && n != e.model)
            <==> Sum(rs) + e.neededMb + c.headroomMb > c.totalMb
  {
    var d := DemandOf(c, e);
    if Sum(rs) + e.neededMb + c.headroomMb > c.totalMb {
      var n := SomeOtherGoes(rs, d, e.model);
    }
  }

  lemma {:induction false} SideUnprotected(rs: seq<Resident>, protect: set<string>)
    ensures forall r | r in Side(rs, protect, false) :: r.name !in protect
  {
    if rs != [] {
      SideUnprotected(rs[1..], protect);
    }
  }

  /** The first candidate is not protected, and it heads a plan that is not everything. */
  lemma FirstCandidate(rs: seq<Resident>, protect: set<string>, k: nat)
    requires 0 < k <= |LruOrder(Side(rs, protect, false))|
    ensures var candidates := LruOrder(Side(rs, protect, false));
      candidates[0].name !in protect && candidates[0].name in Names(candidates[..k])
  {
    var side := Side(rs, protect, false);
    OrderOldestFirst(side);
    SideUnprotected(rs, protect);
    assert LruOrder(side)[0] in multiset(LruOrder(side));
    assert LruOrder(side)[0] in side;
    assert LruOrder(side)[..k][0] == LruOrder(side)[0];
  }

  /** If not all residents and the demand fit, a plan for a shared card names one that was not asked for. */
  lemma SomeOtherGoes(rs: seq<Resident>, d: Demand, model: string) returns (n: string)
    requires |rs| > 1 && DistinctNames(rs)
    requires !Fits(Sum(rs), d)
    ensures n in Plan(rs, d, {model}) && n != model
  {
    var k := PlanIsMinimalPrefix(rs, d, {model});
    var candidates := LruOrder(Side(rs, {model}, false));
    assert Sum(candidates[..0]) == 0;
    if EvictsAll(rs, Plan(rs, d, {model})) {
      n := if rs[0].name != model then rs[0].name else rs[1].name;
    } else {
      FirstCandidate(rs, {model}, k);
      n := candidates[0].name;
    }
  }

  // ---- what still runs ---------------------------------------------------------------------------

  /** The residents among `names`, without the model that is loaded. */
  function StillRunning(rs: seq<Resident>, names: seq<string>, model: string): (left: seq<Resident>)
    ensures |left| <= |rs|
  {
    if rs == [] then []
    else if rs[0].name in names && rs[0].name != model then [rs[0]] + StillRunning(rs[1..], names, model)
    else StillRunning(rs[1..], names, model)
  }

  lemma {:induction false} StillRunningPart(rs: seq<Resident>, names: seq<string>, model: string)
    ensures forall r | r in StillRunning(rs, names, model) :: r in rs && r.name in names && r.name != model
  {
    if rs != [] {
      StillRunningPart(rs[1..], names, model);
    }
  }

  lemma ConsDistinct(x: Resident, rs: seq<Resident>)
    requires DistinctNames(rs) && forall r | r in rs :: r.name != x.name
    ensures DistinctNames([x] + rs)
  {
    var all := [x] + rs;
    forall i, j | 0 <= i < j < |all| ensures all[i].name != all[j].name {
      assert all[j] == rs[j - 1] && rs[j - 1] in rs;
      assert i > 0 ==> all[i] == rs[i - 1];
    }
  }

  lemma {:induction false} StillRunningDistinct(rs: seq<Resident>, names: seq<string>, model: string)
    requires DistinctNames(rs)
    ensures DistinctNames(StillRunning(rs, names, model))
  {
    if rs != [] {
      StillRunningDistinct(rs[1..], names, model);
      StillRunningPart(rs[1..], names, model);
      var left := StillRunning(rs[1..], names, model);
      forall r | r in left ensures r.name != rs[0].name {
        var i :| 0 <= i < |rs[1..]| && rs[1..][i] == r;
        assert rs[i + 1] == r;
      }
      ConsDistinct(rs[0], left);
    }
  }
}
