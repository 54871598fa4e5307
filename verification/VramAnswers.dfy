/**
 What a positive answer of the memory gate is worth.  The gate knows the card from
 replies only; a world is a card and a course of events that fit these replies.
 */
module VramAnswers {
  import opened VramPlan
  import opened VramArbiter
  import opened VramCard

  /** A resident of this name and size is among `rs`. */
  ghost predicate Has(rs: seq<Resident>, r: Resident) {
    exists s :: s in rs && s.name == r.name && s.mb == r.mb
  }

  /** A card as the gate finds it: an answered listing shows every model, and Whisper is known without it. */
  ghost predicate World(a: Answer, before: seq<Resident>) {
    && DistinctNames(before)
    && (forall r | r in before :: IsModule(r.name) || (r.name == WHISPER && a.whisperGpu))
    && (a.listing.Listed? ==> forall r | r in before :: Has(a.seen, r))
    && (a.listing.BadStatus? ==> forall r | r in before && r.name == WHISPER :: Has(a.seen, r))
  }

  /** What runs when the gate answers: nothing new, and what an answered last poll shows, besides Whisper. */
  ghost predicate Ends(a: Answer, before: seq<Resident>, final: seq<string>) {
    && (forall n | n in final :: n in Names(before))
    && (!a.early && a.poll.Listed? ==> forall n | n in final :: n in a.poll.names || n == WHISPER)
  }

  /** The names that the replies do not show to be gone. */
  function Allowed(a: Answer): seq<string> {
    if !a.early && a.poll.Listed? then a.poll.names + [WHISPER] else Names(a.seen)
  }

  /** The residents that may still be there besides the wanted model. */
  function MayRemain(a: Answer, model: string): seq<Resident> {
    StillRunning(a.seen, Allowed(a), model)
  }

  /** No model can be on the card that the replies do not show. */
  predicate Covered(a: Answer, model: string) {
    || a.listing.Listed?
    || (!a.early && a.poll.Listed? && (a.listing.NoReply? ==> !a.whisperGpu || model == WHISPER))
  }

  /** The replies rule out that the loaded model shares the card without the headroom. */
  predicate Guaranteed(c: Card, a: Answer, loaded: Resident) {
    && Covered(a, loaded.name)
    && (MayRemain(a, loaded.name) == [] || Fits(Sum(MayRemain(a, loaded.name)), DemandFor(c, loaded)))
  }

  function DemandFor(c: Card, loaded: Resident): Demand {
    Demand(loaded.mb, c.headroomMb, c.totalMb)
  }

  function AfterLoad(before: seq<Resident>, final: seq<string>, loaded: Resident): seq<Resident> {
    StillRunning(before, final, loaded.name) + [loaded]
  }

  // ---- sums of residents ----------------------------------------------------------------------------

  lemma {:induction false} SumWithout(rs: seq<Resident>, i: nat)
    requires i < |rs|
    ensures Sum(rs) == Sum(rs[..i] + rs[i + 1..]) + rs[i].mb
  {
    if i == 0 {
      assert rs[..0] + rs[1..] == rs[1..];
    } else {
      SumWithout(rs[1..], i - 1);
      var less := rs[..i] + rs[i + 1..];
      assert less[1..] == rs[1..][..i - 1] + rs[1..][i..];
      assert less[0] == rs[0];
    }
  }

  lemma HasWithout(rs: seq<Resident>, i: nat, r: Resident)
    requires i < |rs| && Has(rs, r) && r.name != rs[i].name
    ensures Has(rs[..i] + rs[i + 1..], r)
  {
    var s :| s in rs && s.name == r.name && s.mb == r.mb;
    var j :| 0 <= j < |rs| && rs[j] == s;
    var less := rs[..i] + rs[i + 1..];
    assert less[if j < i then j else j - 1] == s;
  }

  /** Residents of distinct names that are all among others weigh no more than those. */
  lemma {:induction false} PartWeighsLess(part: seq<Resident>, rs: seq<Resident>)
    requires DistinctNames(part) && forall r | r in part :: Has(rs, r)
    ensures Sum(part) <= Sum(rs) && (part != [] ==> rs != [])
  {
    if part != [] {
      assert part[0] in part;
      var s :| s in rs && s.name == part[0].name && s.mb == part[0].mb;
      var i :| 0 <= i < |rs| && rs[i] == s;
      forall r | r in part[1..] ensures Has(rs[..i] + rs[i + 1..], r) {
        var j :| 0 <= j < |part[1..]| && part[1..][j] == r;
        assert part[j + 1] == r;
        HasWithout(rs, i, r);
      }
      PartWeighsLess(part[1..], rs[..i] + rs[i + 1..]);
      SumWithout(rs, i);
    }
  }

  lemma {:induction false} StillRunningHas(rs: seq<Resident>, names: seq<string>, model: string, s: Resident)
    requires s in rs && s.name in names && s.name != model
    ensures s in StillRunning(rs, names, model)
  {
    if s != rs[0] {
      StillRunningHas(rs[1..], names, model, s);
    }
  }

  // ---- sharing after an answer ------------------------------------------------------------------------

  /** The card is shared well exactly when nothing else runs, or the rest leaves room with the headroom. */
  lemma SharesIff(c: Card, before: seq<Resident>, final: seq<string>, loaded: Resident)
    requires DistinctNames(before)
    ensures var left := StillRunning(before, final, loaded.name);
      Shares(c, AfterLoad(before, final, loaded)) <==> left == [] || Fits(Sum(left), DemandFor(c, loaded))
  {
    StillRunningPart(before, final, loaded.name);
    StillRunningDistinct(before, final, loaded.name);
    var left := StillRunning(before, final, loaded.name);
    SumSnoc(left, loaded);
    SnocDistinct(left, loaded);
  }

  lemma SnocDistinct(rs: seq<Resident>, x: Resident)
    requires DistinctNames(rs) && forall r | r in rs :: r.name != x.name
    ensures DistinctNames(rs + [x])
  {
    var all := rs + [x];
    forall i, j | 0 <= i < j < |all| ensures all[i].name != all[j].name {
      assert all[i] == rs[i] && rs[i] in rs;
      assert j < |rs| ==> all[j] == rs[j];
    }
  }

  /** Without a listing the gate takes Whisper alone for resident. */
  lemma SeenWithoutListing(a: Answer, d: Demand, r: Resident)
    requires Given(a, d) && !a.listing.Listed? && r in a.seen
    ensures r.name == WHISPER && a.listing.BadStatus? && a.whisperGpu
  {
    NamesIn(a.seen);
    assert r.name in Names(a.seen);
  }

  /** In a world that fits the replies, what runs next to the loaded model is among what may remain. */
  lemma RemainsAllowed(c: Card, a: Answer, loaded: Resident, before: seq<Resident>, final: seq<string>, r: Resident)
    requires Given(a, DemandFor(c, loaded)) && Covered(a, loaded.name) && World(a, before) && Ends(a, before, final)
    requires r in StillRunning(before, final, loaded.name)
    ensures Has(MayRemain(a, loaded.name), r)
  {
    StillRunningPart(before, final, loaded.name);
    NamesIn(a.seen);
    if !a.listing.Listed? {
      OnlyWhisper(c, a, loaded, final, r.name);
    }
    var s :| s in a.seen && s.name == r.name && s.mb == r.mb;
    StillRunningHas(a.seen, Allowed(a), loaded.name, s);
  }

  lemma OnlyWhisper(c: Card, a: Answer, loaded: Resident, final: seq<string>, n: string)
    requires Given(a, DemandFor(c, loaded)) && Covered(a, loaded.name) && !a.listing.Listed?
    requires n in final && (forall m | m in final :: m in a.poll.names || m == WHISPER)
    ensures n == WHISPER
  {
    if n in a.poll.names {
      assert n in Shown(a.poll) && n in Keep(Names(a.seen), a.plan);
      NamesIn(a.seen);
      var r :| r in a.seen && r.name == n;
      SeenWithoutListing(a, DemandFor(c, loaded), r);
    }
  }

  /** A guaranteed answer keeps the card well shared in every world. */
  lemma GateKeepsSharing(c: Card, a: Answer, loaded: Resident, before: seq<Resident>, final: seq<string>)
    requires Given(a, DemandFor(c, loaded)) && Guaranteed(c, a, loaded) && World(a, before) && Ends(a, before, final)
    ensures Shares(c, AfterLoad(before, final, loaded))
  {
    SharesIff(c, before, final, loaded);
    StillRunningDistinct(before, final, loaded.name);
    var left := StillRunning(before, final, loaded.name);
    forall r | r in left ensures Has(MayRemain(a, loaded.name), r) {
      RemainsAllowed(c, a, loaded, before, final, r);
    }
    PartWeighsLess(left, MayRemain(a, loaded.name));
  }

  // ---- answers that guarantee nothing -----------------------------------------------------------------

  lemma OneRuns(x: Resident, model: string)
    requires x.name != model
    ensures StillRunning([x], [x.name], model) == [x] && Names([x]) == [x.name] && Sum([x]) == x.mb
  {
  }

  /** A model of any size that the replies do not show. */
  lemma HiddenModel(c: Card, a: Answer, loaded: Resident, mb: nat) returns (before: seq<Resident>, final: seq<string>)
    requires Given(a, DemandFor(c, loaded)) && !Covered(a, loaded.name)
    ensures World(a, before) && Ends(a, before, final)
    ensures var left := StillRunning(before, final, loaded.name); left != [] && Sum(left) == mb
  {
    var name := if !a.early && a.poll.Listed? then WHISPER
                else if loaded.name == "reasoning" then "multimodal" else "reasoning";
    var x := Resident(name, mb, 0);
    OneRuns(x, loaded.name);
    before, final := [x], [name];
  }

  lemma {:induction false} SameStillRunning(rs: seq<Resident>, names: seq<string>, others: seq<string>, model: string)
    requires forall r | r in rs && r.name != model :: r.name in names <==> r.name in others
    ensures StillRunning(rs, names, model) == StillRunning(rs, others, model)
  {
    if rs != [] {
      assert forall r | r in rs[1..] :: r in rs;
      SameStillRunning(rs[1..], names, others, model);
    }
  }

  /** The residents that may remain can all remain. */
  lemma AllRemain(c: Card, a: Answer, loaded: Resident) returns (final: seq<string>)
    requires Given(a, DemandFor(c, loaded)) && Covered(a, loaded.name) && DistinctNames(a.seen)
    ensures World(a, a.seen) && Ends(a, a.seen, final)
    ensures StillRunning(a.seen, final, loaded.name) == MayRemain(a, loaded.name)
  {
    var rest := MayRemain(a, loaded.name);
    final := Names(rest);
    NamesIn(a.seen);
    NamesIn(rest);
    StillRunningPart(a.seen, Allowed(a), loaded.name);
    forall r | r in a.seen && r.name != loaded.name ensures r.name in final <==> r.name in Allowed(a) {
      if r.name in Allowed(a) {
        StillRunningHas(a.seen, Allowed(a), loaded.name, r);
      }
    }
    SameStillRunning(a.seen, final, Allowed(a), loaded.name);
    SeenWorld(c, a, loaded);
  }

  lemma SeenWorld(c: Card, a: Answer, loaded: Resident)
    requires Given(a, DemandFor(c, loaded)) && DistinctNames(a.seen)
    ensures World(a, a.seen)
  {
    NamesIn(a.seen);
    forall r | r in a.seen ensures IsModule(r.name) || (r.name == WHISPER && a.whisperGpu) {
      assert r.name in ResidentNames(a.listing, a.whisperGpu);
    }
  }

  lemma NotGuaranteed(c: Card, a: Answer, loaded: Resident) returns (before: seq<Resident>, final: seq<string>)
    requires Given(a, DemandFor(c, loaded)) && DistinctNames(a.seen) && !Guaranteed(c, a, loaded)
    ensures World(a, before) && Ends(a, before, final) && !Shares(c, AfterLoad(before, final, loaded))
  {
    if Covered(a, loaded.name) {
      before := a.seen;
      final := AllRemain(c, a, loaded);
    } else {
      before, final := HiddenModel(c, a, loaded, c.totalMb + 1);
    }
    SharesIff(c, before, final, loaded);
  }

  /**
   A positive answer keeps the card well shared, whatever is on it and however the
   unloads went, exactly when the replies show every model that can be there and those
   not shown to be gone fit next to the demand with the headroom.
   */
  lemma AnswerSharesIff(c: Card, a: Answer, loaded: Resident)
    requires Given(a, DemandFor(c, loaded)) && DistinctNames(a.seen)
    ensures Guaranteed(c, a, loaded)
      <==> forall before, final :: World(a, before) && Ends(a, before, final) ==> Shares(c, AfterLoad(before, final, loaded))
  {
    if Guaranteed(c, a, loaded) {
      forall before, final | World(a, before) && Ends(a, before, final)
        ensures Shares(c, AfterLoad(before, final, loaded))
      {
        GateKeepsSharing(c, a, loaded, before, final);
      }
    } else {
      var before, final := NotGuaranteed(c, a, loaded);
    }
  }

  // ---- which answers guarantee it ----------------------------------------------------------------------

  /** What is shown or kept weighs no more than what the plan keeps. */
  lemma {:induction false} StillRunningKept(rs: seq<Resident>, names: seq<string>, model: string, plan: seq<string>)
    requires forall n | n in names :: n !in plan
    ensures Sum(StillRunning(rs, names, model)) <= KeptSum(rs, plan)
    ensures EvictsAll(rs, plan) ==> StillRunning(rs, names, model) == []
  {
    if rs != [] {
      assert EvictsAll(rs, plan) ==> EvictsAll(rs[1..], plan) by {
        assert forall i | 0 <= i < |rs| - 1 :: rs[1..][i] == rs[i + 1];
      }
      StillRunningKept(rs[1..], names, model, plan);
    }
  }

  /** An answered deciding request is enough, unless the plan restarts Whisper: no reply shows that it is gone. */
  lemma AnsweredGuarantees(c: Card, a: Answer, loaded: Resident)
    requires Given(a, DemandFor(c, loaded)) && Covered(a, loaded.name)
    requires (if a.early then a.listing else a.poll).Listed? && WHISPER !in a.plan
    ensures Guaranteed(c, a, loaded)
  {
    forall n | n in Allowed(a) ensures n !in a.plan {
      assert !a.early && n in a.poll.names ==> n in Shown(a.poll);
    }
    StillRunningKept(a.seen, Allowed(a), loaded.name, a.plan);
  }

  lemma {:induction false} AllRun(rs: seq<Resident>, names: seq<string>, model: string)
    requires forall r | r in rs :: r.name in names && r.name != model
    ensures StillRunning(rs, names, model) == rs
  {
    if rs != [] {
      assert rs[0] in rs && forall r | r in rs[1..] :: r in rs;
      AllRun(rs[1..], names, model);
    }
  }

  /** After an unanswered last poll, a new model is safe exactly when it fits without any unload. */
  lemma UnansweredPollIff(c: Card, a: Answer, loaded: Resident)
    requires Given(a, DemandFor(c, loaded)) && a.listing.Listed? && !a.early && !a.poll.Listed?
    requires a.seen != [] && loaded.name !in Names(a.seen)
    ensures Guaranteed(c, a, loaded) <==> Fits(Sum(a.seen), DemandFor(c, loaded))
  {
    NamesIn(a.seen);
    AllRun(a.seen, Names(a.seen), loaded.name);
  }

  // ---- what the free memory says ---------------------------------------------------------------------------

  /** The driver counts every model that runs. */
  predicate MemoryTold(c: Card, before: seq<Resident>, final: seq<string>, model: string, freeMb: int) {
    Sum(StillRunning(before, final, model)) + freeMb <= c.totalMb
  }

  /** The free memory alone guarantees that the models fit; with the headroom only if it was free as well. */
  lemma FreeMemoryFits(c: Card, before: seq<Resident>, final: seq<string>, loaded: Resident, freeMb: int)
    requires DistinctNames(before) && MemoryTold(c, before, final, loaded.name, freeMb) && freeMb >= loaded.mb
    ensures Sum(AfterLoad(before, final, loaded)) <= c.totalMb
    ensures freeMb >= loaded.mb + c.headroomMb ==> Shares(c, AfterLoad(before, final, loaded))
  {
    SharesIff(c, before, final, loaded);
    SumSnoc(StillRunning(before, final, loaded.name), loaded);
  }

  /** When a model may be hidden, nothing less than the headroom on top guarantees it. */
  lemma HiddenModelIff(c: Card, a: Answer, loaded: Resident, freeMb: int)
    requires Given(a, DemandFor(c, loaded)) && !Covered(a, loaded.name) && loaded.mb <= freeMb <= c.totalMb
    ensures freeMb >= loaded.mb + c.headroomMb
      <==> forall before, final ::
             World(a, before) && Ends(a, before, final) && MemoryTold(c, before, final, loaded.name, freeMb)
             ==> Shares(c, AfterLoad(before, final, loaded))
  {
    if freeMb >= loaded.mb + c.headroomMb {
      forall before, final |
        World(a, before) && Ends(a, before, final) && MemoryTold(c, before, final, loaded.name, freeMb)
        ensures Shares(c, AfterLoad(before, final, loaded))
      {
        FreeMemoryFits(c, before, final, loaded, freeMb);
      }
    } else {
      var before, final := HiddenModel(c, a, loaded, c.totalMb - freeMb);
      SharesIff(c, before, final, loaded);
    }
  }

  // ---- an input ------------------------------------------------------------------------------------------------

  lemma OneLoses(x: Resident, d: Demand, model: string)
    requires !Fits(x.mb, d) && Fits(0, d) && x.name != model
    ensures Plan([x], d, {model}) == [x.name]
  {
    var rs := [x];
    assert rs[1..] == [] && rs[..1] == rs;
    assert Side(rs, {model}, false) == [x] + Side(rs[1..], {model}, false) == [x];
    assert LruOrder(rs) == InsertOldest(x, LruOrder(rs[1..])) == [x];
    assert EvictCount(rs[1..], Sum(rs) - x.mb, d) == 0;
    assert EvictCount(rs, Sum(rs), d) == 1;
    assert Names(rs) == [x.name] + Names(rs[1..]) == [x.name];
    assert Sum(rs) == x.mb + Sum(rs[1..]) == x.mb;
    assert Plan(rs, d, {model}) == Names(rs);
  }

  /**
   9000 MB of a 16000 MB card are taken and 6500 MB more are asked for, with 2000 MB of
   headroom.  The unload and the poll behind it stay unanswered: the gate says yes.
   */
  lemma FailedPollShares(firstFreeMb: int)
    ensures var c, loaded, x := Card(16000, 2000), Resident("multimodal", 6500, 1), Resident("reasoning", 9000, 0);
      var plan := Plan([x], DemandFor(c, loaded), {loaded.name});
      var a := Answer(Listed(["reasoning"]), false, [x], plan, false, NoReply);
      && plan == ["reasoning"] && Given(a, DemandFor(c, loaded))
      && Grants(Names(a.seen), plan, loaded.mb, firstFreeMb, [Poll(NoReply, 7000)])
      && World(a, [x]) && Ends(a, [x], ["reasoning"]) && MemoryTold(c, [x], ["reasoning"], loaded.name, 7000)
      && !Shares(c, AfterLoad([x], ["reasoning"], loaded))
  {
    var c, loaded, x := Card(16000, 2000), Resident("multimodal", 6500, 1), Resident("reasoning", 9000, 0);
    OneLoses(x, DemandFor(c, loaded), loaded.name);
    OneRuns(x, loaded.name);
    OneModule("reasoning");
    SharesIff(c, [x], ["reasoning"], loaded);
    assert !NoRoomYet([Poll(NoReply, 7000)][0], Keep(["reasoning"], ["reasoning"]), 6500);
  }

  lemma OneModule(name: string)
    requires IsModule(name)
    ensures ResidentNames(Listed([name]), false) == [name]
  {
    var names := [name];
    assert names[1..] == [];
    assert Modules(names) == [name] + Modules(names[1..]);
    assert ResidentNames(Listed(names), false) == Modules(names) + [];
  }

  /** The same card, and the listing stays unanswered. */
  lemma FailedListingShares(polls: seq<Poll>)
    ensures var c, loaded, x := Card(16000, 2000), Resident("multimodal", 6500, 1), Resident("reasoning", 9000, 0);
      var a := Answer(NoReply, false, [], [], true, NoReply);
      && Plan([], DemandFor(c, loaded), {loaded.name}) == [] && Given(a, DemandFor(c, loaded))
      && Grants([], [], loaded.mb, 7000, polls)
      && World(a, [x]) && Ends(a, [x], ["reasoning"]) && MemoryTold(c, [x], ["reasoning"], loaded.name, 7000)
      && !Shares(c, AfterLoad([x], ["reasoning"], loaded))
  {
    var c, loaded, x := Card(16000, 2000), Resident("multimodal", 6500, 1), Resident("reasoning", 9000, 0);
    OneRuns(x, loaded.name);
    SharesIff(c, [x], ["reasoning"], loaded);
  }
}
