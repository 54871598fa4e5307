/**
 Whole runs of load requests on one card: what the positive answers of the gate keep
 true about the models that share it.
 */
module VramRuns {
  import opened VramPlan
  import opened VramArbiter
  import opened VramCard
  import opened VramAnswers

  /** A resident was used at `now`. */
  function Touched(rs: seq<Resident>, model: string, now: int): seq<Resident> {
    if rs == [] then []
    else [if rs[0].name == model then rs[0].(lastUsed := now) else rs[0]] + Touched(rs[1..], model, now)
  }

  /**
   What happens to the models on a card: a positive answer of the gate with what runs
   and what is free at that moment, and the load; a positive answer for the only model;
   models unloaded in front of a refusal, or gone by themselves; a model used.
   */
  datatype Event =
    | Granted(answer: Answer, loaded: Resident, final: seq<string>, freeMb: int)
    | AlreadyAlone(model: string)
    | Lost(names: seq<string>)
    | Used(model: string, now: int)

  /** The gate can give this answer on this card, its requests answered or not. */
  ghost predicate Possible(c: Card, rs: seq<Resident>, e: Event) {
    match e
    case Granted(a, loaded, final, freeMb) =>
      Given(a, DemandFor(c, loaded)) && World(a, rs) && Ends(a, rs, final) && freeMb >= loaded.mb
    case AlreadyAlone(model) => |rs| == 1 && rs[0].name == model
    case Lost(_) => true
    case Used(_, _) => true
  }

  function Step(rs: seq<Resident>, e: Event): seq<Resident> {
    match e
    case Granted(_, loaded, final, _) => AfterLoad(rs, final, loaded)
    case AlreadyAlone(_) => rs
    case Lost(names) => Kept(rs, names)
    case Used(model, now) => Touched(rs, model, now)
  }

  function RunAll(events: seq<Event>): seq<Resident> {
    if events == [] then [] else Step(RunAll(events[..|events| - 1]), events[|events| - 1])
  }

  ghost predicate PossibleRun(c: Card, events: seq<Event>) {
    events == []
    || (var front := events[..|events| - 1];
        PossibleRun(c, front) && Possible(c, RunAll(front), events[|events| - 1]))
  }

  /** The driver's figure behind a positive answer counts every model that runs. */
  predicate Told(c: Card, rs: seq<Resident>, e: Event) {
    e.Granted? ==> MemoryTold(c, rs, e.final, e.loaded.name, e.freeMb)
  }

  ghost predicate ToldRun(c: Card, events: seq<Event>) {
    events == []
    || (var front := events[..|events| - 1];
        ToldRun(c, front) && Told(c, RunAll(front), events[|events| - 1]))
  }

  /** A positive answer rests on replies that rule a bad end out, or the headroom was free as well. */
  predicate Safe(c: Card, rs: seq<Resident>, e: Event) {
    e.Granted? ==> Guaranteed(c, e.answer, e.loaded) || (e.freeMb >= e.loaded.mb + c.headroomMb && Told(c, rs, e))
  }

  ghost predicate SafeRun(c: Card, events: seq<Event>) {
    events == []
    || (var front := events[..|events| - 1];
        SafeRun(c, front) && Safe(c, RunAll(front), events[|events| - 1]))
  }

  lemma {:induction false} TouchedSame(rs: seq<Resident>, model: string, now: int)
    ensures var after := Touched(rs, model, now);
      |after| == |rs| && Sum(after) == Sum(rs) && forall i | 0 <= i < |rs| :: after[i].name == rs[i].name
  {
    if rs != [] {
      TouchedSame(rs[1..], model, now);
    }
  }

  // ---- every run: the models fit, without the headroom ------------------------------------------------

  /** The models are distinct and fit the card, with nothing to spare perhaps. */
  ghost predicate FitCard(c: Card, rs: seq<Resident>) {
    Sum(rs) <= c.totalMb && DistinctNames(rs)
  }

  lemma StepFits(c: Card, rs: seq<Resident>, e: Event)
    requires FitCard(c, rs) && Possible(c, rs, e) && Told(c, rs, e)
    ensures FitCard(c, Step(rs, e))
  {
    match e
    case Granted(a, loaded, final, freeMb) =>
      FreeMemoryFits(c, rs, final, loaded, freeMb);
      AfterLoadDistinct(rs, final, loaded);
    case AlreadyAlone(_) =>
    case Lost(names) =>
      KeptSums(rs, names);
      KeptDistinct(rs, names);
    case Used(model, now) => TouchedSame(rs, model, now);
  }

  lemma AfterLoadDistinct(rs: seq<Resident>, final: seq<string>, loaded: Resident)
    requires DistinctNames(rs)
    ensures DistinctNames(AfterLoad(rs, final, loaded))
  {
    StillRunningPart(rs, final, loaded.name);
    StillRunningDistinct(rs, final, loaded.name);
    SnocDistinct(StillRunning(rs, final, loaded.name), loaded);
  }

  /**
   Over every run of positive answers, their requests answered or not, refusals, uses
   and disappearances: if the driver's figures are true, the models are distinct and fit.
   */
  lemma {:induction false} RunFits(c: Card, events: seq<Event>)
    requires PossibleRun(c, events) && ToldRun(c, events)
    ensures FitCard(c, RunAll(events))
  {
    if events != [] {
      RunFits(c, events[..|events| - 1]);
      StepFits(c, RunAll(events[..|events| - 1]), events[|events| - 1]);
    }
  }

  // ---- and with the headroom ------------------------------------------------------------------------------

  lemma StepShares(c: Card, rs: seq<Resident>, e: Event)
    requires Shares(c, rs) && Possible(c, rs, e) && Safe(c, rs, e)
    ensures Shares(c, Step(rs, e))
  {
    match e
    case Granted(a, loaded, final, freeMb) =>
      if Guaranteed(c, a, loaded) {
        GateKeepsSharing(c, a, loaded, rs, final);
      } else {
        FreeMemoryFits(c, rs, final, loaded, freeMb);
      }
    case AlreadyAlone(_) =>
    case Lost(names) =>
      KeptSums(rs, names);
      KeptDistinct(rs, names);
    case Used(model, now) => TouchedSame(rs, model, now);
  }

  /**
   Over every such run whose positive answers are safe: there is one model at most on
   the card, or they fit together with the headroom.
   */
  lemma {:induction false} RunShares(c: Card, events: seq<Event>)
    requires PossibleRun(c, events) && SafeRun(c, events)
    ensures Shares(c, RunAll(events))
  {
    if events != [] {
      RunShares(c, events[..|events| - 1]);
      StepShares(c, RunAll(events[..|events| - 1]), events[|events| - 1]);
    }
  }

  lemma RunOfTwo(c: Card, first: Event, second: Event, rs: seq<Resident>)
    requires Possible(c, [], first) && Told(c, [], first) && Step([], first) == rs
    requires Possible(c, rs, second) && Told(c, rs, second)
    ensures PossibleRun(c, [first, second]) && ToldRun(c, [first, second])
    ensures RunAll([first, second]) == Step(rs, second)
  {
    assert [first, second][..1] == [first] && [first][..0] == [];
    assert PossibleRun(c, []) && ToldRun(c, []) && RunAll([]) == [];
    assert PossibleRun(c, [first]) && ToldRun(c, [first]) && RunAll([first]) == rs;
  }

  /** The load of a model on an empty card that the listing shows. */
  function FirstLoad(x: Resident, freeMb: int): Event {
    Granted(Answer(Listed([]), false, [], [], true, NoReply), x, [], freeMb)
  }

  lemma FirstLoadPossible(c: Card, x: Resident)
    requires x.mb <= c.totalMb
    ensures var e := FirstLoad(x, c.totalMb); Possible(c, [], e) && Told(c, [], e) && Step([], e) == [x]
  {
    assert Modules([]) == [] && ResidentNames(Listed([]), false) == [] + [];
  }

  /** A second load behind an unanswered unload and poll. */
  function BlindLoad(x: Resident, y: Resident, plan: seq<string>, freeMb: int): Event {
    Granted(Answer(Listed([x.name]), false, [x], plan, false, NoReply), y, [x.name], freeMb)
  }

  lemma BlindLoadShares() returns (c: Card, x: Resident, e: Event)
    ensures x.mb <= c.totalMb && Possible(c, [x], e) && Told(c, [x], e) && !Shares(c, Step([x], e))
  {
    var y := Resident("multimodal", 6500, 1);
    c, x := Card(16000, 2000), Resident("reasoning", 9000, 0);
    FailedPollShares(0);
    e := BlindLoad(x, y, Plan([x], DemandFor(c, y), {y.name}), 7000);
  }

  /** Without that it can fail, true figures or not: two loads, the second after replies that did not come. */
  lemma UnsafeRun() returns (c: Card, events: seq<Event>)
    ensures PossibleRun(c, events) && ToldRun(c, events) && |events| == 2 && !Shares(c, RunAll(events))
  {
    var x, e;
    c, x, e := BlindLoadShares();
    FirstLoadPossible(c, x);
    RunOfTwo(c, FirstLoad(x, c.totalMb), e, [x]);
    events := [FirstLoad(x, c.totalMb), e];
  }

  // ---- a plan carried out -----------------------------------------------------------------------------------

  /** The names of what a plan keeps. */
  lemma {:induction false} NamesOfKept(rs: seq<Resident>, plan: seq<string>)
    ensures forall n | n in Names(Kept(rs, plan)) :: n !in plan && exists r :: r in rs && r.name == n
    ensures forall r | r in rs && r.name !in plan :: r.name in Names(Kept(rs, plan))
  {
    if rs != [] {
      NamesOfKept(rs[1..], plan);
      forall n | n in Names(Kept(rs, plan)) ensures n !in plan && exists r :: r in rs && r.name == n {
        if n in Names(Kept(rs[1..], plan)) {
          var r :| r in rs[1..] && r.name == n;
          assert r in rs;
        } else {
          assert rs[0] in rs;
        }
      }
    }
  }

  lemma {:induction false} StillRunningOfKept(rs: seq<Resident>, names: seq<string>, plan: seq<string>, model: string)
    requires forall r | r in rs :: r.name in names <==> r.name !in plan
    ensures StillRunning(rs, names, model) == Kept(Kept(rs, plan), [model])
  {
    if rs != [] {
      assert rs[0] in rs && forall r | r in rs[1..] :: r in rs;
      StillRunningOfKept(rs[1..], names, plan, model);
    }
  }

  lemma KeepNames(rs: seq<Resident>, plan: seq<string>)
    requires plan != []
    ensures forall n | n in Names(Kept(rs, plan)) :: n in Keep(Names(rs), plan)
  {
    NamesOfKept(rs, plan);
    NamesIn(rs);
  }

  /** The answer for a plan that is carried out, shown by an answered listing and poll. */
  function PlannedAnswerOf(c: Card, rs: seq<Resident>, e: Request, listed: seq<string>, whisperGpu: bool): Answer {
    var plan := Plan(rs, DemandOf(c, e), {e.model});
    Answer(Listed(listed), whisperGpu, rs, plan, plan == [] && HasRoom(c, rs, e),
           Listed(ServerModels(AfterEviction(c, rs, e))))
  }

  /** The plan carried out, and the load: such an answer is given, and this is what it leaves. */
  lemma PlannedAnswer(c: Card, rs: seq<Resident>, e: Request, listed: seq<string>, whisperGpu: bool, now: int)
    requires Shares(c, rs) && Names(rs) == ResidentNames(Listed(listed), whisperGpu)
    ensures var a, left := PlannedAnswerOf(c, rs, e, listed, whisperGpu), AfterEviction(c, rs, e);
      var loaded := Resident(e.model, e.neededMb, now);
      && Given(a, DemandFor(c, loaded)) && World(a, rs) && Ends(a, rs, Names(left))
      && AfterLoad(rs, Names(left), loaded) == Kept(left, [e.model]) + [loaded]
  {
    var a, left := PlannedAnswerOf(c, rs, e, listed, whisperGpu), AfterEviction(c, rs, e);
    var loaded := Resident(e.model, e.neededMb, now);
    PlanMakesRoom(rs, DemandOf(c, e), {e.model});
    PlanNames(rs, DemandOf(c, e), {e.model});
    PlannedKeeps(c, rs, e);
    SeenWorld(c, a, loaded);
    PlannedLeaves(c, rs, e);
  }

  /** What the answered poll shows is kept. */
  lemma PlannedKeeps(c: Card, rs: seq<Resident>, e: Request)
    ensures var plan, left := Plan(rs, DemandOf(c, e), {e.model}), AfterEviction(c, rs, e);
      plan != [] || !HasRoom(c, rs, e) ==> forall n | n in ServerModels(left) :: n in Keep(Names(rs), plan)
  {
    var plan := Plan(rs, DemandOf(c, e), {e.model});
    if plan != [] {
      KeepNames(rs, plan);
    } else {
      NamesOfKept(rs, ServerModels(rs));
      NamesIn(rs);
    }
  }

  lemma PlannedLeaves(c: Card, rs: seq<Resident>, e: Request)
    ensures var left := AfterEviction(c, rs, e);
      && (forall n | n in Names(left) :: n in Names(rs))
      && StillRunning(rs, Names(left), e.model) == Kept(left, [e.model])
  {
    var plan, left := Plan(rs, DemandOf(c, e), {e.model}), AfterEviction(c, rs, e);
    NothingPlanned(rs);
    NamesIn(rs);
    var gone := if plan != [] then plan else if HasRoom(c, rs, e) then [] else ServerModels(rs);
    assert left == Kept(rs, gone);
    NamesOfKept(rs, gone);
    StillRunningOfKept(rs, Names(left), gone, e.model);
  }
}
