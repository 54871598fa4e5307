/**
 The gate in front of every model load: it acts on the eviction plan and waits
 until the card has room.  Replies of the model server and of the driver are
 inputs; the commands sent are logged.
 */
module VramArbiter {
  import opened Wrappers
  import Words
  import opened VramPlan

  datatype Refusal = RamShort(neededMb: nat, availableMb: int) | VramTimeout(neededMb: nat, availableMb: int)

  /** The first look at the server: the commands of the running models, and whether a wanted one is misplaced. */
  datatype Probe = Silent | Running(cmds: seq<string>, misplaced: bool)

  /** A request for the running models: it fails, it is answered with an error, or it names them. */
  datatype Reply = NoReply | BadStatus | Listed(names: seq<string>)

  /** The running models as the gate takes them from a reply: none when it did not name them. */
  function Shown(reply: Reply): seq<string> {
    if reply.Listed? then reply.names else []
  }

  /** One turn of the waiting loop: the reply and the free memory. */
  datatype Poll = Poll(reply: Reply, freeMb: int)

  datatype Command = Reload(model: string) | Unload(model: string) | UnloadAll | UnloadVideo

  /** One model runs, and its command contains the wanted model's name. */
  predicate WantedAlone(probe: Probe, modelName: string) {
    && probe.Running? && |probe.cmds| == 1
    && modelName != "" && Words.Find(modelName, probe.cmds[0], 0).Some?
  }

  predicate LoadedAlone(probe: Probe, modelName: string) {
    WantedAlone(probe, modelName) && !probe.misplaced
  }

  /** The wanted model's name stands in the one command, and the model is on the card. */
  lemma LoadedAloneIff(probe: Probe, modelName: string)
    ensures LoadedAlone(probe, modelName) <==>
            probe.Running? && !probe.misplaced && modelName != "" && |probe.cmds| == 1
            && exists i: nat :: Words.OccursAt(modelName, probe.cmds[0], i)
    ensures WantedAlone(probe, modelName) <==>
            LoadedAlone(if probe.Running? then probe.(misplaced := false) else probe, modelName)
  {
  }

  const WHISPER: string := "whisper"

  predicate IsModule(name: string) {
    name == "reasoning" || name == "multimodal" || name == "embedding" || name == "reranker"
  }

  function Modules(names: seq<string>): (r: seq<string>)
    ensures forall n :: n in r <==> n in names && IsModule(n)
  {
    if names == [] then []
    else if IsModule(names[0]) then [names[0]] + Modules(names[1..])
    else Modules(names[1..])
  }

  /** The names the gate takes for resident; Whisper is no model of the server and is counted when it uses the card. */
  function ResidentNames(listing: Reply, whisperGpu: bool): seq<string> {
    if listing.NoReply? then [] else Modules(Shown(listing)) + if whisperGpu then [WHISPER] else []
  }

  lemma {:induction false} ModulesKeepOrder(a: seq<string>, b: seq<string>)
    ensures Modules(a + b) == Modules(a) + Modules(b)
  {
    if a == [] {
      assert a + b == b;
    } else {
      assert (a + b)[1..] == a[1..] + b;
      ModulesKeepOrder(a[1..], b);
    }
  }

  /** An answered listing shows the four modules it names, once for each time, and Whisper where it uses the card. */
  lemma ResidentNamesAre(listing: Reply, whisperGpu: bool, n: string)
    ensures n in ResidentNames(listing, whisperGpu) <==>
            || (listing.Listed? && n in listing.names && n in ["reasoning", "multimodal", "embedding", "reranker"])
            || (!listing.NoReply? && whisperGpu && n == "whisper")
    ensures Modules([n]) == if n in ["reasoning", "multimodal", "embedding", "reranker"] then [n] else []
  {
  }

  /** The residents as the planner sees them. */
  function Loaded(names: seq<string>, footprint: string -> nat, lastUsed: map<string, int>): (rs: seq<Resident>)
    ensures |rs| == |names| && forall i | 0 <= i < |rs| :: rs[i].name == names[i]
  {
    seq(|names|, i requires 0 <= i < |names| =>
      Resident(names[i], footprint(names[i]), if names[i] in lastUsed then lastUsed[names[i]] else 0))
  }

  /** A resident has its footprint and the time it was last used; one that never was counts as the oldest. */
  lemma LoadedAre(names: seq<string>, footprint: string -> nat, lastUsed: map<string, int>, i: nat)
    requires i < |names|
    ensures var r := Loaded(names, footprint, lastUsed)[i];
      r.mb == footprint(names[i]) && (if names[i] in lastUsed then r.lastUsed == lastUsed[names[i]] else r.lastUsed == 0)
  {
  }

  /** Names that stay when a plan is carried out; an empty plan falls back to a full unload. */
  function Keep(names: seq<string>, plan: seq<string>): set<string> {
    set n | n in names && plan != [] && n !in plan
  }

  /** Every command spares the models that are kept. */
  ghost predicate Spares(commands: seq<Command>, keep: set<string>) {
    forall c | c in commands :: (c.Unload? ==> c.model !in keep) && (c.UnloadAll? ==> keep == {})
  }

  /** The poll shows a model that should be gone, or too little free memory. */
  ghost predicate NoRoomYet(p: Poll, keep: set<string>, neededMb: nat) {
    (exists n :: n in Shown(p.reply) && n !in keep) || p.freeMb < neededMb
  }

  /**
   `final` are models still running: either there are none, or they are residents the
   plan kept, and the demand fits next to them with the headroom.
   */
  ghost predicate Room(loaded: seq<Resident>, plan: seq<string>, d: Demand, final: seq<string>) {
    final == []
    || (Fits(KeptSum(loaded, plan), d) && forall n | n in final :: n !in plan && exists r :: r in loaded && r.name == n)
  }

  /**
   What a positive answer rests on: the listing and the residents taken from it, the
   plan, and either the empty plan alone or the reply to the last poll.
   */
  datatype Answer = Answer(listing: Reply, whisperGpu: bool, seen: seq<Resident>, plan: seq<string>, early: bool, poll: Reply)

  /** The gate can give this answer. */
  ghost predicate Given(a: Answer, d: Demand) {
    && Names(a.seen) == ResidentNames(a.listing, a.whisperGpu)
    && (forall n | n in a.plan :: n in Names(a.seen))
    && (EvictsAll(a.seen, a.plan) || Fits(KeptSum(a.seen, a.plan), d))
    && (a.early ==> a.plan == [])
    && (!a.early ==> forall n | n in Shown(a.poll) :: n in Keep(Names(a.seen), a.plan))
  }

  /** The names a positive answer was shown: the listing, or the last poll. */
  function LastShown(a: Answer): seq<string> {
    if a.early then Names(a.seen) else Shown(a.poll)
  }

  /** A positive answer for this listing, and what it says of the models that were shown. */
  ghost predicate Rests(a: Answer, listing: Reply, whisperGpu: bool, seen: seq<Resident>, plan: seq<string>, d: Demand) {
    && a.listing == listing && a.whisperGpu == whisperGpu && a.seen == seen && a.plan == plan
    && Given(a, d) && Room(seen, plan, d, LastShown(a))
  }

  /** The conditions under which the gate says yes, behind its early exits. */
  ghost predicate Grants(names: seq<string>, plan: seq<string>, neededMb: nat, firstFreeMb: int, polls: seq<Poll>) {
    || (plan == [] && firstFreeMb >= neededMb)
    || exists i :: 0 <= i < |polls| && !NoRoomYet(polls[i], Keep(names, plan), neededMb)
  }

  // ---- the commands of one call -----------------------------------------------------------------------

  /** An unload for every name that is not kept, in order. */
  function Unloads(names: seq<string>, keep: set<string>): seq<Command> {
    if names == [] then []
    else (if names[0] in keep then [] else [Unload(names[0])]) + Unloads(names[1..], keep)
  }

  /** What carrying a plan out sends; an empty one stands for a full unload. */
  function CarriedOut(plan: seq<string>): seq<Command> {
    (if plan == [] then [UnloadAll] else Unloads(plan, {})) + [UnloadVideo]
  }

  /** What the waiting loop sends: an unload for every model that shows and is not kept, until a poll is good. */
  function WaitLog(polls: seq<Poll>, keep: set<string>, neededMb: nat): seq<Command> {
    if polls == [] then []
    else
      var unexpected := Unloads(Shown(polls[0].reply), keep);
      if unexpected == [] && polls[0].freeMb >= neededMb then []
      else unexpected + WaitLog(polls[1..], keep, neededMb)
  }

  /** The free memory last looked at; polls with an unexpected model do not look. */
  function LastFree(polls: seq<Poll>, keep: set<string>, neededMb: nat, freeMb: int): int {
    if polls == [] then freeMb
    else if Unloads(Shown(polls[0].reply), keep) != [] then LastFree(polls[1..], keep, neededMb, freeMb)
    else if polls[0].freeMb >= neededMb then polls[0].freeMb
    else LastFree(polls[1..], keep, neededMb, polls[0].freeMb)
  }

  /** The commands behind the early exits: none for an early yes. */
  function GateLog(names: seq<string>, plan: seq<string>, neededMb: nat, firstFreeMb: int, polls: seq<Poll>): seq<Command> {
    if plan == [] && firstFreeMb >= neededMb then []
    else CarriedOut(plan) + WaitLog(polls, Keep(names, plan), neededMb)
  }

  lemma {:induction false} UnloadsExactly(names: seq<string>, keep: set<string>)
    ensures forall n | n in names && n !in keep :: Unload(n) in Unloads(names, keep)
    ensures forall c | c in Unloads(names, keep) :: c.Unload? && c.model in names && c.model !in keep
    ensures Unloads(names, keep) == [] <==> forall n | n in names :: n in keep
  {
    if names != [] {
      UnloadsExactly(names[1..], keep);
      assert names == [names[0]] + names[1..];
    }
  }

  /** Every planned model is told to go, everything when the plan is empty, and the video pipeline in both cases. */
  lemma PlanCarriedOut(plan: seq<string>)
    ensures forall n | n in plan :: Unload(n) in CarriedOut(plan)
    ensures UnloadAll in CarriedOut(plan) <==> plan == []
    ensures UnloadVideo in CarriedOut(plan)
    ensures forall c | c in CarriedOut(plan) :: c == UnloadAll || c == UnloadVideo || (c.Unload? && c.model in plan)
  {
    UnloadsExactly(plan, {});
  }

  /** Up to the deciding poll every model that shows and is not kept is told to go, and no other. */
  lemma {:induction false} WaitUnloads(polls: seq<Poll>, keep: set<string>, neededMb: nat)
    ensures forall c | c in WaitLog(polls, keep, neededMb) :: c.Unload? && c.model !in keep
    ensures forall i, n | 0 <= i < |polls| && n in Shown(polls[i].reply) && n !in keep
                          && (forall j | 0 <= j < i :: NoRoomYet(polls[j], keep, neededMb)) ::
              Unload(n) in WaitLog(polls, keep, neededMb)
  {
    if polls != [] {
      UnloadsExactly(Shown(polls[0].reply), keep);
      WaitUnloads(polls[1..], keep, neededMb);
      forall i, n | 0 <= i < |polls| && n in Shown(polls[i].reply) && n !in keep
                    && (forall j | 0 <= j < i :: NoRoomYet(polls[j], keep, neededMb))
        ensures Unload(n) in WaitLog(polls, keep, neededMb)
      {
        if i > 0 {
          assert polls[1..][i - 1] == polls[i];
          assert forall j | 0 <= j < i - 1 :: polls[1..][j] == polls[j + 1];
          assert NoRoomYet(polls[0], keep, neededMb);
        }
      }
    }
  }

  /** The poll shows kept models only. */
  predicate ShowsKept(p: Poll, keep: set<string>) {
    forall n | n in Shown(p.reply) :: n in keep
  }

  /** The memory last looked at is that of the deciding poll, or else of the last poll without an unexpected model. */
  lemma {:induction false} LastFreeIs(polls: seq<Poll>, keep: set<string>, neededMb: nat, freeMb: int, i: int)
    requires -1 <= i < |polls| && (i >= 0 ==> ShowsKept(polls[i], keep))
    requires forall j | 0 <= j < i :: NoRoomYet(polls[j], keep, neededMb)
    requires (i >= 0 && polls[i].freeMb >= neededMb) || forall j | i < j < |polls| :: !ShowsKept(polls[j], keep)
    ensures LastFree(polls, keep, neededMb, freeMb) == if i >= 0 then polls[i].freeMb else freeMb
  {
    if polls != [] {
      var rest := polls[1..];
      UnloadsExactly(Shown(polls[0].reply), keep);
      assert ShowsKept(polls[0], keep) <==> Unloads(Shown(polls[0].reply), keep) == [];
      assert forall j | 0 <= j < |rest| :: rest[j] == polls[j + 1];
      if i == 0 && polls[0].freeMb >= neededMb {
      } else if i == 0 {
        LastFreeIs(rest, keep, neededMb, polls[0].freeMb, -1);
      } else {
        if i > 0 {
          assert NoRoomYet(polls[0], keep, neededMb);
        }
        LastFreeIs(rest, keep, neededMb, if ShowsKept(polls[0], keep) then polls[0].freeMb else freeMb,
                   if i > 0 then i - 1 else -1);
      }
    }
  }

  /** No command touches a kept model. */
  lemma GateSpares(names: seq<string>, plan: seq<string>, neededMb: nat, firstFreeMb: int, polls: seq<Poll>)
    ensures Spares(GateLog(names, plan, neededMb, firstFreeMb, polls), Keep(names, plan))
  {
    PlanCarriedOut(plan);
    WaitUnloads(polls, Keep(names, plan), neededMb);
  }

  /** Behind the poll that shows room nothing is sent any more. */
  lemma {:induction false} WaitEnds(polls: seq<Poll>, keep: set<string>, neededMb: nat, i: nat)
    requires i < |polls| && ShowsKept(polls[i], keep) && polls[i].freeMb >= neededMb
    ensures WaitLog(polls, keep, neededMb) == WaitLog(polls[..i], keep, neededMb)
  {
    UnloadsExactly(Shown(polls[0].reply), keep);
    if i > 0 {
      var rest := polls[1..];
      assert polls[..i][1..] == rest[..i - 1];
      WaitEnds(rest, keep, neededMb, i - 1);
    } else {
      assert polls[..0] == [];
    }
  }

  /** The gate is silent when nothing has to go and the memory is free; otherwise it tells the plan, or everything, to go. */
  lemma GateTells(names: seq<string>, plan: seq<string>, neededMb: nat, firstFreeMb: int, polls: seq<Poll>)
    ensures var log := GateLog(names, plan, neededMb, firstFreeMb, polls);
      && (plan == [] && firstFreeMb >= neededMb ==> log == [])
      && (plan != [] || firstFreeMb < neededMb ==> UnloadVideo in log && (plan == [] ==> UnloadAll in log))
      && (forall n | n in plan :: Unload(n) in log)
  {
    PlanCarriedOut(plan);
  }

  lemma UnloadsSnoc(names: seq<string>, i: nat, keep: set<string>)
    requires i < |names|
    ensures Unloads(names[..i + 1], keep) == Unloads(names[..i], keep) + if names[i] in keep then [] else [Unload(names[i])]
    decreases i
  {
    if i > 0 {
      UnloadsSnoc(names[1..], i - 1, keep);
      assert names[..i + 1][1..] == names[1..][..i] && names[..i][1..] == names[1..][..i - 1];
    } else {
      assert names[..1][1..] == [] && names[..0] == [];
    }
  }

  lemma PollStep(sent: seq<Command>, polls: seq<Poll>, i: nat, keep: set<string>, neededMb: nat, freeMb: int)
    requires i < |polls|
    ensures var p, rest := polls[i], polls[i + 1..];
      var unexpected := Unloads(Shown(p.reply), keep);
      && sent + WaitLog(polls[i..], keep, neededMb)
         == (if unexpected == [] && p.freeMb >= neededMb then sent else (sent + unexpected) + WaitLog(rest, keep, neededMb))
      && LastFree(polls[i..], keep, neededMb, freeMb)
         == if unexpected != [] then LastFree(rest, keep, neededMb, freeMb)
            else if p.freeMb >= neededMb then p.freeMb
            else LastFree(rest, keep, neededMb, p.freeMb)
  {
    var rest := polls[i + 1..];
    assert polls[i..][1..] == rest;
    Regroup(sent, Unloads(Shown(polls[i].reply), keep), WaitLog(rest, keep, neededMb));
  }

  lemma Regroup(a: seq<Command>, b: seq<Command>, c: seq<Command>)
    ensures a + (b + c) == (a + b) + c
    ensures a + [] == a
  {
  }

  class ResourceManager {
    const totalVramMb: nat
    const headroomMb: nat
    const coResidency: bool
    const cpuPlatform: bool
    const whisperGpu: bool
    var availableVramMb: int
    var lastUsed: map<string, int>
    var lastRefusal: Option<Refusal>
    var vramWaitBusy: bool
    var commands: seq<Command>

    constructor (totalVramMb: nat, headroomMb: nat, coResidency: bool, cpuPlatform: bool, whisperGpu: bool)
      ensures this.totalVramMb == totalVramMb && this.headroomMb == headroomMb
      ensures this.coResidency == coResidency && this.cpuPlatform == cpuPlatform && this.whisperGpu == whisperGpu
      ensures lastUsed == map[] && lastRefusal == None && !vramWaitBusy && commands == []
    {
      this.totalVramMb, this.headroomMb := totalVramMb, headroomMb;
      this.coResidency, this.cpuPlatform, this.whisperGpu := coResidency, cpuPlatform, whisperGpu;
      availableVramMb, lastUsed, lastRefusal, vramWaitBusy, commands := 0, map[], None, false, [];
    }

    function PlanFor(modelType: string, neededMb: nat, loaded: seq<Resident>): seq<string> {
      if !coResidency || totalVramMb == 0 then Names(loaded)
      else Plan(loaded, Demand(neededMb, headroomMb, totalVramMb), {modelType})
    }

    method EvictionPlan(modelType: string, neededMb: nat, loaded: seq<Resident>) returns (plan: seq<string>)
      ensures plan == PlanFor(modelType, neededMb, loaded)
    {
      if !coResidency || totalVramMb == 0 {
        return Names(loaded);
      }
      plan := PlanUnloads(loaded, Demand(neededMb, headroomMb, totalVramMb), {modelType});
    }

    method Send(c: Command)
      modifies this`commands
      ensures commands == old(commands) + [c]
    {
      commands := commands + [c];
    }

    /** Unloads, one by one, the models of `names` that are not kept; tells whether there were any. */
    method UnloadExcept(names: seq<string>, keep: set<string>) returns (any: bool)
      modifies this`commands
      ensures commands == old(commands) + Unloads(names, keep)
      ensures any <==> exists n :: n in names && n !in keep
    {
      any := false;
      for i := 0 to |names|
        invariant commands == old(commands) + Unloads(names[..i], keep)
        invariant any <==> exists n :: n in names[..i] && n !in keep
      {
        UnloadsSnoc(names, i, keep);
        assert names[..i + 1] == names[..i] + [names[i]];
        if names[i] !in keep {
          any := true;
          Send(Unload(names[i]));
          assert names[i] in names[..i + 1];
        }
      }
      assert names[..|names|] == names;
    }

    /** Polls until only kept models show and the memory is free; the polls end at the deadline. */
    method WaitForRoom(neededMb: nat, keep: set<string>, polls: seq<Poll>) returns (ok: bool, ghost at: nat)
      requires vramWaitBusy
      modifies this`commands, this`availableVramMb
      ensures commands == old(commands) + WaitLog(polls, keep, neededMb)
      ensures availableVramMb == LastFree(polls, keep, neededMb, old(availableVramMb))
      ensures ok ==> at < |polls| && forall n | n in Shown(polls[at].reply) :: n in keep
      ensures ok ==> availableVramMb == polls[at].freeMb && polls[at].freeMb >= neededMb
      ensures ok ==> forall i | 0 <= i < at :: NoRoomYet(polls[i], keep, neededMb)
      ensures !ok ==> forall i | 0 <= i < |polls| :: NoRoomYet(polls[i], keep, neededMb)
    {
      ghost var log, free := commands + WaitLog(polls, keep, neededMb), LastFree(polls, keep, neededMb, availableVramMb);
      assert polls[0..] == polls;
      for i := 0 to |polls|
        invariant log == commands + WaitLog(polls[i..], keep, neededMb)
        invariant free == LastFree(polls[i..], keep, neededMb, availableVramMb)
        invariant forall j | 0 <= j < i :: NoRoomYet(polls[j], keep, neededMb)
      {
        PollStep(commands, polls, i, keep, neededMb, availableVramMb);
        UnloadsExactly(Shown(polls[i].reply), keep);
        var unexpected := UnloadExcept(Shown(polls[i].reply), keep);
        if unexpected {
          continue;
        }
        availableVramMb := polls[i].freeMb;
        if availableVramMb >= neededMb {
          return true, i;
        }
      }
      return false, 0;
    }

    /** Carries a plan out. */
    method CarryOut(plan: seq<string>)
      requires vramWaitBusy
      modifies this`commands
      ensures commands == old(commands) + CarriedOut(plan)
    {
      if plan != [] {
        var some := UnloadExcept(plan, {});
      } else {
        Send(UnloadAll);
      }
      Send(UnloadVideo);
    }

    method EnsureVramFor(modelType: string, modelName: string, neededMb: nat, now: int, probe: Probe,
                         cpuRamMb: nat, availableRamMb: nat, listing: Reply, footprint: string -> nat,
                         firstFreeMb: int, polls: seq<Poll>)
      returns (ok: bool, ghost answer: Answer)
      modifies this
      ensures ok <==> lastRefusal.None?
      ensures !ok ==> lastRefusal.value == (if cpuRamMb > availableRamMb > 0 then RamShort(cpuRamMb, availableRamMb)
                                            else VramTimeout(neededMb, availableVramMb))
      ensures cpuPlatform || LoadedAlone(probe, modelName) ==> ok && commands == old(commands)
      ensures lastUsed == if cpuPlatform || LoadedAlone(probe, modelName) || cpuRamMb > availableRamMb > 0
                          then old(lastUsed) else old(lastUsed)[modelType := now]
      ensures vramWaitBusy ==> old(vramWaitBusy)
      ensures !cpuPlatform && !LoadedAlone(probe, modelName) && cpuRamMb > availableRamMb > 0 ==>
        !ok && commands == old(commands) + (if WantedAlone(probe, modelName) then [Reload(modelType)] else [])
      ensures !cpuPlatform && !LoadedAlone(probe, modelName) && !(cpuRamMb > availableRamMb > 0) ==>
        var names := ResidentNames(listing, whisperGpu);
        var loaded := Loaded(names, footprint, lastUsed);
        var plan := PlanFor(modelType, neededMb, loaded);
        && (ok <==> Grants(names, plan, neededMb, firstFreeMb, polls))
        && (ok ==> availableVramMb >= neededMb
                   && Rests(answer, listing, whisperGpu, loaded, plan, Demand(neededMb, headroomMb, totalVramMb)))
        && commands == old(commands) + (if WantedAlone(probe, modelName) then [Reload(modelType)] else [])
                       + GateLog(names, plan, neededMb, firstFreeMb, polls)
    {
      lastRefusal := None;
      answer := Answer(listing, whisperGpu, [], [], false, NoReply);
      if cpuPlatform || LoadedAlone(probe, modelName) {
        return true, answer;
      }
      if WantedAlone(probe, modelName) {
        Send(Reload(modelType));
      }
      assert commands == old(commands) + (if WantedAlone(probe, modelName) then [Reload(modelType)] else []);
      if cpuRamMb > 0 && availableRamMb > 0 && cpuRamMb > availableRamMb {
        lastRefusal := Some(RamShort(cpuRamMb, availableRamMb));
        return false, answer;
      }
      lastUsed := lastUsed[modelType := now];
      var names := ResidentNames(listing, whisperGpu);
      var loaded := Loaded(names, footprint, lastUsed);
      ok, answer := MakeRoom(modelType, neededMb, listing, names, loaded, firstFreeMb, polls);
    }

    /** The plan, and the wait if it has to unload something or too little memory is free. */
    method MakeRoom(modelType: string, neededMb: nat, listing: Reply, names: seq<string>, loaded: seq<Resident>,
                    firstFreeMb: int, polls: seq<Poll>)
      returns (ok: bool, ghost answer: Answer)
      requires names == ResidentNames(listing, whisperGpu) && lastRefusal.None?
      requires |loaded| == |names| && forall i | 0 <= i < |names| :: loaded[i].name == names[i]
      modifies this`commands, this`availableVramMb, this`vramWaitBusy, this`lastRefusal
      ensures lastRefusal == if ok then None else Some(VramTimeout(neededMb, availableVramMb))
      ensures vramWaitBusy ==> old(vramWaitBusy)
      ensures var plan := PlanFor(modelType, neededMb, loaded);
        && (ok <==> Grants(names, plan, neededMb, firstFreeMb, polls))
        && (ok ==> availableVramMb >= neededMb
                   && Rests(answer, listing, whisperGpu, loaded, plan, Demand(neededMb, headroomMb, totalVramMb)))
        && commands == old(commands) + GateLog(names, plan, neededMb, firstFreeMb, polls)
    {
      var plan := EvictionPlan(modelType, neededMb, loaded);
      PlanGiven(this, modelType, neededMb, listing, loaded);
      answer := Answer(listing, whisperGpu, loaded, plan, true, NoReply);
      if plan == [] {
        availableVramMb := firstFreeMb;
        if availableVramMb >= neededMb {
          GivenHasRoom(answer, Demand(neededMb, headroomMb, totalVramMb));
          return true, answer;
        }
      }
      ghost var at;
      ok, at := UnloadAndWait(plan, names, neededMb, polls);
      if ok {
        answer := Answer(listing, whisperGpu, loaded, plan, false, polls[at].reply);
        GivenHasRoom(answer, Demand(neededMb, headroomMb, totalVramMb));
      } else {
        lastRefusal := Some(VramTimeout(neededMb, availableVramMb));
      }
    }

    /** The unloads and the wait, under the busy flag. */
    method UnloadAndWait(plan: seq<string>, names: seq<string>, neededMb: nat, polls: seq<Poll>)
      returns (ok: bool, ghost at: nat)
      modifies this`commands, this`availableVramMb, this`vramWaitBusy
      ensures !vramWaitBusy
      ensures commands == old(commands) + (CarriedOut(plan) + WaitLog(polls, Keep(names, plan), neededMb))
      ensures availableVramMb == LastFree(polls, Keep(names, plan), neededMb, old(availableVramMb))
      ensures ok ==> at < |polls| && forall n | n in Shown(polls[at].reply) :: n in Keep(names, plan)
      ensures ok ==> availableVramMb == polls[at].freeMb >= neededMb
      ensures !ok ==> forall i | 0 <= i < |polls| :: NoRoomYet(polls[i], Keep(names, plan), neededMb)
    {
      vramWaitBusy := true;
      CarryOut(plan);
      ok, at := WaitForRoom(neededMb, Keep(names, plan), polls);
      vramWaitBusy := false;
    }
  }

  lemma {:induction false} NamesOf(rs: seq<Resident>)
    ensures |Names(rs)| == |rs| && forall i | 0 <= i < |rs| :: Names(rs)[i] == rs[i].name
  {
    if rs != [] {
      NamesOf(rs[1..]);
    }
  }

  /** What the planner is given and what it answers. */
  lemma PlanGiven(rm: ResourceManager, modelType: string, neededMb: nat, listing: Reply, loaded: seq<Resident>)
    requires var names := ResidentNames(listing, rm.whisperGpu);
      |loaded| == |names| && forall i | 0 <= i < |names| :: loaded[i].name == names[i]
    ensures var plan := rm.PlanFor(modelType, neededMb, loaded);
      && Names(loaded) == ResidentNames(listing, rm.whisperGpu)
      && (forall n | n in plan :: n in Names(loaded))
      && (EvictsAll(loaded, plan) || Fits(KeptSum(loaded, plan), Demand(neededMb, rm.headroomMb, rm.totalVramMb)))
  {
    NamesOf(loaded);
    var d := Demand(neededMb, rm.headroomMb, rm.totalVramMb);
    if !rm.coResidency || rm.totalVramMb == 0 {
      assert forall i | 0 <= i < |loaded| :: loaded[i].name == Names(loaded)[i];
    } else {
      PlanMakesRoom(loaded, d, {modelType});
      PlanNames(loaded, d, {modelType});
    }
  }

  /** The models that a positive answer was shown leave room for the demand. */
  lemma GivenHasRoom(a: Answer, d: Demand)
    requires Given(a, d)
    ensures Room(a.seen, a.plan, d, LastShown(a))
  {
    NamesIn(a.seen);
    NamesOf(a.seen);
    var final := LastShown(a);
    forall n | n in final ensures n !in a.plan && exists r :: r in a.seen && r.name == n {
      assert n in Names(a.seen);
    }
    if final != [] {
      assert final[0] in final;
    }
  }

  /** Without co-residency, or with a card of unknown size, every resident goes; otherwise the planner decides. */
  lemma EvictionIs(rm: ResourceManager, modelType: string, neededMb: nat, loaded: seq<Resident>)
    ensures !rm.coResidency || rm.totalVramMb == 0 ==> rm.PlanFor(modelType, neededMb, loaded) == Names(loaded)
    ensures rm.coResidency && rm.totalVramMb > 0 ==>
      rm.PlanFor(modelType, neededMb, loaded) == Plan(loaded, Demand(neededMb, rm.headroomMb, rm.totalVramMb), {modelType})
  {
  }
}
