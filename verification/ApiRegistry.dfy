/**
 The registry that ties queue tasks to the API caller who owns them, and the
 script that registers one atomically.  Key lifetimes are not modelled.
 */
module ApiRegistry {
  import opened Wrappers

  /** The fields of a task hash; a hash written by someone else may lack some. */
  datatype Record = Record(login: Option<string>, session: Option<string>, endpoint: Option<string>, createdAt: Option<int>) {
    predicate Complete() {
      login.Some? && session.Some? && endpoint.Some? && createdAt.Some?
    }
  }

  /** Task hashes, and for every owner the time under which each task is listed. */
  datatype Registry = Registry(tasks: map<string, Record>, listed: map<string, map<string, int>>)

  function Listed(r: Registry, login: string): map<string, int> {
    if login in r.listed then r.listed[login] else map[]
  }

  /** What the caller asks the script to write. */
  datatype Claim = Claim(login: string, session: string, endpoint: string, now: int)

  /** The script may keep an existing record: it is complete and says the same. */
  predicate SameOwner(existing: Record, c: Claim) {
    && existing.Complete()
    && existing.login.value == c.login && existing.session.value == c.session && existing.endpoint.value == c.endpoint
  }

  function Register(r: Registry, taskId: string, c: Claim, onlyIfAbsent: bool): (Registry, bool) {
    var keep := onlyIfAbsent && taskId in r.tasks;
    if keep && !SameOwner(r.tasks[taskId], c) then (r, false)
    else
      var createdAt := if keep then r.tasks[taskId].createdAt.value else c.now;
      var tasks := if keep then r.tasks
                   else r.tasks[taskId := Record(Some(c.login), Some(c.session), Some(c.endpoint), Some(c.now))];
      (Registry(tasks, r.listed[c.login := Listed(r, c.login)[taskId := createdAt]]), true)
  }

  /** `register_api_task`, run by its caller. */
  class ApiRegistryStore {
    var state: Registry

    constructor ()
      ensures state == Registry(map[], map[])
    {
      state := Registry(map[], map[]);
    }

    method RegisterTask(taskId: string, c: Claim, onlyIfAbsent: bool) returns (ok: bool)
      modifies this
      ensures (state, ok) == Register(old(state), taskId, c, onlyIfAbsent)
    {
      var createdAt := c.now;
      if onlyIfAbsent && taskId in state.tasks {
        var existing := state.tasks[taskId];
        if existing.login.None? || existing.session.None? || existing.endpoint.None? || existing.createdAt.None? {
          return false;
        }
        if existing.login.value != c.login {
          return false;
        }
        if existing.session.value != c.session || existing.endpoint.value != c.endpoint {
          return false;
        }
        createdAt := existing.createdAt.value;
      } else {
        state := state.(tasks := state.tasks[taskId := Record(Some(c.login), Some(c.session), Some(c.endpoint), Some(c.now))]);
      }
      state := state.(listed := state.listed[c.login := Listed(state, c.login)[taskId := createdAt]]);
      ok := true;
    }

    /** Carries the ownership of a task over to the one it was requeued as. */
    method RegisterRequeued(login: string, previousId: string, nextId: string, now: int) returns (ok: bool)
      modifies this
      ensures (state, ok) == Requeue(old(state), login, previousId, nextId, now)
    {
      if previousId !in state.tasks {
        return false;
      }
      var metadata := state.tasks[previousId];
      if metadata.login != Some(login) {
        return false;
      }
      ok := RegisterTask(nextId, Claim(login, Field(metadata.session), Field(metadata.endpoint), now), true);
    }
  }

  /** A missing field reads as the empty text. */
  function Field(f: Option<string>): string {
    if f.Some? then f.value else ""
  }

  function Requeue(r: Registry, login: string, previousId: string, nextId: string, now: int): (Registry, bool) {
    if previousId in r.tasks && r.tasks[previousId].login == Some(login) then
      Register(r, nextId, Claim(login, Field(r.tasks[previousId].session), Field(r.tasks[previousId].endpoint), now), true)
    else (r, false)
  }

  // ---- ownership ---------------------------------------------------------------------------

  predicate OwnedBy(r: Registry, taskId: string, login: string) {
    taskId in r.tasks && r.tasks[taskId].login == Some(login)
  }

  /** Every record of `before` is in `after`, unchanged. */
  ghost predicate Preserves(before: Registry, after: Registry) {
    forall t | t in before.tasks :: t in after.tasks && after.tasks[t] == before.tasks[t]
  }

  /**
   A careful registration succeeds exactly when the id is free or already says the
   same; then the id belongs to the caller, and no existing record ever changes.
   */
  lemma CarefulRegistration(r: Registry, taskId: string, c: Claim)
    ensures var (after, ok) := Register(r, taskId, c, true);
      && (ok <==> taskId !in r.tasks || SameOwner(r.tasks[taskId], c))
      && (ok ==> OwnedBy(after, taskId, c.login) && taskId in Listed(after, c.login))
      && (!ok ==> after == r)
      && Preserves(r, after)
      && forall login | login != c.login :: Listed(after, login) == Listed(r, login)
  {
  }

  /**
   What a careful registration looks at and writes: an existing hash must have all four
   fields and the caller's login, session and endpoint, and keeps its own creation time.
   */
  lemma CarefulLooks(r: Registry, taskId: string, c: Claim)
    ensures var (after, ok) := Register(r, taskId, c, true);
      if taskId in r.tasks then
        && (var found := r.tasks[taskId];
            ok <==> found.login == Some(c.login) && found.session == Some(c.session)
                    && found.endpoint == Some(c.endpoint) && found.createdAt.Some?)
        && (ok ==> after.tasks == r.tasks && Some(Listed(after, c.login)[taskId]) == r.tasks[taskId].createdAt)
      else
        && ok && Listed(after, c.login) == Listed(r, c.login)[taskId := c.now]
        && after.tasks == r.tasks[taskId := Record(Some(c.login), Some(c.session), Some(c.endpoint), Some(c.now))]
  {
  }

  /** An unconditional one writes the hash anew, whatever was there. */
  lemma PlainWrites(r: Registry, taskId: string, c: Claim)
    ensures var (after, ok) := Register(r, taskId, c, false);
      && ok && Listed(after, c.login) == Listed(r, c.login)[taskId := c.now]
      && after.tasks == r.tasks[taskId := Record(Some(c.login), Some(c.session), Some(c.endpoint), Some(c.now))]
  {
  }

  /** The claim under which a requeued task is registered. */
  function Inherited(r: Registry, login: string, previousId: string, now: int): Claim
    requires previousId in r.tasks
  {
    Claim(login, Field(r.tasks[previousId].session), Field(r.tasks[previousId].endpoint), now)
  }

  /**
   A requeue is followed exactly when the caller owns the previous task and the new
   id is free or already carries the same ownership; then the new id is the caller's.
   */
  lemma RequeueCarriesOwnership(r: Registry, login: string, previousId: string, nextId: string, now: int)
    ensures var (after, ok) := Requeue(r, login, previousId, nextId, now);
      && Preserves(r, after)
      && (ok ==> OwnedBy(after, nextId, login))
      && (ok <==> OwnedBy(r, previousId, login)
                  && (nextId !in r.tasks || SameOwner(r.tasks[nextId], Inherited(r, login, previousId, now))))
  {
    if OwnedBy(r, previousId, login) {
      CarefulRegistration(r, nextId, Inherited(r, login, previousId, now));
    }
  }

  /** An existing record changes exactly when the registration is unconditional and says something else. */
  lemma RegistrationChangesIff(r: Registry, taskId: string, c: Claim, onlyIfAbsent: bool)
    ensures !Preserves(r, Register(r, taskId, c, onlyIfAbsent).0)
            <==> !onlyIfAbsent && taskId in r.tasks
                 && r.tasks[taskId] != Record(Some(c.login), Some(c.session), Some(c.endpoint), Some(c.now))
  {
    if onlyIfAbsent {
      CarefulRegistration(r, taskId, c);
    } else {
      assert taskId in Register(r, taskId, c, false).0.tasks;
    }
  }

  // ---- runs of many callers -------------------------------------------------------------------

  /** What callers do: register an id without a look, follow a requeue, drop a task. */
  datatype Operation =
    | Submit(taskId: string, claim: Claim)
    | Follow(login: string, previousId: string, nextId: string, now: int)
    | Remove(login: string, taskId: string)
  {
    function Caller(): string {
      match this
      case Submit(_, claim) => claim.login
      case Follow(login, _, _, _) => login
      case Remove(login, _) => login
    }
  }

  /** A removal of a foreign or unknown task is refused. */
  function Apply(r: Registry, op: Operation): Registry {
    match op
    case Submit(taskId, claim) => Register(r, taskId, claim, false).0
    case Follow(login, previousId, nextId, now) => Requeue(r, login, previousId, nextId, now).0
    case Remove(login, taskId) =>
      if OwnedBy(r, taskId, login) then Registry(r.tasks - {taskId}, r.listed[login := Listed(r, login) - {taskId}])
      else r
  }

  /** A caller's own task is gone after its removal, from the hashes and from his list; nothing else is. */
  lemma RemovesOwn(r: Registry, login: string, taskId: string)
    ensures var after := Apply(r, Remove(login, taskId));
      if taskId in r.tasks && r.tasks[taskId].login == Some(login) then
        && after.tasks == r.tasks - {taskId} && Listed(after, login) == Listed(r, login) - {taskId}
        && forall other | other != login :: Listed(after, other) == Listed(r, other)
      else after == r
  {
  }

  /** A fresh id that a task is requeued as carries the session and endpoint of the task before; a missing one is empty. */
  lemma RequeueWrites(r: Registry, login: string, previousId: string, nextId: string, now: int)
    requires OwnedBy(r, previousId, login) && nextId !in r.tasks
    ensures var before := r.tasks[previousId];
      Requeue(r, login, previousId, nextId, now).0.tasks[nextId]
      == Record(Some(login), if before.session.None? then Some("") else before.session,
                if before.endpoint.None? then Some("") else before.endpoint, Some(now))
  {
  }

  function ApplyAll(r: Registry, ops: seq<Operation>): Registry {
    if ops == [] then r else Apply(ApplyAll(r, ops[..|ops| - 1]), ops[|ops| - 1])
  }

  /** The records and the list of one caller are the same in both. */
  ghost predicate SameFor(login: string, before: Registry, after: Registry) {
    && (forall t | OwnedBy(before, t, login) :: t in after.tasks && after.tasks[t] == before.tasks[t])
    && (forall t | OwnedBy(after, t, login) :: OwnedBy(before, t, login))
    && Listed(after, login) == Listed(before, login)
  }

  /** Nothing new belongs to the caller. */
  ghost predicate NoGain(login: string, before: Registry, after: Registry) {
    && (forall t | OwnedBy(after, t, login) :: OwnedBy(before, t, login) && after.tasks[t] == before.tasks[t])
    && Listed(after, login) == Listed(before, login)
  }

  ghost predicate NoLoss(login: string, before: Registry, after: Registry) {
    forall t | OwnedBy(before, t, login) :: OwnedBy(after, t, login)
  }

  lemma SameIff(login: string, before: Registry, after: Registry)
    requires NoGain(login, before, after)
    ensures SameFor(login, before, after) <==> NoLoss(login, before, after)
  {
  }

  /** The operation registers, without a look, an id that is the caller's. */
  predicate Overwrites(login: string, r: Registry, op: Operation) {
    op.Submit? && OwnedBy(r, op.taskId, login)
  }

  /** One operation of another caller gives nothing, and takes exactly what it overwrites. */
  lemma OthersStep(login: string, r: Registry, op: Operation)
    requires op.Caller() != login
    ensures NoGain(login, r, Apply(r, op))
    ensures NoLoss(login, r, Apply(r, op)) <==> !Overwrites(login, r, op)
  {
    if Overwrites(login, r, op) {
      assert !OwnedBy(Apply(r, op), op.taskId, login);
    }
  }

  /** No operation of the run overwrites a task of the caller. */
  predicate NothingOverwritten(login: string, r: Registry, ops: seq<Operation>) {
    ops == []
    || (var front := ops[..|ops| - 1];
        NothingOverwritten(login, r, front) && !Overwrites(login, ApplyAll(r, front), ops[|ops| - 1]))
  }

  lemma NoLossStep(login: string, r: Registry, mid: Registry, after: Registry)
    requires NoGain(login, r, mid) && NoGain(login, mid, after)
    ensures NoGain(login, r, after)
    ensures NoLoss(login, r, after) <==> NoLoss(login, r, mid) && NoLoss(login, mid, after)
  {
  }

  lemma {:induction false} OthersRun(login: string, r: Registry, ops: seq<Operation>)
    requires forall op | op in ops :: op.Caller() != login
    ensures NoGain(login, r, ApplyAll(r, ops))
    ensures NoLoss(login, r, ApplyAll(r, ops)) <==> NothingOverwritten(login, r, ops)
  {
    if ops != [] {
      var front := ops[..|ops| - 1];
      var mid := ApplyAll(r, front);
      OthersRun(login, r, front);
      OthersStep(login, mid, ops[|ops| - 1]);
      NoLossStep(login, r, mid, Apply(mid, ops[|ops| - 1]));
    }
  }

  /**
   However other callers register, follow and remove, the tasks of a caller stay the
   same and none is added, exactly when none of his ids is registered without a look.
   */
  lemma OwnershipIsolated(login: string, r: Registry, ops: seq<Operation>)
    requires forall op | op in ops :: op.Caller() != login
    ensures SameFor(login, r, ApplyAll(r, ops)) <==> NothingOverwritten(login, r, ops)
  {
    OthersRun(login, r, ops);
    SameIff(login, r, ApplyAll(r, ops));
  }

  /** In particular when every submitted id is unknown at that moment. */
  predicate IdsFresh(r: Registry, ops: seq<Operation>) {
    ops == []
    || (var front := ops[..|ops| - 1];
        IdsFresh(r, front) && (ops[|ops| - 1].Submit? ==> ops[|ops| - 1].taskId !in ApplyAll(r, front).tasks))
  }

  lemma {:induction false} FreshIdsIsolate(login: string, r: Registry, ops: seq<Operation>)
    requires (forall op | op in ops :: op.Caller() != login) && IdsFresh(r, ops)
    ensures SameFor(login, r, ApplyAll(r, ops))
  {
    FreshOverwritesNothing(login, r, ops);
    OwnershipIsolated(login, r, ops);
  }

  lemma {:induction false} FreshOverwritesNothing(login: string, r: Registry, ops: seq<Operation>)
    requires IdsFresh(r, ops)
    ensures NothingOverwritten(login, r, ops)
  {
    if ops != [] {
      FreshOverwritesNothing(login, r, ops[..|ops| - 1]);
    }
  }
}
