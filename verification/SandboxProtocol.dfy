/**
 The parent and the forked child of the analysis sandbox, talking over two pipes.
 The messages carry the number of the exec they belong to; the real ones do not,
 and the point of the invariant is that they need not.
 */
module SandboxProtocol {
  import opened Wrappers

  datatype ToChild = ExecCode(id: nat) | CallbackResult(id: nat, call: nat) | Shutdown

  datatype FromChild = Callback(id: nat, call: nat) | Done(id: nat, output: string) | Failed(id: nat, error: string)

  datatype Child = Reading | Running(id: nat) | InCallback(id: nat, call: nat) | Dead

  datatype Parent = Idle | Awaiting

  /** What one `exec` call returned. */
  datatype Result = Rejected | NotStarted | Output(text: string) | Error(text: string) | TimedOut | Died

  /**
   `started` counts the exec calls and `results` their answers; `produced` records
   what the child computed for each exec; `confused` is raised when a side reads a
   message of a kind it does not expect.
   */
  datatype State = State(
    parent: Parent, open: bool, child: Child,
    toChild: seq<ToChild>, fromChild: seq<FromChild>,
    calls: nat, started: nat, results: seq<Result>, produced: map<nat, Result>, confused: bool)

  datatype Action =
    | Start
    | Exec(valid: bool)
    | Receive | Timeout | Hangup
    | Close
    | ChildRead | ChildCall | ChildDone(output: string) | ChildFail(error: string) | ChildDie

  function Initial(): State {
    State(Idle, false, Dead, [], [], 0, 0, [], map[], false)
  }

  /** The parent's view of a broken or stuck child: kill it and drop both connections. */
  function Killed(s: State, r: Result): State {
    s.(parent := Idle, open := false, child := Dead, toChild := [], fromChild := [], results := s.results + [r])
  }

  predicate Enabled(s: State, a: Action) {
    match a
    case Start => s.parent.Idle? && !s.open
    case Exec(_) => s.parent.Idle?
    case Receive => s.parent.Awaiting? && s.fromChild != []
    case Timeout => s.parent.Awaiting?
    case Hangup => s.parent.Awaiting? && s.fromChild == [] && s.child.Dead?
    case Close => s.parent.Idle?
    case ChildRead => s.open && (s.child.Reading? || s.child.InCallback?) && s.toChild != []
    case ChildCall => s.open && s.child.Running?
    case ChildDone(_) => s.open && s.child.Running?
    case ChildFail(_) => s.open && s.child.Running?
    case ChildDie => s.open && !s.child.Dead?
  }

  /** `exec`: rejected code, no child, a pipe without reader, or a message on its way. */
  function ExecStep(s: State, valid: bool): State {
    var s1 := s.(started := s.started + 1);
    if !valid then s1.(results := s.results + [Rejected])
    else if !s.open then s1.(results := s.results + [NotStarted])
    else if s.child.Dead? then Killed(s1, Died)
    else s1.(parent := Awaiting, toChild := s.toChild + [ExecCode(s.started)])
  }

  /** One message read by the parent's loop. */
  function ReceiveStep(s: State): State
    requires s.fromChild != []
  {
    var s1 := s.(fromChild := s.fromChild[1..]);
    match s.fromChild[0]
    case Callback(id, call) =>
      if s.child.Dead? then Killed(s1, Died)
      else s1.(toChild := s.toChild + [CallbackResult(id, call)])
    case Done(_, output) => s1.(parent := Idle, results := s.results + [Output(output)])
    case Failed(_, error) => s1.(parent := Idle, results := s.results + [Error(error)])
  }

  /** One message read by the child: a command, or the answer its callback waits for. */
  function ChildReadStep(s: State): State
    requires s.toChild != []
  {
    var s1 := s.(toChild := s.toChild[1..]);
    match s.toChild[0]
    case ExecCode(id) =>
      if s.child.Reading? then s1.(child := Running(id)) else s1.(confused := true)
    case CallbackResult(id, call) =>
      if s.child == InCallback(id, call) then s1.(child := Running(id)) else s1.(confused := true)
    case Shutdown => s1.(child := Dead)
  }

  function Next(s: State, a: Action): State
    requires Enabled(s, a)
  {
    match a
    case Start => s.(open := true, child := Reading, toChild := [], fromChild := [])
    case Exec(valid) => ExecStep(s, valid)
    case Receive => ReceiveStep(s)
    case Timeout => Killed(s, TimedOut)
    case Hangup => Killed(s, Died)
    case Close => s.(open := false, child := Dead, toChild := [], fromChild := [])
    case ChildRead => ChildReadStep(s)
    case ChildCall =>
      s.(child := InCallback(s.child.id, s.calls), calls := s.calls + 1,
         fromChild := s.fromChild + [Callback(s.child.id, s.calls)])
    case ChildDone(output) =>
      s.(child := Reading, fromChild := s.fromChild + [Done(s.child.id, output)],
         produced := s.produced[s.child.id := Output(output)])
    case ChildFail(error) =>
      s.(child := Reading, fromChild := s.fromChild + [Failed(s.child.id, error)],
         produced := s.produced[s.child.id := Error(error)])
    case ChildDie => s.(child := Dead)
  }

  // ---- the invariant -------------------------------------------------------------------

  /** The only states of the line while the parent waits for exec `id`. */
  predicate Line(s: State, id: int) {
    match s.child
    case Reading =>
      || (id >= 0 && s.toChild == [ExecCode(id)] && s.fromChild == [])
      || (s.toChild == [] && |s.fromChild| == 1 && Answers(s, s.fromChild[0], id))
    case Running(i) => i == id && s.toChild == [] && s.fromChild == []
    case InCallback(i, call) =>
      i == id && ((s.toChild == [] && s.fromChild == [Callback(i, call)])
                  || (s.toChild == [CallbackResult(i, call)] && s.fromChild == []))
    case Dead =>
      |s.toChild| + |s.fromChild| <= 1 && (s.fromChild != [] ==> Answers(s, s.fromChild[0], id) || s.fromChild[0].Callback?)
  }

  /** A final message of exec `id` that carries what the child produced for it. */
  predicate Answers(s: State, m: FromChild, id: int) {
    match m
    case Callback(_, _) => false
    case Done(i, output) => i == id && i in s.produced && s.produced[i] == Output(output)
    case Failed(i, error) => i == id && i in s.produced && s.produced[i] == Error(error)
  }

  /** Every returned output or error is the one the child produced for that very exec. */
  predicate OwnResults(s: State) {
    forall i | 0 <= i < |s.results| && (s.results[i].Output? || s.results[i].Error?) ::
      i in s.produced && s.produced[i] == s.results[i]
  }

  /** The child computes for calls that were made, and what it computed for the pending one is on its way. */
  predicate Produced(s: State) {
    && (forall k | k in s.produced :: k < s.started)
    && (s.parent.Awaiting? && s.started - 1 in s.produced ==>
          s.fromChild != [] && Answers(s, s.fromChild[0], s.started - 1))
  }

  predicate Invariant(s: State) {
    && !s.confused && OwnResults(s) && Produced(s)
    && |s.results| == (if s.parent.Idle? then s.started else s.started - 1)
    && (!s.open ==> s.parent.Idle? && s.child.Dead? && s.toChild == [] && s.fromChild == [])
    && (s.open && s.parent.Idle? ==> s.toChild == [] && s.fromChild == [] && (s.child.Reading? || s.child.Dead?))
    && (s.parent.Awaiting? ==> s.open && s.started > 0 && Line(s, s.started - 1))
  }

  lemma ParentKeepsInvariant(s: State, a: Action)
    requires Invariant(s) && Enabled(s, a)
    requires a.Start? || a.Exec? || a.Timeout? || a.Hangup? || a.Close?
    ensures Invariant(Next(s, a))
  {
  }

  lemma ReceiveKeepsInvariant(s: State)
    requires Invariant(s) && Enabled(s, Receive)
    ensures Invariant(Next(s, Receive))
  {
  }

  lemma ChildReadKeepsInvariant(s: State)
    requires Invariant(s) && Enabled(s, ChildRead)
    ensures Invariant(Next(s, ChildRead))
  {
  }

  lemma ChildKeepsInvariant(s: State, a: Action)
    requires Invariant(s) && Enabled(s, a)
    requires a.ChildCall? || a.ChildDone? || a.ChildFail? || a.ChildDie?
    ensures Invariant(Next(s, a))
  {
  }

  lemma StepKeepsInvariant(s: State, a: Action)
    requires Invariant(s) && Enabled(s, a)
    ensures Invariant(Next(s, a))
  {
    if a.Receive? {
      ReceiveKeepsInvariant(s);
    } else if a.ChildRead? {
      ChildReadKeepsInvariant(s);
    } else if a.ChildCall? || a.ChildDone? || a.ChildFail? || a.ChildDie? {
      ChildKeepsInvariant(s, a);
    } else {
      ParentKeepsInvariant(s, a);
    }
  }

  // ---- every interleaving ---------------------------------------------------------------

  /** The state after a sequence of actions, if each was possible when its turn came. */
  function Run(actions: seq<Action>): Option<State> {
    if actions == [] then Some(Initial())
    else
      var before := Run(actions[..|actions| - 1]);
      var a := actions[|actions| - 1];
      if before.Some? && Enabled(before.value, a) then Some(Next(before.value, a)) else None
  }

  lemma {:induction false} RunInvariant(actions: seq<Action>)
    requires Run(actions).Some?
    ensures Invariant(Run(actions).value)
  {
    if actions != [] {
      var front := actions[..|actions| - 1];
      RunInvariant(front);
      StepKeepsInvariant(Run(front).value, actions[|actions| - 1]);
    }
  }

  function ExecCalls(actions: seq<Action>): nat {
    if actions == [] then 0
    else ExecCalls(actions[..|actions| - 1]) + (if actions[|actions| - 1].Exec? then 1 else 0)
  }

  lemma {:induction false} StartedCountsExecs(actions: seq<Action>)
    requires Run(actions).Some?
    ensures Run(actions).value.started == ExecCalls(actions)
  {
    if actions != [] {
      StartedCountsExecs(actions[..|actions| - 1]);
    }
  }

  /**
   In every interleaving of exec calls, callbacks, deaths and timeouts: one message
   at most is in flight, no side reads a message it does not expect, every exec
   call that returned has exactly one result, and a result that came from the
   child is what the child produced for that call and no other.
   */
  lemma NoReplyForAnotherExec(actions: seq<Action>)
    requires Run(actions).Some?
    ensures var s := Run(actions).value;
      && |s.toChild| + |s.fromChild| <= 1 && !s.confused
      && |s.results| == ExecCalls(actions) - (if s.parent.Awaiting? then 1 else 0)
      && OwnResults(s)
  {
    RunInvariant(actions);
    StartedCountsExecs(actions);
  }

  /** Whenever no exec is pending: both pipes are empty and the child waits or has died, or both connections are gone. */
  lemma QuietBetweenExecs(actions: seq<Action>)
    requires Run(actions).Some? && Run(actions).value.parent.Idle?
    ensures var s := Run(actions).value;
      && s.toChild == [] && s.fromChild == []
      && (s.child.Dead? || (s.open && s.child.Reading?))
  {
    RunInvariant(actions);
  }

  /** Results are never rewritten. */
  lemma {:induction false} ResultsGrow(actions: seq<Action>, k: nat)
    requires Run(actions).Some? && k <= |actions|
    ensures Run(actions[..k]).Some? && Run(actions[..k]).value.results <= Run(actions).value.results
    decreases |actions|
  {
    if k < |actions| {
      var front := actions[..|actions| - 1];
      ResultsGrow(front, k);
      assert front[..k] == actions[..k];
      StepAppends(Run(front).value, actions[|actions| - 1]);
    } else {
      assert actions[..k] == actions;
    }
  }

  lemma StepAppends(s: State, a: Action)
    requires Enabled(s, a)
    ensures s.results <= Next(s, a).results
  {
  }

  /** A pending exec is never stuck: without the clock some other step is possible, and the clock ends it. */
  lemma PendingExecCanReturn(actions: seq<Action>)
    requires Run(actions).Some? && Run(actions).value.parent.Awaiting?
    ensures var s := Run(actions).value;
      && (exists a: Action :: !a.Timeout? && !a.ChildDie? && Enabled(s, a))
      && Enabled(s, Timeout) && Next(s, Timeout).parent.Idle?
  {
    RunInvariant(actions);
    var s := Run(actions).value;
    var a := if s.fromChild != [] then Receive
             else if s.child.Running? then ChildDone("")
             else if s.child.Dead? then Hangup else ChildRead;
    assert Enabled(s, a);
  }

  // ---- what each exec returns ----------------------------------------------------------------

  /** One exec call: whether its code passed the check, and whether a child was connected. */
  datatype Call = Call(valid: bool, open: bool)

  function Calls(actions: seq<Action>): seq<Call>
    requires Run(actions).Some?
  {
    if actions == [] then []
    else
      var front, a := actions[..|actions| - 1], actions[|actions| - 1];
      if a.Exec? then Calls(front) + [Call(a.valid, Run(front).value.open)] else Calls(front)
  }

  /** Exec `k` is one of the calls, its code passed, and a child was there. */
  predicate Runs(calls: seq<Call>, k: int) {
    0 <= k < |calls| && calls[k].valid && calls[k].open
  }

  /** Results, answers and messages in flight match the calls. */
  predicate Matches(s: State, calls: seq<Call>) {
    && |calls| == s.started && |s.results| <= |calls|
    && (forall k | 0 <= k < |s.results| ::
          (s.results[k] == Rejected <==> !calls[k].valid)
          && (s.results[k] == NotStarted <==> calls[k].valid && !calls[k].open))
    && (s.parent.Awaiting? ==> Runs(calls, s.started - 1))
    && (forall k | k in s.produced :: Runs(calls, k))
    && (forall m | m in s.toChild && m.ExecCode? :: Runs(calls, m.id))
  }

  lemma ExecMatches(s: State, calls: seq<Call>, valid: bool)
    requires Invariant(s) && Matches(s, calls) && Enabled(s, Exec(valid))
    ensures Matches(Next(s, Exec(valid)), calls + [Call(valid, s.open)])
  {
  }

  lemma OtherMatches(s: State, calls: seq<Call>, a: Action)
    requires Invariant(s) && Matches(s, calls) && Enabled(s, a) && !a.Exec?
    ensures Matches(Next(s, a), calls)
  {
  }

  lemma {:induction false} RunMatches(actions: seq<Action>)
    requires Run(actions).Some?
    ensures Matches(Run(actions).value, Calls(actions))
  {
    if actions != [] {
      var front, a := actions[..|actions| - 1], actions[|actions| - 1];
      RunInvariant(front);
      RunMatches(front);
      if a.Exec? {
        ExecMatches(Run(front).value, Calls(front), a.valid);
      } else {
        OtherMatches(Run(front).value, Calls(front), a);
      }
    }
  }

  /**
   In every interleaving: an exec returns `Rejected` exactly when its code did not pass,
   and `NotStarted` exactly when it did and no child was connected; then its code is
   never on the pipe and the child computes nothing for it.
   */
  lemma RejectedNeverRuns(actions: seq<Action>, k: nat)
    requires Run(actions).Some? && k < |Calls(actions)|
    ensures var s, call := Run(actions).value, Calls(actions)[k];
      && (k < |s.results| ==> (s.results[k] == Rejected <==> !call.valid))
      && (k < |s.results| ==> (s.results[k] == NotStarted <==> call.valid && !call.open))
      && (!call.valid || !call.open ==> k !in s.produced && ExecCode(k) !in s.toChild && s.child != Running(k))
  {
    RunInvariant(actions);
    RunMatches(actions);
  }

  /** Each result has its reason: the check, the missing child, a death, the clock, or the child's own message. */
  lemma ResultReasons(s: State, a: Action, r: Result)
    requires Invariant(s) && Enabled(s, a) && Next(s, a).results == s.results + [r]
    ensures r == Rejected <==> a == Exec(false)
    ensures r == NotStarted <==> a == Exec(true) && !s.open
    ensures r == TimedOut <==> a == Timeout
    ensures r == Died <==> s.child.Dead? && s.open && (a == Exec(true) || a == Hangup || (a == Receive && s.fromChild[0].Callback?))
    ensures r.Output? <==> a == Receive && s.fromChild[0].Done?
    ensures r.Error? <==> a == Receive && s.fromChild[0].Failed?
    ensures r == TimedOut || r == Died ==> !Next(s, a).open && Next(s, a).child.Dead?
    ensures r != TimedOut && r != Died ==> Next(s, a).open == s.open && Next(s, a).child == s.child
  {
    assert Next(s, a).results[|s.results|] == r;
  }

  // ---- the parent's loop ------------------------------------------------------------------

  predicate IsChildAction(a: Action) {
    a.ChildRead? || a.ChildCall? || a.ChildDone? || a.ChildFail? || a.ChildDie?
  }

  /** A result of an exec that ran: after a death or the clock the line is closed, otherwise it stays open. */
  predicate Answered(s: State, r: Result) {
    if s.open then r.Output? || r.Error? else r == TimedOut || r == Died
  }

  /** The child's actions between two turns of the parent; impossible ones are skipped. */
  function ChildRun(s: State, actions: seq<Action>): State {
    if actions == [] then s
    else
      var before := ChildRun(s, actions[..|actions| - 1]);
      var a := actions[|actions| - 1];
      if IsChildAction(a) && Enabled(before, a) then Next(before, a) else before
  }

  /** One turn of the parent's loop, after the child has acted: read a message, or see that the child is gone. */
  function ParentTurn(s: State): State
    requires s.parent.Awaiting?
  {
    if s.fromChild != [] then Next(s, Receive) else if s.child.Dead? then Next(s, Hangup) else s
  }

  /** A pending exec after some turns and the deadline behind them. */
  function Turns(s: State, turns: seq<seq<Action>>): State
    requires Invariant(s) && s.parent.Awaiting?
    decreases turns
  {
    if turns == [] then Next(s, Timeout)
    else
      ChildRunKeeps(s, turns[0]);
      var s1 := ChildRun(s, turns[0]);
      ParentTurnKeeps(s1);
      var s2 := ParentTurn(s1);
      if s2.parent.Idle? then s2 else Turns(s2, turns[1..])
  }

  lemma ChildStepKeeps(s: State, a: Action)
    requires Invariant(s) && s.parent.Awaiting? && IsChildAction(a) && Enabled(s, a)
    ensures Invariant(Next(s, a)) && Next(s, a).parent.Awaiting?
    ensures Next(s, a).results == s.results && Next(s, a).started == s.started
  {
    StepKeepsInvariant(s, a);
  }

  lemma {:induction false} ChildRunKeeps(s: State, actions: seq<Action>)
    requires Invariant(s) && s.parent.Awaiting?
    ensures var t := ChildRun(s, actions);
      Invariant(t) && t.parent.Awaiting? && t.results == s.results && t.started == s.started
  {
    if actions != [] {
      var front, a := actions[..|actions| - 1], actions[|actions| - 1];
      ChildRunKeeps(s, front);
      if IsChildAction(a) && Enabled(ChildRun(s, front), a) {
        ChildStepKeeps(ChildRun(s, front), a);
      }
    }
  }

  lemma ParentTurnKeeps(s: State)
    requires Invariant(s) && s.parent.Awaiting?
    ensures var t := ParentTurn(s);
      && Invariant(t) && t.started == s.started
      && (t.parent.Awaiting? ==> t.results == s.results)
      && (t.parent.Idle? ==> |t.results| == |s.results| + 1 && s.results <= t.results
                             && t.results[|s.results|] != TimedOut && Answered(t, t.results[|s.results|]))
  {
    if s.fromChild != [] {
      StepKeepsInvariant(s, Receive);
    } else if s.child.Dead? {
      StepKeepsInvariant(s, Hangup);
    }
  }

  /** Behind a turn that does not end the exec nothing is on its way, and the child lives. */
  lemma TurnGoesOn(s: State)
    requires Invariant(s) && s.parent.Awaiting? && ParentTurn(s).parent.Awaiting?
    ensures ParentTurn(s).fromChild == [] && !ParentTurn(s).child.Dead?
  {
  }

  /** A pending exec ends with exactly one result, and leaves the line quiet. */
  lemma {:induction false} TurnsAnswer(s: State, turns: seq<seq<Action>>)
    requires Invariant(s) && s.parent.Awaiting?
    ensures var t := Turns(s, turns);
      && Invariant(t) && t.parent.Idle? && t.started == s.started
      && |t.results| == |s.results| + 1 && s.results <= t.results && Answered(t, t.results[|s.results|])
    decreases turns
  {
    if turns == [] {
      StepKeepsInvariant(s, Timeout);
    } else {
      ChildRunKeeps(s, turns[0]);
      ParentTurnKeeps(ChildRun(s, turns[0]));
      if ParentTurn(ChildRun(s, turns[0])).parent.Awaiting? {
        TurnsAnswer(ParentTurn(ChildRun(s, turns[0])), turns[1..]);
      }
    }
  }

  /** The clock ends an exec only while the child lives, has nothing on its way, and has computed nothing for it. */
  lemma {:induction false} TimeoutMeansSilence(s: State, turns: seq<seq<Action>>) returns (e: State)
    requires Invariant(s) && s.parent.Awaiting? && s.fromChild == [] && !s.child.Dead?
    requires var r := Turns(s, turns).results; r != [] && r[|r| - 1] == TimedOut
    ensures Invariant(e) && e.parent.Awaiting? && e.fromChild == [] && !e.child.Dead? && e.started - 1 !in e.produced
    ensures Turns(s, turns) == Next(e, Timeout) && e.started == s.started
    decreases turns
  {
    e := s;
    if turns != [] {
      ChildRunKeeps(s, turns[0]);
      var s1 := ChildRun(s, turns[0]);
      ParentTurnKeeps(s1);
      if ParentTurn(s1).parent.Awaiting? {
        TurnGoesOn(s1);
        e := TimeoutMeansSilence(ParentTurn(s1), turns[1..]);
      }
    }
  }

  class RlmSandbox {
    var line: State

    ghost predicate Valid()
      reads this
    {
      Invariant(line) && line.parent.Idle?
    }

    constructor ()
      ensures Valid() && line == Initial()
    {
      line := Initial();
    }

    /** A fresh child on fresh pipes. */
    method StartChild()
      requires Valid() && !line.open
      modifies this
      ensures Valid() && line.open && line.child.Reading? && line.toChild == [] && line.fromChild == []
      ensures line.started == old(line.started) && line.results == old(line.results)
      ensures line.produced == old(line.produced)
    {
      StepKeepsInvariant(line, Start);
      line := Next(line, Start);
    }

    /** What the child does between two turns of the parent. */
    method ChildActs(actions: seq<Action>)
      requires Invariant(line) && line.parent.Awaiting?
      modifies this
      ensures line == ChildRun(old(line), actions)
    {
      for i := 0 to |actions|
        invariant line == ChildRun(old(line), actions[..i])
      {
        assert actions[..i + 1][..i] == actions[..i];
        if IsChildAction(actions[i]) && Enabled(line, actions[i]) {
          line := Next(line, actions[i]);
        }
      }
      assert actions[..|actions|] == actions;
    }

    /** The message loop of one exec; `turns` is what the child does before each poll, and its end is the deadline. */
    method ExecIo(turns: seq<seq<Action>>)
      requires Invariant(line) && line.parent.Awaiting?
      modifies this
      ensures line == Turns(old(line), turns)
    {
      for i := 0 to |turns|
        invariant Invariant(line) && line.parent.Awaiting?
        invariant Turns(old(line), turns) == Turns(line, turns[i..])
      {
        assert turns[i..][0] == turns[i] && turns[i..][1..] == turns[i + 1..];
        ChildRunKeeps(line, turns[i]);
        ParentTurnKeeps(ChildRun(line, turns[i]));
        ChildActs(turns[i]);
        if line.fromChild != [] {
          line := Next(line, Receive);
        } else if line.child.Dead? {
          line := Next(line, Hangup);
        }
        if line.parent.Idle? {
          return;
        }
      }
      line := Next(line, Timeout);
    }

    /** One call: exactly one more result, and the line is quiet again. */
    method Execute(valid: bool, turns: seq<seq<Action>>) returns (r: Result)
      requires Valid()
      modifies this
      ensures Valid() && line.started == old(line.started) + 1
      ensures line.results == old(line.results) + [r]
      ensures r.Output? || r.Error? ==>
        old(line.started) in line.produced && line.produced[old(line.started)] == r
      ensures r == Rejected <==> !valid
      ensures r == NotStarted <==> valid && !old(line.open)
      ensures !valid || !old(line.open) ==>
        line == old(line).(started := old(line.started) + 1, results := old(line.results) + [r])
      ensures valid && old(line.open) ==> Answered(line, r)
      ensures valid && old(line.open) && old(line.child).Dead? ==> r == Died
      ensures valid && old(line.open) && !old(line.child).Dead? ==>
        line == Turns(ExecStep(old(line), true), turns)
    {
      StepKeepsInvariant(line, Exec(valid));
      line := Next(line, Exec(valid));
      if line.parent.Awaiting? {
        TurnsAnswer(line, turns);
        ExecIo(turns);
      }
      r := line.results[|line.results| - 1];
    }
  }
}
