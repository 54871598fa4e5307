/**
 The generator that turns the events of a queued task into a stream of chunks,
 following the task through requeues.
 */
module ApiStream {
  import opened Wrappers
  import opened Words
  import opened ApiRegistry

  const HEARTBEAT: int := 15

  /** The result part of an envelope; `queuedAs` is the id a requeued task goes on under. */
  datatype Payload = Payload(isErrorStatus: bool, isError: bool, response: Option<string>, queuedAs: Option<string>)

  /** A pub/sub message: about a task, or of no use; without one the stored result is looked up. */
  datatype Message =
    | Token(taskId: string, token: string)
    | Completed(taskId: string, payload: Payload)
    | Noise
    | Silence(stored: Option<Payload>)

  /** One turn of the loop: what arrived, the registry at that moment, and the clock after it. */
  datatype Event = Event(message: Message, registry: Registry, now: int)

  datatype Chunk =
    | Role
    | Content(taskId: string, text: string)
    | Failure(code: string)
    | Stop
    | Usage
    | Ping
    | DoneMark

  /** Where the loop stands: the task that is followed, the tokens sent, the last heartbeat. */
  datatype Turn = Turn(active: string, emitted: string, lastBeat: int)

  /** The chunks that close a finished task. */
  function Terminal(p: Payload, active: string, emitted: string, includeUsage: bool): seq<Chunk> {
    if p.isErrorStatus || (p.isError && p.response.None?) then [Failure("task_failed"), DoneMark]
    else
      var final := if p.response.Some? then p.response.value else "";
      var tail := if emitted <= final then final[|emitted|..] else "";
      (if tail == "" then [] else [Content(active, tail)]) + [Stop] + (if includeUsage then [Usage] else []) + [DoneMark]
  }

  /** What one turn sends, and the loop's next position unless the stream is over. */
  datatype Effect = Effect(chunks: seq<Chunk>, next: Option<Turn>)

  datatype Call = Call(login: string, includeUsage: bool, deadline: int)

  /** A payload for the active task: follow the requeue, refuse it, or close the stream. */
  function Conclude(c: Call, t: Turn, p: Payload, r: Registry, now: int): Effect {
    if p.queuedAs.Some? && p.queuedAs.value != "" then
      if Requeue(r, c.login, t.active, p.queuedAs.value, now).1 then Effect([], Some(t.(active := p.queuedAs.value)))
      else Effect([Failure("task_failed"), DoneMark], None)
    else Effect(Terminal(p, t.active, t.emitted, c.includeUsage), None)
  }

  /** Heartbeat and deadline at the end of a turn. */
  function Tick(c: Call, t: Turn, now: int, sent: seq<Chunk>): Effect {
    var beat := now - t.lastBeat >= HEARTBEAT;
    var chunks := sent + (if beat then [Ping] else []);
    if now >= c.deadline then Effect(chunks + [Failure("task_timeout"), DoneMark], None)
    else Effect(chunks, Some(if beat then t.(lastBeat := now) else t))
  }

  function TurnEffect(c: Call, t: Turn, e: Event): Effect {
    match e.message
    case Token(taskId, token) =>
      if taskId == t.active && token != "" then
        Tick(c, t.(emitted := t.emitted + token), e.now, [Content(t.active, token)])
      else Tick(c, t, e.now, [])
    case Completed(taskId, payload) =>
      if taskId == t.active then Conclude(c, t, payload, e.registry, e.now) else Tick(c, t, e.now, [])
    case Noise => Tick(c, t, e.now, [])
    case Silence(stored) =>
      if stored.Some? then Conclude(c, t, stored.value, e.registry, e.now) else Tick(c, t, e.now, [])
  }

  /** The stream so far: `turn` is None once it is over. */
  datatype Stream = Stream(chunks: seq<Chunk>, turn: Option<Turn>)

  /** After the opening chunk and some events; later events of a finished stream are not read. */
  function After(c: Call, taskId: string, start: int, events: seq<Event>): Stream {
    if events == [] then Stream([Role], Some(Turn(taskId, "", start)))
    else
      var s := After(c, taskId, start, events[..|events| - 1]);
      if s.turn.None? then s
      else
        Advance(s, TurnEffect(c, s.turn.value, events[|events| - 1]))
  }

  function Advance(s: Stream, effect: Effect): Stream {
    Stream(s.chunks + effect.chunks, effect.next)
  }

  /** The body of the loop: take a token or a payload, then look at the clock. */
  method OneTurn(c: Call, t: Turn, e: Event) returns (effect: Effect)
    ensures effect == TurnEffect(c, t, e)
  {
    var payload: Option<Payload> := None;
    var emitted := t.emitted;
    var sent: seq<Chunk> := [];
    if e.message.Token? && e.message.taskId == t.active && e.message.token != "" {
      emitted := emitted + e.message.token;
      sent := [Content(t.active, e.message.token)];
    } else if e.message.Completed? && e.message.taskId == t.active {
      payload := Some(e.message.payload);
    } else if e.message.Silence? {
      payload := e.message.stored;
    }
    if payload.Some? {
      var p := payload.value;
      if p.queuedAs.Some? && p.queuedAs.value != "" {
        if !Requeue(e.registry, c.login, t.active, p.queuedAs.value, e.now).1 {
          return Effect([Failure("task_failed"), DoneMark], None);
        }
        return Effect([], Some(t.(active := p.queuedAs.value)));
      }
      return Effect(Terminal(p, t.active, emitted, c.includeUsage), None);
    }
    return Tick(c, Turn(t.active, emitted, t.lastBeat), e.now, sent);
  }

  /** The generator; it may be closed by the client after any event. */
  method StreamChat(c: Call, taskId: string, start: int, events: seq<Event>) returns (chunks: seq<Chunk>)
    ensures chunks == After(c, taskId, start, events).chunks
  {
    chunks := [Role];
    var turn := Turn(taskId, "", start);
    for i := 0 to |events|
      invariant After(c, taskId, start, events[..i]) == Stream(chunks, Some(turn))
    {
      AfterSnoc(c, taskId, start, events, i);
      var effect := OneTurn(c, turn, events[i]);
      chunks := chunks + effect.chunks;
      if effect.next.None? {
        AfterOver(c, taskId, start, events, i + 1);
        return;
      }
      turn := effect.next.value;
    }
    assert events[..|events|] == events;
  }

  lemma AfterSnoc(c: Call, taskId: string, start: int, events: seq<Event>, i: nat)
    requires i < |events|
    ensures var s := After(c, taskId, start, events[..i]);
      After(c, taskId, start, events[..i + 1]) == if s.turn.None? then s else Advance(s, TurnEffect(c, s.turn.value, events[i]))
  {
    assert events[..i + 1][..i] == events[..i];
  }

  lemma {:induction false} AfterOver(c: Call, taskId: string, start: int, events: seq<Event>, i: nat)
    requires i <= |events| && After(c, taskId, start, events[..i]).turn.None?
    ensures After(c, taskId, start, events) == After(c, taskId, start, events[..i])
    decreases |events|
  {
    if i < |events| {
      var front := events[..|events| - 1];
      assert front[..i] == events[..i];
      AfterOver(c, taskId, start, front, i);
    } else {
      assert events[..i] == events;
    }
  }

  // ---- the shape of a stream --------------------------------------------------------------

  /** Neither the opening chunk nor the end mark. */
  predicate Middle(chunks: seq<Chunk>) {
    forall k | 0 <= k < |chunks| :: !chunks[k].Role? && !chunks[k].DoneMark?
  }

  /** The opening chunk first and once; the end mark last and once when the stream is over, else not at all. */
  predicate WellShaped(s: Stream) {
    && s.chunks != [] && s.chunks[0].Role?
    && if s.turn.Some? then Middle(s.chunks[1..])
       else |s.chunks| >= 2 && s.chunks[|s.chunks| - 1].DoneMark? && Middle(s.chunks[1..|s.chunks| - 1])
  }

  lemma TerminalShape(p: Payload, active: string, emitted: string, includeUsage: bool)
    ensures var closing := Terminal(p, active, emitted, includeUsage);
      closing != [] && closing[|closing| - 1].DoneMark? && Middle(closing[..|closing| - 1])
  {
  }

  /** Chunks of one turn: an end mark exactly when the stream is over, and then last. */
  predicate EffectShape(effect: Effect) {
    if effect.next.Some? then Middle(effect.chunks)
    else effect.chunks != [] && effect.chunks[|effect.chunks| - 1].DoneMark? && Middle(effect.chunks[..|effect.chunks| - 1])
  }

  lemma ConcludeShape(c: Call, t: Turn, p: Payload, r: Registry, now: int)
    ensures EffectShape(Conclude(c, t, p, r, now))
  {
    TerminalShape(p, t.active, t.emitted, c.includeUsage);
  }

  lemma TickShape(c: Call, t: Turn, now: int, sent: seq<Chunk>)
    requires Middle(sent)
    ensures EffectShape(Tick(c, t, now, sent))
  {
    var chunks := sent + (if now - t.lastBeat >= HEARTBEAT then [Ping] else []);
    assert Middle(chunks);
    var closing := chunks + [Failure("task_timeout"), DoneMark];
    assert closing[..|closing| - 1] == chunks + [Failure("task_timeout")];
  }

  lemma TurnShape(c: Call, t: Turn, e: Event)
    ensures EffectShape(TurnEffect(c, t, e))
  {
    if e.message.Completed? && e.message.taskId == t.active {
      ConcludeShape(c, t, e.message.payload, e.registry, e.now);
    } else if e.message.Silence? && e.message.stored.Some? {
      ConcludeShape(c, t, e.message.stored.value, e.registry, e.now);
    } else if e.message.Token? && e.message.taskId == t.active && e.message.token != "" {
      TickShape(c, t.(emitted := t.emitted + e.message.token), e.now, [Content(t.active, e.message.token)]);
    } else {
      TickShape(c, t, e.now, []);
    }
  }

  lemma MiddleAppend(a: seq<Chunk>, b: seq<Chunk>)
    requires Middle(a) && Middle(b)
    ensures Middle(a + b)
  {
  }

  /** What stands between the first and the last chunk of two lists put together. */
  lemma InnerParts(a: seq<Chunk>, b: seq<Chunk>)
    requires a != [] && b != []
    ensures (a + b)[1..] == a[1..] + b
    ensures (a + b)[1..|a + b| - 1] == a[1..] + b[..|b| - 1]
  {
  }

  lemma AdvanceShape(s: Stream, effect: Effect)
    requires s.turn.Some? && WellShaped(s) && EffectShape(effect)
    ensures WellShaped(Advance(s, effect))
  {
    if effect.chunks == [] {
      assert s.chunks + [] == s.chunks;
    } else {
      InnerParts(s.chunks, effect.chunks);
      MiddleAppend(s.chunks[1..], if effect.next.Some? then effect.chunks else effect.chunks[..|effect.chunks| - 1]);
    }
  }

  /** Every run: the role chunk comes first, and a finished stream ends with exactly one end mark. */
  lemma {:induction false} EveryStreamWellShaped(c: Call, taskId: string, start: int, events: seq<Event>)
    ensures WellShaped(After(c, taskId, start, events))
  {
    if events != [] {
      var front := events[..|events| - 1];
      EveryStreamWellShaped(c, taskId, start, front);
      var s := After(c, taskId, start, front);
      if s.turn.Some? {
        TurnShape(c, s.turn.value, events[|events| - 1]);
        AdvanceShape(s, TurnEffect(c, s.turn.value, events[|events| - 1]));
      }
    }
  }

  // ---- what the client reads ----------------------------------------------------------------

  function Text(chunks: seq<Chunk>): string {
    if chunks == [] then ""
    else Text(chunks[..|chunks| - 1]) + (if chunks[|chunks| - 1].Content? then chunks[|chunks| - 1].text else "")
  }

  lemma {:induction false} TextAppend(a: seq<Chunk>, b: seq<Chunk>)
    ensures Text(a + b) == Text(a) + Text(b)
  {
    if b == [] {
      assert a + b == a;
      assert Text(a) + "" == Text(a);
    } else {
      var front, last := b[..|b| - 1], b[|b| - 1];
      assert (a + b)[..|a + b| - 1] == a + front;
      TextAppend(a, front);
      Assoc(Text(a), Text(front), if last.Content? then last.text else "");
    }
  }

  lemma TextOne(x: Chunk)
    ensures Text([x]) == if x.Content? then x.text else ""
  {
    assert [x][..0] == [];
  }

  /** The chunks of a turn that does not end the stream carry exactly what it adds to the sent text. */
  lemma TurnText(c: Call, t: Turn, e: Event)
    ensures var effect := TurnEffect(c, t, e);
      effect.next.Some? ==> effect.next.value.emitted == t.emitted + Text(effect.chunks)
  {
    assert t.emitted + "" == t.emitted;
    var effect := TurnEffect(c, t, e);
    if effect.next.Some? && effect.chunks != [] {
      if |effect.chunks| == 1 {
        TextOne(effect.chunks[0]);
      } else {
        assert effect.chunks == [effect.chunks[0]] + [Ping];
        TextOne(effect.chunks[0]);
        TextOne(Ping);
        TextAppend([effect.chunks[0]], [Ping]);
      }
    }
  }

  /** While the stream runs, the client has read exactly the tokens sent. */
  lemma {:induction false} OpenStreamText(c: Call, taskId: string, start: int, events: seq<Event>)
    ensures var s := After(c, taskId, start, events); s.turn.Some? ==> Text(s.chunks) == s.turn.value.emitted
  {
    if events == [] {
      TextOne(Role);
    } else {
      var front := events[..|events| - 1];
      OpenStreamText(c, taskId, start, front);
      var s := After(c, taskId, start, front);
      if s.turn.Some? {
        TurnText(c, s.turn.value, events[|events| - 1]);
        TextAppend(s.chunks, TurnEffect(c, s.turn.value, events[|events| - 1]).chunks);
      }
    }
  }

  predicate Succeeds(p: Payload) {
    !p.isErrorStatus && !(p.isError && p.response.None?)
  }

  function FinalText(p: Payload): string {
    if p.response.Some? then p.response.value else ""
  }

  lemma TerminalText(p: Payload, active: string, emitted: string, includeUsage: bool)
    requires Succeeds(p)
    ensures Text(Terminal(p, active, emitted, includeUsage))
      == if emitted <= FinalText(p) then FinalText(p)[|emitted|..] else ""
  {
    var tail := if emitted <= FinalText(p) then FinalText(p)[|emitted|..] else "";
    var head := if tail == "" then [] else [Content(active, tail)];
    var rest := if includeUsage then [Stop, Usage, DoneMark] else [Stop, DoneMark];
    assert Terminal(p, active, emitted, includeUsage) == head + rest;
    assert rest[..1] == [Stop];
    SilentText(rest);
    TextAppend(head, rest);
    if tail != "" {
      TextOne(Content(active, tail));
    }
  }

  lemma {:induction false} SilentText(chunks: seq<Chunk>)
    requires forall k | 0 <= k < |chunks| :: !chunks[k].Content?
    ensures Text(chunks) == ""
  {
    if chunks != [] {
      SilentText(chunks[..|chunks| - 1]);
    }
  }

  /** The payload about the active task that an event brings. */
  function PayloadFor(t: Turn, e: Event): Option<Payload> {
    match e.message
    case Completed(taskId, payload) => if taskId == t.active then Some(payload) else None
    case Silence(stored) => stored
    case _ => None
  }

  predicate Requeues(p: Payload) {
    p.queuedAs.Some? && p.queuedAs.value != ""
  }

  /** The payload that ends the active task. */
  function Concluding(t: Turn, e: Event): Option<Payload> {
    var p := PayloadFor(t, e);
    if p.Some? && !Requeues(p.value) then p else None
  }

  /** The stream one event later. */
  lemma OneMore(c: Call, taskId: string, start: int, events: seq<Event>, e: Event)
    ensures var s := After(c, taskId, start, events);
      s.turn.Some? ==> After(c, taskId, start, events + [e]) == Advance(s, TurnEffect(c, s.turn.value, e))
  {
    assert (events + [e])[..|events + [e]| - 1] == events;
  }

  /** The end of the active task closes the stream: a failure is told, a success stops with what was missing of the answer. */
  lemma ConclusionCloses(c: Call, taskId: string, start: int, events: seq<Event>, e: Event, p: Payload)
    requires var s := After(c, taskId, start, events); s.turn.Some? && Concluding(s.turn.value, e) == Some(p)
    ensures var before, s := After(c, taskId, start, events), After(c, taskId, start, events + [e]);
      && s.turn.None?
      && if p.isErrorStatus || (p.isError && p.response.None?) then
           s.chunks == before.chunks + [Failure("task_failed"), DoneMark]
         else
           before.chunks <= s.chunks
           && |before.chunks| <= |s.chunks| - (if c.includeUsage then 3 else 2) <= |before.chunks| + 1
           && s.chunks[|s.chunks| - (if c.includeUsage then 3 else 2)..]
              == if c.includeUsage then [Stop, Usage, DoneMark] else [Stop, DoneMark]
  {
    OneMore(c, taskId, start, events, e);
    var before := After(c, taskId, start, events);
    TerminalEnd(p, before.turn.value.active, before.turn.value.emitted, c.includeUsage, before.chunks);
  }

  lemma TerminalEnd(p: Payload, active: string, emitted: string, includeUsage: bool, before: seq<Chunk>)
    ensures var all := before + Terminal(p, active, emitted, includeUsage);
      if !Succeeds(p) then all == before + [Failure("task_failed"), DoneMark]
      else
        before <= all && |before| <= |all| - (if includeUsage then 3 else 2) <= |before| + 1
        && all[|all| - (if includeUsage then 3 else 2)..] == if includeUsage then [Stop, Usage, DoneMark] else [Stop, DoneMark]
  {
  }

  /**
   A stream closed by a successful answer: the client has read the answer when the
   tokens sent were a prefix of it, and otherwise exactly the tokens sent.
   */
  lemma SuccessText(c: Call, taskId: string, start: int, events: seq<Event>, e: Event, p: Payload)
    requires var s := After(c, taskId, start, events); s.turn.Some? && Concluding(s.turn.value, e) == Some(p)
    requires Succeeds(p)
    ensures var sent := After(c, taskId, start, events).turn.value.emitted;
      Text(After(c, taskId, start, events + [e]).chunks) == if sent <= FinalText(p) then FinalText(p) else sent
  {
    var s := After(c, taskId, start, events);
    OneMore(c, taskId, start, events, e);
    OpenStreamText(c, taskId, start, events);
    ClosedText(s.chunks, p, s.turn.value.active, s.turn.value.emitted, c.includeUsage);
  }

  /** A requeued task is followed under its new id exactly when the caller may; otherwise the stream ends in a failure. */
  lemma RequeueFollowed(c: Call, taskId: string, start: int, events: seq<Event>, e: Event, p: Payload)
    requires var s := After(c, taskId, start, events); s.turn.Some? && PayloadFor(s.turn.value, e) == Some(p) && Requeues(p)
    ensures var before, s := After(c, taskId, start, events), After(c, taskId, start, events + [e]);
      var active, next := before.turn.value.active, p.queuedAs.value;
      if OwnedBy(e.registry, active, c.login)
         && (next !in e.registry.tasks || SameOwner(e.registry.tasks[next], Inherited(e.registry, c.login, active, e.now)))
      then s == Stream(before.chunks, Some(before.turn.value.(active := next)))
      else s == Stream(before.chunks + [Failure("task_failed"), DoneMark], None)
  {
    OneMore(c, taskId, start, events, e);
    var before := After(c, taskId, start, events);
    RequeueCarriesOwnership(e.registry, c.login, before.turn.value.active, p.queuedAs.value, e.now);
    assert before.chunks + [] == before.chunks;
  }

  /** A heartbeat is due every 15 seconds. */
  function Beat(t: Turn, now: int): seq<Chunk> {
    if now - t.lastBeat >= 15 then [Ping] else []
  }

  /** Every other event leaves the stream open until the deadline; a token of the active task is passed on, and nothing else. */
  lemma OtherEvents(c: Call, taskId: string, start: int, events: seq<Event>, e: Event)
    requires var s := After(c, taskId, start, events); s.turn.Some? && PayloadFor(s.turn.value, e).None?
    ensures var before, s := After(c, taskId, start, events), After(c, taskId, start, events + [e]);
      var t := before.turn.value;
      var token := if e.message.Token? && e.message.taskId == t.active then e.message.token else "";
      var sent := before.chunks + (if token == "" then [] else [Content(t.active, token)]) + Beat(t, e.now);
      if e.now >= c.deadline then s == Stream(sent + [Failure("task_timeout"), DoneMark], None)
      else s == Stream(sent, Some(Turn(t.active, t.emitted + token, if Beat(t, e.now) == [] then t.lastBeat else e.now)))
  {
    OneMore(c, taskId, start, events, e);
    var before := After(c, taskId, start, events);
    var t := before.turn.value;
    assert t.emitted + "" == t.emitted;
    var token := if e.message.Token? && e.message.taskId == t.active then e.message.token else "";
    var own := if token == "" then [] else [Content(t.active, token)];
    TickMeans(c, t.(emitted := t.emitted + token), e.now, own, before.chunks);
  }

  lemma TickMeans(c: Call, t: Turn, now: int, sent: seq<Chunk>, before: seq<Chunk>)
    ensures var effect, all := Tick(c, t, now, sent), before + sent + Beat(t, now);
      if now >= c.deadline then before + effect.chunks == all + [Failure("task_timeout"), DoneMark] && effect.next.None?
      else before + effect.chunks == all && effect.next == Some(if Beat(t, now) == [] then t else t.(lastBeat := now))
  {
  }

  lemma ClosedText(chunks: seq<Chunk>, p: Payload, active: string, sent: string, includeUsage: bool)
    requires Text(chunks) == sent && Succeeds(p)
    ensures Text(chunks + Terminal(p, active, sent, includeUsage)) == if sent <= FinalText(p) then FinalText(p) else sent
  {
    TerminalText(p, active, sent, includeUsage);
    TextAppend(chunks, Terminal(p, active, sent, includeUsage));
  }

  // ---- the chain of requeues ------------------------------------------------------------------

  /** The tasks followed so far, the active one last. */
  function Followed(c: Call, taskId: string, start: int, events: seq<Event>): (ids: seq<string>)
    ensures ids != []
  {
    if events == [] then [taskId]
    else
      var before := Followed(c, taskId, start, events[..|events| - 1]);
      var s := After(c, taskId, start, events);
      if s.turn.Some? && s.turn.value.active != before[|before| - 1] then before + [s.turn.value.active] else before
  }

  /** `next` was registered to the caller, in succession to `previous`, at event `e`. */
  ghost predicate CarriedOver(c: Call, e: Event, previous: string, next: string) {
    var (after, ok) := Requeue(e.registry, c.login, previous, next, e.now);
    ok && OwnedBy(e.registry, previous, c.login) && OwnedBy(after, next, c.login) && Preserves(e.registry, after)
  }

  /** Every followed task but the first was carried over from the one before it at some event. */
  ghost predicate OwnedChain(c: Call, events: seq<Event>, ids: seq<string>) {
    |ids| <= 1 || (OwnedChain(c, events, ids[..|ids| - 1])
                   && exists e :: e in events && CarriedOver(c, e, ids[|ids| - 2], ids[|ids| - 1]))
  }

  lemma {:induction false} OwnedChainLonger(c: Call, front: seq<Event>, events: seq<Event>, ids: seq<string>)
    requires OwnedChain(c, front, ids) && front <= events
    ensures OwnedChain(c, events, ids)
  {
    if |ids| > 1 {
      OwnedChainLonger(c, front, events, ids[..|ids| - 1]);
      var e :| e in front && CarriedOver(c, e, ids[|ids| - 2], ids[|ids| - 1]);
      assert events[..|front|] == front;
      assert e in events;
    }
  }

  lemma TurnCarriesOver(c: Call, t: Turn, e: Event)
    ensures var effect := TurnEffect(c, t, e);
      effect.next.Some? && effect.next.value.active != t.active ==> CarriedOver(c, e, t.active, effect.next.value.active)
  {
    var effect := TurnEffect(c, t, e);
    if effect.next.Some? && effect.next.value.active != t.active {
      RequeueCarriesOwnership(e.registry, c.login, t.active, effect.next.value.active, e.now);
    }
  }

  lemma {:induction false} FollowedNonEmpty(c: Call, taskId: string, start: int, events: seq<Event>)
    ensures var ids := Followed(c, taskId, start, events); ids != [] && ids[0] == taskId
    ensures var s := After(c, taskId, start, events);
      s.turn.Some? ==> Followed(c, taskId, start, events)[|Followed(c, taskId, start, events)| - 1] == s.turn.value.active
  {
    if events != [] {
      FollowedNonEmpty(c, taskId, start, events[..|events| - 1]);
    }
  }

  /**
   Every task that is followed, except the first, was registered to the caller when
   it was followed, in succession to the one before.
   */
  lemma {:induction false} FollowedTasksAreOwned(c: Call, taskId: string, start: int, events: seq<Event>)
    ensures OwnedChain(c, events, Followed(c, taskId, start, events))
  {
    if events != [] {
      var front, e := events[..|events| - 1], events[|events| - 1];
      FollowedTasksAreOwned(c, taskId, start, front);
      var before := Followed(c, taskId, start, front);
      OwnedChainLonger(c, front, events, before);
      FollowedLast(c, taskId, start, events, before);
    }
  }

  /** The last event either leaves the chain as it is or carries it over. */
  lemma FollowedLast(c: Call, taskId: string, start: int, events: seq<Event>, before: seq<string>)
    requires events != [] && before == Followed(c, taskId, start, events[..|events| - 1])
    requires OwnedChain(c, events, before)
    ensures OwnedChain(c, events, Followed(c, taskId, start, events))
  {
    var front, e := events[..|events| - 1], events[|events| - 1];
    FollowedNonEmpty(c, taskId, start, front);
    var s := After(c, taskId, start, front);
    if s.turn.Some? {
      TurnCarriesOver(c, s.turn.value, e);
      var next := TurnEffect(c, s.turn.value, e).next;
      if next.Some? && next.value.active != s.turn.value.active {
        OwnedChainSnoc(c, events, before, e, next.value.active);
      }
    }
  }

  lemma OwnedChainSnoc(c: Call, events: seq<Event>, before: seq<string>, e: Event, id: string)
    requires OwnedChain(c, events, before) && before != [] && e in events
    requires CarriedOver(c, e, before[|before| - 1], id)
    ensures OwnedChain(c, events, before + [id])
  {
    var ids := before + [id];
    assert ids[..|ids| - 1] == before;
  }

  // ---- where every content chunk comes from -------------------------------------------------------

  /** The rest of a successful answer behind the tokens sent. */
  predicate ClosingTail(t: Turn, e: Event, chunk: Chunk) {
    var p := Concluding(t, e);
    && p.Some? && Succeeds(p.value) && t.emitted <= FinalText(p.value)
    && chunk == Content(t.active, FinalText(p.value)[|t.emitted|..])
  }

  predicate ActiveToken(t: Turn, e: Event, chunk: Chunk) {
    chunk.Content? && chunk.taskId == t.active && e.message == Token(chunk.taskId, chunk.text)
  }

  lemma TerminalContent(p: Payload, active: string, emitted: string, includeUsage: bool, k: nat)
    requires var chunks := Terminal(p, active, emitted, includeUsage); k < |chunks| && chunks[k].Content?
    ensures Succeeds(p) && emitted <= FinalText(p)
    ensures Terminal(p, active, emitted, includeUsage)[k] == Content(active, FinalText(p)[|emitted|..])
  {
  }

  lemma ConcludeContent(c: Call, t: Turn, p: Payload, r: Registry, now: int, k: nat)
    requires var chunks := Conclude(c, t, p, r, now).chunks; k < |chunks| && chunks[k].Content?
    ensures !(p.queuedAs.Some? && p.queuedAs.value != "") && Succeeds(p) && t.emitted <= FinalText(p)
    ensures Conclude(c, t, p, r, now).chunks[k] == Content(t.active, FinalText(p)[|t.emitted|..])
  {
    if !(p.queuedAs.Some? && p.queuedAs.value != "") {
      TerminalContent(p, t.active, t.emitted, c.includeUsage, k);
    }
  }

  lemma TickContent(c: Call, t: Turn, now: int, sent: seq<Chunk>, k: nat)
    requires var chunks := Tick(c, t, now, sent).chunks; k < |chunks| && chunks[k].Content?
    ensures k < |sent| && Tick(c, t, now, sent).chunks[k] == sent[k]
  {
  }

  lemma TurnContent(c: Call, t: Turn, e: Event, k: nat)
    requires k < |TurnEffect(c, t, e).chunks| && TurnEffect(c, t, e).chunks[k].Content?
    ensures var chunk := TurnEffect(c, t, e).chunks[k]; ActiveToken(t, e, chunk) || ClosingTail(t, e, chunk)
  {
    if e.message.Completed? && e.message.taskId == t.active {
      ConcludeContent(c, t, e.message.payload, e.registry, e.now, k);
    } else if e.message.Silence? && e.message.stored.Some? {
      ConcludeContent(c, t, e.message.stored.value, e.registry, e.now, k);
    } else if e.message.Token? && e.message.taskId == t.active && e.message.token != "" {
      TickContent(c, t.(emitted := t.emitted + e.message.token), e.now, [Content(t.active, e.message.token)], k);
    } else {
      TickContent(c, t, e.now, [], k);
    }
  }

  lemma AdvanceChunk(s: Stream, effect: Effect, k: nat)
    requires k < |Advance(s, effect).chunks|
    ensures k < |s.chunks| ==> Advance(s, effect).chunks[k] == s.chunks[k]
    ensures k >= |s.chunks| ==>
      k - |s.chunks| < |effect.chunks| && Advance(s, effect).chunks[k] == effect.chunks[k - |s.chunks|]
  {
  }

  /** The stream was running when event `i` came, and the chunk is a token of it or its closing tail. */
  ghost predicate CameWith(c: Call, taskId: string, start: int, events: seq<Event>, i: nat, chunk: Chunk) {
    && i < |events|
    && var turn := After(c, taskId, start, events[..i]).turn;
       turn.Some? && (ActiveToken(turn.value, events[i], chunk) || ClosingTail(turn.value, events[i], chunk))
  }

  lemma CameEarlier(c: Call, taskId: string, start: int, events: seq<Event>, front: seq<Event>, i: nat, chunk: Chunk)
    requires front <= events && CameWith(c, taskId, start, front, i, chunk)
    ensures CameWith(c, taskId, start, events, i, chunk)
  {
    assert front[..i] == events[..i];
  }

  lemma CameInTurn(c: Call, taskId: string, start: int, events: seq<Event>, n: nat, t: Turn, effect: Effect, j: nat)
    requires n < |events| && After(c, taskId, start, events[..n]).turn == Some(t)
    requires effect == TurnEffect(c, t, events[n]) && j < |effect.chunks| && effect.chunks[j].Content?
    ensures CameWith(c, taskId, start, events, n, effect.chunks[j])
  {
    TurnContent(c, t, events[n], j);
  }

  /** The stream after its last event, and before it. */
  lemma LastTurn(c: Call, taskId: string, start: int, events: seq<Event>, n: nat)
    requires n + 1 == |events|
    ensures var s := After(c, taskId, start, events[..n]);
      After(c, taskId, start, events) == if s.turn.None? then s else Advance(s, TurnEffect(c, s.turn.value, events[n]))
  {
    AfterSnoc(c, taskId, start, events, n);
    assert events[..n + 1] == events;
  }

  /** A content chunk that a running stream does not have before an event came with it. */
  lemma CameLast(c: Call, taskId: string, start: int, events: seq<Event>, n: nat, s: Stream, effect: Effect, k: nat)
    requires n < |events| && s == After(c, taskId, start, events[..n]) && s.turn.Some?
    requires effect == TurnEffect(c, s.turn.value, events[n])
    requires k < |Advance(s, effect).chunks| && Advance(s, effect).chunks[k].Content?
    ensures if k < |s.chunks| then s.chunks[k] == Advance(s, effect).chunks[k]
      else CameWith(c, taskId, start, events, n, Advance(s, effect).chunks[k])
  {
    AdvanceChunk(s, effect, k);
    if k >= |s.chunks| {
      CameInTurn(c, taskId, start, events, n, s.turn.value, effect, k - |s.chunks|);
    }
  }

  /**
   Every content chunk of a stream, running or finished, is a token of the task that
   was active when it came, or the rest of the answer that closed the stream.
   */
  lemma {:induction false} OnlyActiveTokens(c: Call, taskId: string, start: int, events: seq<Event>, k: nat) returns (i: nat)
    requires var s := After(c, taskId, start, events); k < |s.chunks| && s.chunks[k].Content?
    ensures CameWith(c, taskId, start, events, i, After(c, taskId, start, events).chunks[k])
  {
    assert events != [];
    var n := |events| - 1;
    var front := events[..n];
    var before := After(c, taskId, start, front);
    LastTurn(c, taskId, start, events, n);
    if before.turn.Some? {
      CameLast(c, taskId, start, events, n, before, TurnEffect(c, before.turn.value, events[n]), k);
    }
    var chunk := After(c, taskId, start, events).chunks[k];
    i := n;
    if k < |before.chunks| {
      i := OnlyActiveTokens(c, taskId, start, front, k);
      CameEarlier(c, taskId, start, events, front, i, chunk);
    }
  }

  // ---- what the client has read when it goes wrong ------------------------------------------------

  /** The token an event adds before the stream ends. */
  function LastToken(t: Turn, e: Event): string {
    if e.message.Token? && e.message.taskId == t.active then e.message.token else ""
  }

  /** The last turn of a stream that ends without a successful answer. */
  predicate Fails(c: Call, t: Turn, e: Event) {
    TurnEffect(c, t, e).next.None? && !(Concluding(t, e).Some? && Succeeds(Concluding(t, e).value))
  }

  lemma FailingChunks(c: Call, t: Turn, e: Event)
    requires Fails(c, t, e)
    ensures Text(TurnEffect(c, t, e).chunks) == LastToken(t, e)
  {
    var chunks := TurnEffect(c, t, e).chunks;
    if LastToken(t, e) != "" {
      var rest := chunks[1..];
      assert chunks == [chunks[0]] + rest;
      TextOne(chunks[0]);
      SilentText(rest);
      TextAppend([chunks[0]], rest);
      assert LastToken(t, e) + "" == LastToken(t, e);
    } else {
      SilentText(chunks);
    }
  }

  /** On a timeout, an error or a refused requeue the client has read exactly the tokens that came. */
  lemma FailureText(c: Call, taskId: string, start: int, events: seq<Event>, e: Event)
    requires var s := After(c, taskId, start, events); s.turn.Some? && Fails(c, s.turn.value, e)
    ensures var t := After(c, taskId, start, events).turn.value;
      Text(After(c, taskId, start, events + [e]).chunks) == t.emitted + LastToken(t, e)
  {
    var s := After(c, taskId, start, events);
    assert (events + [e])[..|events + [e]| - 1] == events;
    OpenStreamText(c, taskId, start, events);
    FailingChunks(c, s.turn.value, e);
    TextAppend(s.chunks, TurnEffect(c, s.turn.value, e).chunks);
  }
}
