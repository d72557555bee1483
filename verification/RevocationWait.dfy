/**
 The wait for a revocation decision: a stream of events that is reconnected whenever it ends,
 fails or falls silent, and one timer for the whole wait. Every callback is a step of a state
 machine; the steps may come in any order their timers and connections allow. Connections and
 reconnect timers are kept in maps, so that nothing in the model limits how many there are.
 */
module RevocationWait {
  import opened Wrappers
  import opened Text
  import opened EventStream

  datatype Verdict = Approved | Rejected | TimedOut

  const READ_TIMEOUT := 25_000
  const RETRY_AFTER_REFUSAL := 3_000
  const RETRY_AFTER_END := 1_000

  datatype Phase = Fetching | Reading(buffer: string)

  /** One connection; `readTimer` is when its read timer fires, `aborted` that it has fired. */
  datatype Connection = Connection(phase: Phase, readTimer: Option<nat>, aborted: bool)

  datatype State = State(
    now: nat,
    deadline: nat,
    settled: Option<Verdict>,
    resolutions: nat,
    connections: map<nat, Connection>,
    retries: map<nat, nat>,
    globalTimer: Option<nat>,
    connects: nat,
    scheduled: nat,
    heard: seq<Verdict>)

  datatype Event =
    | Tick(ms: nat)
    | Response(id: nat, ok: bool)
    | FetchFails(id: nat)
    | Chunk(id: nat, text: string)
    | StreamEnds(id: nat)
    | StreamFails(id: nat)
    | ReadTimerFires(id: nat)
    | RetryFires(id: nat)
    | GlobalTimerFires

  /** When an event can happen. */
  predicate Enabled(s: State, e: Event) {
    match e
    case Tick(_) => true
    case Response(id, _) => id in s.connections && s.connections[id].phase.Fetching? && !s.connections[id].aborted
    case FetchFails(id) => id in s.connections && s.connections[id].phase.Fetching?
    case Chunk(id, _) => id in s.connections && s.connections[id].phase.Reading?
    case StreamEnds(id) => id in s.connections && s.connections[id].phase.Reading?
    case StreamFails(id) => id in s.connections && s.connections[id].phase.Reading?
    case ReadTimerFires(id) =>
      id in s.connections && s.connections[id].readTimer.Some? && s.connections[id].readTimer.value <= s.now
    case RetryFires(id) => id in s.retries && s.retries[id] <= s.now
    case GlobalTimerFires => s.globalTimer.Some? && s.globalTimer.value <= s.now
  }

  // ----- the callbacks as functions

  /** The promise is resolved by the first call only. */
  function Done(s: State, v: Verdict): State {
    if s.settled.Some? then s else s.(settled := Some(v), resolutions := s.resolutions + 1)
  }

  function Connect(s: State): State {
    if s.settled.Some? || s.now > s.deadline then Done(s, TimedOut)
    else
      s.(connections := s.connections[s.connects := Connection(Fetching, Some(s.now + READ_TIMEOUT), false)],
         connects := s.connects + 1)
  }

  function Close(s: State, id: nat): State {
    s.(connections := s.connections - {id})
  }

  function RetryIn(s: State, delay: nat): State {
    if s.settled.Some? then s
    else s.(retries := s.retries[s.scheduled := s.now + delay], scheduled := s.scheduled + 1)
  }

  /** What a line says, `status` standing for parsing its JSON and taking the status field. */
  function LineSays(status: string -> Option<string>, line: string): Option<Verdict> {
    if ":" <= line || !("data: " <= line) then None
    else
      match status(line[6..])
      case None => None
      case Some(text) =>
        if text == "approved" then Some(Approved)
        else if text == "rejected" then Some(Rejected)
        else if text == "timeout" then Some(TimedOut)
        else None
  }

  function Receive(status: string -> Option<string>, s: State, id: nat, text: string): State
    requires Enabled(s, Chunk(id, text))
  {
    var buffer := s.connections[id].phase.buffer + text;
    match FirstVerdict(line => LineSays(status, line), CompleteLines(buffer))
    case Some(v) => Done(Close(s.(heard := s.heard + [v]), id), v)
    case None =>
      s.(connections := s.connections[id :=
        s.connections[id].(phase := Reading(Unfinished(buffer)), readTimer := Some(s.now + READ_TIMEOUT))])
  }

  function Step(status: string -> Option<string>, s: State, e: Event): State
    requires Enabled(s, e)
  {
    match e
    case Tick(ms) => s.(now := s.now + ms)
    case Response(id, ok) =>
      if ok then s.(connections := s.connections[id := s.connections[id].(phase := Reading(""))])
      else RetryIn(Close(s, id), RETRY_AFTER_REFUSAL)
    case FetchFails(id) => RetryIn(Close(s, id), RETRY_AFTER_END)
    case Chunk(id, text) => Receive(status, s, id, text)
    case StreamEnds(id) => RetryIn(Close(s, id), RETRY_AFTER_END)
    case StreamFails(id) => RetryIn(Close(s, id), RETRY_AFTER_END)
    case ReadTimerFires(id) =>
      s.(connections := s.connections[id := s.connections[id].(readTimer := None, aborted := true)])
    case RetryFires(id) => Connect(s.(retries := s.retries - {id}))
    case GlobalTimerFires => Done(s.(globalTimer := None), TimedOut)
  }

  /** The wait as it starts: one connection, and the timer of the whole wait. */
  function Start(now: nat, timeout: nat): State {
    Connect(State(now, now + timeout, None, 0, map[], map[], None, 0, 0, [])).(globalTimer := Some(now + timeout))
  }

  // ----- the program

  class Waiter {
    const status: string -> Option<string>
    const deadline: nat
    var now: nat
    var settled: Option<Verdict>
    var resolutions: nat
    var connections: map<nat, Connection>
    var retries: map<nat, nat>
    var globalTimer: Option<nat>
    var connects: nat
    var scheduled: nat
    var heard: seq<Verdict>

    function Now(): State
      reads this
    {
      State(now, deadline, settled, resolutions, connections, retries, globalTimer, connects, scheduled, heard)
    }

    constructor (status: string -> Option<string>, start: nat, timeout: nat)
      ensures Now() == Start(start, timeout) && this.status == status
    {
      this.status := status;
      deadline := start + timeout;
      now, settled, resolutions, connections, retries := start, None, 0, map[], map[];
      globalTimer, connects, scheduled, heard := None, 0, 0, [];
      new;
      OpenConnection();
      globalTimer := Some(start + timeout);
    }

    method Resolve(v: Verdict)
      modifies this
      ensures Now() == Done(old(Now()), v)
    {
      if settled.None? {
        settled := Some(v);
        resolutions := resolutions + 1;
      }
    }

    method OpenConnection()
      modifies this
      ensures Now() == Connect(old(Now()))
    {
      if settled.Some? || now > deadline {
        Resolve(TimedOut);
        return;
      }
      connections := connections[connects := Connection(Fetching, Some(now + READ_TIMEOUT), false)];
      connects := connects + 1;
    }

    method ScheduleRetry(delay: nat)
      modifies this
      ensures Now() == RetryIn(old(Now()), delay)
    {
      if settled.None? {
        retries := retries[scheduled := now + delay];
        scheduled := scheduled + 1;
      }
    }

    /** One chunk: every complete line is examined until one of them settles the wait. */
    method ReceiveChunk(id: nat, text: string)
      requires Enabled(Now(), Chunk(id, text))
      modifies this
      ensures Now() == Receive(status, old(Now()), id, text)
    {
      ghost var judge := line => LineSays(status, line);
      var c := connections[id];
      var lines := SplitOn(c.phase.buffer + text, '\n');
      var rest := Last(lines);
      lines := Front(lines);
      for i := 0 to |lines|
        invariant Now() == old(Now())
        invariant forall k | 0 <= k < i :: judge(lines[k]).None?
      {
        if ":" <= lines[i] || !("data: " <= lines[i]) {
          continue;
        }
        var evt := status(lines[i][6..]);
        if evt == Some("approved") || evt == Some("rejected") || evt == Some("timeout") {
          var v := if evt.value == "approved" then Approved else if evt.value == "rejected" then Rejected else TimedOut;
          FirstVerdictIsFirst(judge, lines, i);
          heard := heard + [v];
          connections := connections - {id};
          Resolve(v);
          return;
        }
      }
      NoVerdict(judge, lines);
      connections := connections[id := c.(phase := Reading(rest), readTimer := Some(now + READ_TIMEOUT))];
    }

    method Handle(e: Event)
      requires Enabled(Now(), e)
      modifies this
      ensures Now() == Step(status, old(Now()), e)
    {
      match e {
        case Tick(ms) =>
          now := now + ms;
        case Response(id, ok) =>
          if ok {
            connections := connections[id := connections[id].(phase := Reading(""))];
          } else {
            connections := connections - {id};
            ScheduleRetry(RETRY_AFTER_REFUSAL);
          }
        case FetchFails(id) =>
          connections := connections - {id};
          ScheduleRetry(RETRY_AFTER_END);
        case Chunk(id, text) =>
          ReceiveChunk(id, text);
        case StreamEnds(id) =>
          connections := connections - {id};
          ScheduleRetry(RETRY_AFTER_END);
        case StreamFails(id) =>
          connections := connections - {id};
          ScheduleRetry(RETRY_AFTER_END);
        case ReadTimerFires(id) =>
          connections := connections[id := connections[id].(readTimer := None, aborted := true)];
        case RetryFires(id) =>
          retries := retries - {id};
          OpenConnection();
        case GlobalTimerFires =>
          globalTimer := None;
          Resolve(TimedOut);
      }
    }
  }

  // ----- invariant

  /** A connection always has a way on: its read timer is set, or has fired and aborted it. */
  predicate Live(c: Connection) {
    c.readTimer.Some? || c.aborted
  }

  ghost predicate Inv(s: State) {
    && (s.settled.None? ==> |s.connections| + |s.retries| == 1)
    && |s.connections| + |s.retries| <= 1
    && s.resolutions == (if s.settled.None? then 0 else 1)
    && (s.settled.None? ==> s.globalTimer == Some(s.deadline))
    && (s.settled == Some(Approved) ==> Approved in s.heard)
    && (s.settled == Some(Rejected) ==> Rejected in s.heard)
    && (s.settled == Some(TimedOut) ==> TimedOut in s.heard || s.deadline <= s.now)
    && (s.globalTimer.Some? ==> s.globalTimer.value == s.deadline)
    && (forall id | id in s.connections :: Live(s.connections[id]))
    && (s.settled.None? ==> s.heard == [])
  }

  lemma OnlyKey<V>(m: map<nat, V>, id: nat)
    requires id in m && |m| <= 1
    ensures m.Keys == {id} && m - {id} == map[] && |m| == 1
  {
    assert |m.Keys - {id}| == |m.Keys| - 1;
    assert m.Keys - {id} == {};
    assert (m - {id}).Keys == {};
  }

  lemma NoKey<V>(m: map<nat, V>)
    requires |m| == 0
    ensures m == map[]
  {
    assert |m.Keys| == 0;
  }

  lemma OneKey<V>(id: nat, v: V)
    ensures |map[id := v]| == 1
  {
    assert map[id := v].Keys == {id};
  }

  /** The wait when its only connection or retry has just gone. */
  ghost predicate Between(s: State) {
    && s.connections == map[] && s.retries == map[]
    && Inv(s.(connections := map[0 := Connection(Fetching, Some(0), false)]))
  }

  lemma RetryKeepsInv(s: State, delay: nat)
    requires Between(s)
    ensures Inv(RetryIn(s, delay))
  {
    OneKey(s.scheduled, s.now + delay);
    OneKey(0, Connection(Fetching, Some(0), false));
    assert map[][s.scheduled := s.now + delay] == map[s.scheduled := s.now + delay];
  }

  lemma ConnectKeepsInv(s: State)
    requires Between(s)
    ensures Inv(Connect(s))
  {
    var c := Connection(Fetching, Some(s.now + READ_TIMEOUT), false);
    OneKey(s.connects, c);
    OneKey(0, Connection(Fetching, Some(0), false));
    assert map[][s.connects := c] == map[s.connects := c];
  }

  /** Taking away the connection an event belongs to leaves nothing. */
  lemma ClosedIsBetween(s: State, id: nat)
    requires Inv(s) && id in s.connections
    ensures Between(Close(s, id))
  {
    OnlyKey(s.connections, id);
    OneKey(0, Connection(Fetching, Some(0), false));
    NoKey(s.retries);
  }

  /** Another connection under the same number. */
  lemma ReplacedKeepsInv(s: State, id: nat, c: Connection)
    requires Inv(s) && id in s.connections && Live(c)
    ensures Inv(s.(connections := s.connections[id := c]))
  {
    OnlyKey(s.connections, id);
    assert s.connections[id := c] == map[id := c];
    OneKey(id, c);
  }

  lemma ReceiveKeepsInv(status: string -> Option<string>, s: State, id: nat, text: string)
    requires Inv(s) && Enabled(s, Chunk(id, text))
    ensures Inv(Receive(status, s, id, text))
  {
    var buffer := s.connections[id].phase.buffer + text;
    match FirstVerdict(line => LineSays(status, line), CompleteLines(buffer))
    case Some(v) => ClosedIsBetween(s, id);
    case None =>
      ReplacedKeepsInv(s, id, s.connections[id].(
        phase := Reading(Unfinished(buffer)), readTimer := Some(s.now + READ_TIMEOUT)));
  }

  /** A connection that ends gives way to a retry, or to nothing when the wait is settled. */
  lemma EndKeepsInv(s: State, id: nat, delay: nat)
    requires Inv(s) && id in s.connections
    ensures Inv(RetryIn(Close(s, id), delay))
  {
    ClosedIsBetween(s, id);
    RetryKeepsInv(Close(s, id), delay);
  }

  lemma RetryFiredKeepsInv(s: State, id: nat)
    requires Inv(s) && id in s.retries
    ensures Inv(Connect(s.(retries := s.retries - {id})))
  {
    OnlyKey(s.retries, id);
    NoKey(s.connections);
    OneKey(0, Connection(Fetching, Some(0), false));
    ConnectKeepsInv(s.(retries := s.retries - {id}));
  }

  lemma StepKeepsInv(status: string -> Option<string>, s: State, e: Event)
    requires Inv(s) && Enabled(s, e)
    ensures Inv(Step(status, s, e))
  {
    match e
    case Tick(ms) =>
    case Response(id, ok) =>
      if ok {
        ReplacedKeepsInv(s, id, s.connections[id].(phase := Reading("")));
      } else {
        EndKeepsInv(s, id, RETRY_AFTER_REFUSAL);
      }
    case FetchFails(id) => EndKeepsInv(s, id, RETRY_AFTER_END);
    case Chunk(id, text) => ReceiveKeepsInv(status, s, id, text);
    case StreamEnds(id) => EndKeepsInv(s, id, RETRY_AFTER_END);
    case StreamFails(id) => EndKeepsInv(s, id, RETRY_AFTER_END);
    case ReadTimerFires(id) =>
      ReplacedKeepsInv(s, id, s.connections[id].(readTimer := None, aborted := true));
    case RetryFires(id) => RetryFiredKeepsInv(s, id);
    case GlobalTimerFires =>
  }

  lemma StartHasInv(now: nat, timeout: nat)
    ensures Inv(Start(now, timeout))
  {
    var c := Connection(Fetching, Some(now + READ_TIMEOUT), false);
    OneKey(0, c);
    assert map[][0 := c] == map[0 := c];
  }

  // ----- whole runs

  /** Events that can happen one after the other. */
  predicate CanRun(status: string -> Option<string>, s: State, events: seq<Event>)
    decreases |events|
  {
    events == [] || (Enabled(s, events[0]) && CanRun(status, Step(status, s, events[0]), events[1..]))
  }

  function RunOf(status: string -> Option<string>, s: State, events: seq<Event>): State
    requires CanRun(status, s, events)
    decreases |events|
  {
    if events == [] then s else RunOf(status, Step(status, s, events[0]), events[1..])
  }

  lemma {:induction false} RunKeepsInv(status: string -> Option<string>, s: State, events: seq<Event>)
    requires Inv(s) && CanRun(status, s, events)
    ensures Inv(RunOf(status, s, events))
    decreases |events|
  {
    if events != [] {
      StepKeepsInv(status, s, events[0]);
      RunKeepsInv(status, Step(status, s, events[0]), events[1..]);
    }
  }

  /** Once settled, a wait keeps its verdict and opens no connection, whatever happens. */
  lemma {:induction false} SettledStays(status: string -> Option<string>, s: State, events: seq<Event>)
    requires CanRun(status, s, events) && s.settled.Some?
    ensures var t := RunOf(status, s, events);
      t.settled == s.settled && t.resolutions == s.resolutions && t.connects == s.connects && t.scheduled == s.scheduled
    decreases |events|
  {
    if events != [] {
      SettledStays(status, Step(status, s, events[0]), events[1..]);
    }
  }

  /**
   Every state of every run: the promise has been resolved at most once; while it is not, exactly
   one connection or one pending reconnect exists and the timer of the whole wait is still to
   fire; a verdict of the owner was heard in the stream; and a timeout was heard or is due.
   */
  lemma EveryRunIsSafe(status: string -> Option<string>, now: nat, timeout: nat, events: seq<Event>)
    requires CanRun(status, Start(now, timeout), events)
    ensures var s := RunOf(status, Start(now, timeout), events);
      && s.resolutions == (if s.settled.Some? then 1 else 0)
      && |s.connections| + |s.retries| <= 1
      && (s.settled.None? ==> |s.connections| + |s.retries| == 1 && s.globalTimer == Some(s.deadline))
      && (forall id | id in s.connections :: Live(s.connections[id]))
      && (s.settled == Some(Approved) ==> Approved in s.heard)
      && (s.settled == Some(Rejected) ==> Rejected in s.heard)
      && (s.settled == Some(TimedOut) ==> TimedOut in s.heard || s.deadline <= s.now)
  {
    StartHasInv(now, timeout);
    RunKeepsInv(status, Start(now, timeout), events);
  }

  /** A run in which the timer of the whole wait fires ends settled. */
  lemma {:induction false} GlobalTimerSettles(status: string -> Option<string>, s: State, events: seq<Event>, k: nat)
    requires CanRun(status, s, events) && k < |events| && events[k] == GlobalTimerFires
    ensures RunOf(status, s, events).settled.Some?
    decreases |events|
  {
    var next := Step(status, s, events[0]);
    if k == 0 {
      SettledStays(status, next, events[1..]);
    } else {
      GlobalTimerSettles(status, next, events[1..], k - 1);
    }
  }

  /** A verdict that a chunk brings in this state. */
  predicate Brings(status: string -> Option<string>, s: State, e: Event, v: Verdict) {
    && e.Chunk? && Enabled(s, e)
    && FirstVerdict(line => LineSays(status, line), CompleteLines(s.connections[e.id].phase.buffer + e.text)) == Some(v)
  }

  /** What was heard was received: some chunk of the run completed a line that says it. */
  lemma {:induction false} HeardWasReceived(status: string -> Option<string>, s: State, events: seq<Event>, v: Verdict)
    returns (k: nat)
    requires CanRun(status, s, events) && v !in s.heard && v in RunOf(status, s, events).heard
    ensures k < |events| && CanRun(status, s, events[..k])
    ensures Brings(status, RunOf(status, s, events[..k]), events[k], v)
    decreases |events|
  {
    var next := Step(status, s, events[0]);
    if v in next.heard {
      k := 0;
      assert events[..0] == [];
    } else {
      k := HeardWasReceived(status, next, events[1..], v);
      k := k + 1;
      assert events[..k][1..] == events[1..][..k - 1];
    }
  }

  // ----- framing over a whole run

  /** All the text that a connection brings in these events. */
  function Received(events: seq<Event>, id: nat): string {
    if events == [] then []
    else
      var last := events[|events| - 1];
      Received(events[..|events| - 1], id) + if last.Chunk? && last.id == id then last.text else []
  }

  /** The buffer is the unfinished line of all the text received, and no complete line has a verdict. */
  predicate Framed(status: string -> Option<string>, c: Connection, text: string) {
    match c.phase
    case Fetching => text == []
    case Reading(buffer) =>
      && buffer == Unfinished(text)
      && FirstVerdict(line => LineSays(status, line), CompleteLines(text)) == None
  }

  ghost predicate AllFramed(status: string -> Option<string>, s: State, events: seq<Event>) {
    && (forall id: nat | id >= s.connects :: Received(events, id) == [])
    && forall id | id in s.connections :: id < s.connects && Framed(status, s.connections[id], Received(events, id))
  }

  lemma ReceivedOne(events: seq<Event>, e: Event, id: nat)
    ensures Received(events + [e], id) == Received(events, id) + if e.Chunk? && e.id == id then e.text else []
  {
    assert (events + [e])[..|events|] == events;
  }

  /** A chunk read behind the buffer is judged as the text received with it. */
  lemma ChunkIsFramed(status: string -> Option<string>, c: Connection, before: string, text: string)
    requires c.phase.Reading? && Framed(status, c, before)
    ensures FirstVerdict(line => LineSays(status, line), CompleteLines(c.phase.buffer + text))
         == FirstVerdict(line => LineSays(status, line), CompleteLines(before + text))
    ensures Unfinished(c.phase.buffer + text) == Unfinished(before + text)
  {
    LinesGoOn(before, text);
    FirstVerdictAppend(line => LineSays(status, line), CompleteLines(before), CompleteLines(c.phase.buffer + text));
  }

  lemma StepKeepsFraming(status: string -> Option<string>, s: State, events: seq<Event>, e: Event)
    requires AllFramed(status, s, events) && Enabled(s, e)
    ensures AllFramed(status, Step(status, s, e), events + [e])
  {
    if e.Chunk? {
      ChunkKeepsFraming(status, s, events, e);
    } else {
      forall id: nat
        ensures Received(events + [e], id) == Received(events, id)
      {
        ReceivedOne(events, e, id);
        assert Received(events, id) + [] == Received(events, id);
      }
      NoTextKeepsFraming(status, s, events, e);
      assert AllFramed(status, Step(status, s, e), events);
    }
  }

  /** A chunk takes its own connection further, or ends it, and leaves any other as it is. */
  predicate Advances(status: string -> Option<string>, s: State, e: Event, after: State)
    requires e.Chunk? && Enabled(s, e)
  {
    var buffer := s.connections[e.id].phase.buffer + e.text;
    && after.connects == s.connects
    && (forall id | id in after.connections && id != e.id ::
          id in s.connections && after.connections[id] == s.connections[id])
    && (e.id in after.connections ==>
          && after.connections[e.id].phase == Reading(Unfinished(buffer))
          && FirstVerdict(line => LineSays(status, line), CompleteLines(buffer)) == None)
  }

  lemma ChunkKeepsFraming(status: string -> Option<string>, s: State, events: seq<Event>, e: Event)
    requires AllFramed(status, s, events) && Enabled(s, e) && e.Chunk?
    ensures AllFramed(status, Step(status, s, e), events + [e])
  {
    assert Advances(status, s, e, Step(status, s, e));
    AdvanceKeepsFraming(status, s, events, e, Step(status, s, e));
  }

  lemma AdvanceKeepsFraming(
      status: string -> Option<string>, s: State, events: seq<Event>, e: Event, after: State)
    requires AllFramed(status, s, events) && e.Chunk? && Enabled(s, e) && Advances(status, s, e, after)
    ensures AllFramed(status, after, events + [e])
  {
    forall id: nat | id != e.id
      ensures Received(events + [e], id) == Received(events, id)
    {
      ReceivedOne(events, e, id);
      assert Received(events, id) + [] == Received(events, id);
    }
    if e.id in after.connections {
      AdvancedIsFramed(status, s, events, e, after);
    }
  }

  lemma AdvancedIsFramed(
      status: string -> Option<string>, s: State, events: seq<Event>, e: Event, after: State)
    requires AllFramed(status, s, events) && e.Chunk? && Enabled(s, e) && Advances(status, s, e, after)
    requires e.id in after.connections
    ensures Framed(status, after.connections[e.id], Received(events + [e], e.id))
  {
    ReceivedOne(events, e, e.id);
    ChunkIsFramed(status, s.connections[e.id], Received(events, e.id), e.text);
  }

  lemma NoTextKeepsFraming(status: string -> Option<string>, s: State, events: seq<Event>, e: Event)
    requires AllFramed(status, s, events) && Enabled(s, e) && !e.Chunk?
    ensures AllFramed(status, Step(status, s, e), events)
  {
    EmptyIsFramed(status);
  }

  lemma EmptyIsFramed(status: string -> Option<string>)
    ensures Unfinished("") == "" && FirstVerdict(line => LineSays(status, line), CompleteLines("")) == None
  {
    SplitOnClear("", '\n');
  }

  lemma {:induction false} RunOneMore(status: string -> Option<string>, s: State, events: seq<Event>, e: Event)
    requires CanRun(status, s, events + [e])
    ensures CanRun(status, s, events) && Enabled(RunOf(status, s, events), e)
    ensures RunOf(status, s, events + [e]) == Step(status, RunOf(status, s, events), e)
    decreases |events|
  {
    if events == [] {
      assert [] + [e] == [e];
    } else {
      assert (events + [e])[1..] == events[1..] + [e];
      RunOneMore(status, Step(status, s, events[0]), events[1..], e);
    }
  }

  lemma {:induction false} RunIsFramed(status: string -> Option<string>, now: nat, timeout: nat, events: seq<Event>)
    requires CanRun(status, Start(now, timeout), events)
    ensures AllFramed(status, RunOf(status, Start(now, timeout), events), events)
    decreases |events|
  {
    if events != [] {
      var before, last := events[..|events| - 1], events[|events| - 1];
      assert events == before + [last];
      RunOneMore(status, Start(now, timeout), before, last);
      RunIsFramed(status, now, timeout, before);
      StepKeepsFraming(status, RunOf(status, Start(now, timeout), before), before, last);
    }
  }

  /**
   However the streams are cut into chunks, and whatever happens in between: the owner's verdict
   that settles a wait is that of the first decisive complete line of all the text that one
   connection received up to one of its chunks.
   */
  lemma VerdictIsOfStream(status: string -> Option<string>, now: nat, timeout: nat, events: seq<Event>) returns (k: nat)
    requires CanRun(status, Start(now, timeout), events)
    requires RunOf(status, Start(now, timeout), events).settled in {Some(Approved), Some(Rejected)}
    ensures k < |events| && events[k].Chunk?
    ensures FirstVerdict(line => LineSays(status, line), CompleteLines(Received(events[..k + 1], events[k].id)))
         == RunOf(status, Start(now, timeout), events).settled
  {
    var start := Start(now, timeout);
    var v := RunOf(status, start, events).settled.value;
    EveryRunIsSafe(status, now, timeout, events);
    k := HeardWasReceived(status, start, events, v);
    RunIsFramed(status, now, timeout, events[..k]);
    BroughtIsOfStream(status, RunOf(status, start, events[..k]), events[..k], events[k], v);
    assert events[..k + 1] == events[..k] + [events[k]];
  }

  /** A verdict that a chunk brings is that of the text its connection received. */
  lemma BroughtIsOfStream(status: string -> Option<string>, s: State, events: seq<Event>, e: Event, v: Verdict)
    requires AllFramed(status, s, events) && Brings(status, s, e, v)
    ensures FirstVerdict(line => LineSays(status, line), CompleteLines(Received(events + [e], e.id))) == Some(v)
  {
    ChunkIsFramed(status, s.connections[e.id], Received(events, e.id), e.text);
    ReceivedOne(events, e, e.id);
  }
}
