/** What settles a revocation wait, told by the lines of its streams, and when its timers are set. */
module RevocationLaws {
  import opened Wrappers
  import opened EventStream
  import opened RevocationWait

  // ----- lines

  /** The status field that stands for a verdict. */
  function Word(v: Verdict): string {
    match v
    case Approved => "approved"
    case Rejected => "rejected"
    case TimedOut => "timeout"
  }

  /** The line is a data line whose JSON has this status. */
  ghost predicate DataLine(status: string -> Option<string>, line: string, word: string) {
    exists json :: line == "data: " + json && status(json) == Some(word)
  }

  lemma WordsDiffer()
    ensures forall v, w :: Word(v) == Word(w) ==> v == w
  {
    assert "approved"[0] == 'a' && "rejected"[0] == 'r' && "timeout"[0] == 't';
  }

  /** A line has a verdict exactly when it is a data line with that verdict for a status. */
  lemma LineSaysIff(status: string -> Option<string>, line: string, v: Verdict)
    ensures LineSays(status, line) == Some(v) <==> DataLine(status, line, Word(v))
  {
    WordsDiffer();
    if "data: " <= line {
      assert line == "data: " + line[6..];
    }
    if json :| line == "data: " + json && status(json) == Some(Word(v)) {
      assert line[6..] == json && line[0] == 'd';
    }
  }

  /** A line without a verdict is no data line with one of the three statuses. */
  lemma NoVerdictIff(status: string -> Option<string>, line: string)
    ensures LineSays(status, line) == None
       <==> forall v: Verdict :: !DataLine(status, line, Word(v))
  {
    forall v: Verdict
      ensures LineSays(status, line) == Some(v) <==> DataLine(status, line, Word(v))
    {
      LineSaysIff(status, line, v);
    }
  }

  // ----- what settles a wait

  /** Among these lines, number `i` is the first with a verdict, and it has this one. */
  ghost predicate FirstToSay(status: string -> Option<string>, lines: seq<string>, i: nat, word: string) {
    && i < |lines| && DataLine(status, lines[i], word)
    && forall j, v: Verdict | 0 <= j < i :: !DataLine(status, lines[j], Word(v))
  }

  /**
   A wait settled as approved received on one connection a complete line of data whose status says
   approved, and no line before it on that connection said approved, rejected or timeout; the same
   holds of rejected.
   */
  lemma OwnerSaidIt(status: string -> Option<string>, now: nat, timeout: nat, events: seq<Event>)
    returns (k: nat, i: nat)
    requires CanRun(status, Start(now, timeout), events)
    requires RunOf(status, Start(now, timeout), events).settled in {Some(Approved), Some(Rejected)}
    ensures k < |events| && events[k].Chunk?
    ensures FirstToSay(status, CompleteLines(Received(events[..k + 1], events[k].id)), i,
      if RunOf(status, Start(now, timeout), events).settled == Some(Approved) then "approved" else "rejected")
  {
    k := VerdictIsOfStream(status, now, timeout, events);
    var lines := CompleteLines(Received(events[..k + 1], events[k].id));
    i := FirstVerdictAt(line => LineSays(status, line), lines);
    LineSaysIff(status, lines[i], RunOf(status, Start(now, timeout), events).settled.value);
    forall j, v: Verdict | 0 <= j < i
      ensures !DataLine(status, lines[j], Word(v))
    {
      LineSaysIff(status, lines[j], v);
    }
  }

  /** The other way: a chunk that completes a line that is the first to say something settles an unsettled wait so. */
  lemma SaidSettles(status: string -> Option<string>, s: State, e: Event, i: nat, v: Verdict)
    requires Enabled(s, e) && e.Chunk? && s.settled.None?
    requires FirstToSay(status, CompleteLines(s.connections[e.id].phase.buffer + e.text), i, Word(v))
    ensures Step(status, s, e).settled == Some(v) && e.id !in Step(status, s, e).connections
  {
    var judge := line => LineSays(status, line);
    var lines := CompleteLines(s.connections[e.id].phase.buffer + e.text);
    LineSaysIff(status, lines[i], v);
    forall j | 0 <= j < i
      ensures judge(lines[j]).None?
    {
      NoVerdictIff(status, lines[j]);
    }
    FirstVerdictIsFirst(judge, lines, i);
  }

  /** A chunk without such a line leaves the wait unsettled, its rest in the buffer, and the read timer set anew. */
  lemma SilenceGoesOn(status: string -> Option<string>, s: State, e: Event)
    requires Enabled(s, e) && e.Chunk?
    requires forall line, v: Verdict | line in CompleteLines(s.connections[e.id].phase.buffer + e.text) ::
      !DataLine(status, line, Word(v))
    ensures var t := Step(status, s, e);
      && t == s.(connections := t.connections) && t.connections.Keys == s.connections.Keys
      && t.connections[e.id].phase == Reading(Unfinished(s.connections[e.id].phase.buffer + e.text))
      && t.connections[e.id].readTimer == Some(s.now + 25_000)
      && t.connections[e.id].aborted == s.connections[e.id].aborted
  {
    var judge := line => LineSays(status, line);
    var lines := CompleteLines(s.connections[e.id].phase.buffer + e.text);
    forall k | 0 <= k < |lines|
      ensures judge(lines[k]).None?
    {
      assert lines[k] in lines;
      NoVerdictIff(status, lines[k]);
    }
    NoVerdict(judge, lines);
  }

  // ----- connections and timers

  /** A connection that ends otherwise than by a verdict. */
  predicate EndsConnection(e: Event) {
    e.FetchFails? || e.StreamEnds? || e.StreamFails? || (e.Response? && !e.ok)
  }

  /**
   While the wait is unsettled, a connection that ends is reconnected one second later, three seconds
   after a refusal; nothing else schedules a reconnect.
   */
  lemma ReconnectIsScheduled(status: string -> Option<string>, s: State, e: Event)
    requires Enabled(s, e)
    ensures var t := Step(status, s, e);
      && (t.scheduled != s.scheduled <==> EndsConnection(e) && s.settled.None?)
      && (t.scheduled != s.scheduled ==>
            && t.retries == s.retries[s.scheduled := s.now + (if e.Response? then 3_000 else 1_000)]
            && t.scheduled == s.scheduled + 1)
      && (EndsConnection(e) ==> t.connections == s.connections - {e.id})
      && (t.scheduled == s.scheduled && !e.RetryFires? ==> t.retries == s.retries)
  {
  }

  /**
   A connection is opened exactly when a reconnect fires on an unsettled wait up to its deadline, with
   25 seconds for the first data; after the deadline the reconnect settles the wait as timed out.
   */
  lemma ConnectionIsOpened(status: string -> Option<string>, s: State, e: Event)
    requires Enabled(s, e)
    ensures var t := Step(status, s, e);
      && (t.connects != s.connects <==> e.RetryFires? && s.settled.None? && s.now <= s.deadline)
      && (t.connects != s.connects ==>
            && t.connects == s.connects + 1
            && t.connections == s.connections[s.connects := Connection(Fetching, Some(s.now + 25_000), false)])
      && (e.RetryFires? ==> t.retries == s.retries - {e.id})
      && (e.RetryFires? && s.now > s.deadline ==> t.settled == if s.settled.Some? then s.settled else Some(TimedOut))
  {
  }

  /** What the other events do: time passes, a stream opens, a silent connection is aborted, the global timer fires. */
  lemma OtherEvents(status: string -> Option<string>, s: State, e: Event)
    requires Enabled(s, e)
    ensures e.Tick? ==> Step(status, s, e) == s.(now := s.now + e.ms)
    ensures e.Response? && e.ok ==>
      Step(status, s, e) == s.(connections := s.connections[e.id := s.connections[e.id].(phase := Reading(""))])
    ensures e.ReadTimerFires? ==>
      Step(status, s, e)
      == s.(connections := s.connections[e.id := s.connections[e.id].(readTimer := None, aborted := true)])
    ensures e.GlobalTimerFires? ==>
      var t := Step(status, s, e);
      && t.globalTimer == None
      && (s.settled.None? ==> t.settled == Some(TimedOut)) && (s.settled.Some? ==> t.settled == s.settled)
      && t.connections == s.connections && t.retries == s.retries
  {
  }

  /** The deadline never moves. */
  lemma DeadlineStays(status: string -> Option<string>, s: State, e: Event)
    requires Enabled(s, e)
    ensures Step(status, s, e).deadline == s.deadline
    ensures Step(status, s, e).now == s.now + if e.Tick? then e.ms else 0
  {
  }

  /** A wait starts with one connection, and with its deadline and its timer at the end of its time. */
  lemma StartIs(now: nat, timeout: nat)
    ensures var s := Start(now, timeout);
      && s.now == now && s.deadline == now + timeout && s.globalTimer == Some(now + timeout)
      && s.settled == None && s.resolutions == 0 && s.heard == [] && s.retries == map[]
      && s.connections == map[0 := Connection(Fetching, Some(now + 25_000), false)]
  {
  }

  // ----- what can come next

  /** The state after nothing but time. */
  function Later(s: State, ms: nat): State {
    s.(now := s.now + ms)
  }

  /** The global timer fires when the time of the wait is over and not before. */
  lemma StartTimersFireWhenDue(start: nat, timeout: nat, ms: nat)
    ensures Enabled(Later(Start(start, timeout), ms), GlobalTimerFires) <==> ms >= timeout
    ensures Enabled(Later(Start(start, timeout), ms), ReadTimerFires(0)) <==> ms >= 25_000
  {
  }

  /**
   The other timers fire when they are due and not before: a connection's read timer 25 seconds after
   it was opened or last brought something, a reconnect one or three seconds after it was scheduled.
   */
  lemma TimersFireWhenDue(status: string -> Option<string>, s: State, e: Event, ms: nat)
    requires Enabled(s, e)
    ensures var t := Step(status, s, e);
      && (t.connects > s.connects ==> (Enabled(Later(t, ms), ReadTimerFires(s.connects)) <==> ms >= 25_000))
      && (e.Chunk? && e.id in t.connections ==> (Enabled(Later(t, ms), ReadTimerFires(e.id)) <==> ms >= 25_000))
      && (t.scheduled > s.scheduled ==>
            (Enabled(Later(t, ms), RetryFires(s.scheduled)) <==> ms >= if e.Response? then 3_000 else 1_000))
  {
  }

  /**
   An open connection is waiting for its answer or bringing its stream, and can fail either way; once
   its read timer has aborted it, it can no longer be answered, and the timer does not fire again. Of a
   connection that is closed nothing is heard.
   */
  lemma WhatCanCome(status: string -> Option<string>, s: State, id: nat, ok: bool, text: string)
    ensures Enabled(s, Chunk(id, text)) <==> Enabled(s, StreamEnds(id))
    ensures Enabled(s, StreamEnds(id)) <==> Enabled(s, StreamFails(id))
    ensures id in s.connections <==> Enabled(s, FetchFails(id)) || Enabled(s, StreamFails(id))
    ensures !(Enabled(s, FetchFails(id)) && Enabled(s, StreamFails(id)))
    ensures Enabled(s, Response(id, ok)) ==> Enabled(s, FetchFails(id))
    ensures Enabled(s, FetchFails(id)) && !s.connections[id].aborted ==> Enabled(s, Response(id, ok))
    ensures Enabled(s, Response(id, ok)) && ok ==> Enabled(Step(status, s, Response(id, ok)), Chunk(id, text))
    ensures Enabled(s, ReadTimerFires(id)) ==>
      var t := Step(status, s, ReadTimerFires(id));
      && !Enabled(t, ReadTimerFires(id)) && !Enabled(t, Response(id, ok))
      && (Enabled(t, FetchFails(id)) <==> Enabled(s, FetchFails(id)))
      && (Enabled(t, StreamFails(id)) <==> Enabled(s, StreamFails(id)))
    ensures Enabled(s, GlobalTimerFires) ==> !Enabled(Step(status, s, GlobalTimerFires), GlobalTimerFires)
    ensures Enabled(s, RetryFires(id)) ==> !Enabled(Step(status, s, RetryFires(id)), RetryFires(id))
  {
  }
}
