/**
 The wait for a registration decision: over a stream of events first, then by polling a status,
 and at last the key is claimed.
 */
module RegistrationWait {
  import opened Wrappers
  import opened Text
  import opened EventStream
  import Polling

  /** The fields of an event that the wait looks at; a field that is missing or null is `None`. */
  datatype Event = Event(
    status: Option<string>,
    agent_id: Option<string>, agentId: Option<string>,
    owner_id: Option<string>, ownerId: Option<string>)

  datatype WaitResult = Approved(agent: string, owner: string, key: string) | Rejected | Expired | TimedOut

  function Coalesce(a: Option<string>, b: Option<string>): Option<string> {
    if a.Some? then a else b
  }

  function ParseEvent(e: Event): Option<WaitResult> {
    if e.status == Some("approved") then
      match Coalesce(e.agent_id, e.agentId)
      case Some(agent) =>
        if agent == "" then None
        else Some(Approved(agent, Coalesce(Coalesce(e.owner_id, e.ownerId), Some("")).value, ""))
      case None => None
    else if e.status == Some("rejected") then Some(Rejected)
    else if e.status == Some("timeout") || e.status == Some("expired") then Some(Expired)
    else None
  }

  /** What one line says; `parse` stands for the JSON parser, `None` for a parse that throws. */
  function LineVerdict(parse: string -> Option<Event>, line: string): Option<WaitResult> {
    if ":" <= line || !("data:" <= line) then None
    else
      var data := Trim(line[5..]);
      if data == "" then None
      else
        match parse(data)
        case None => None
        case Some(e) => ParseEvent(e)
  }

  /** Looks at lines in order until one of them has a verdict. */
  method Examine(parse: string -> Option<Event>, lines: seq<string>) returns (r: Option<WaitResult>)
    ensures r == FirstVerdict(line => LineVerdict(parse, line), lines)
  {
    ghost var judge := line => LineVerdict(parse, line);
    for j := 0 to |lines|
      invariant forall k | 0 <= k < j :: judge(lines[k]).None?
    {
      if ":" <= lines[j] || !("data:" <= lines[j]) {
        continue;
      }
      var dataStr := Trim(lines[j][5..]);
      if dataStr == "" {
        continue;
      }
      var data := parse(dataStr);
      if data.Some? {
        var parsed := ParseEvent(data.value);
        if parsed.Some? {
          FirstVerdictIsFirst(judge, lines, j);
          return parsed;
        }
      }
    }
    NoVerdict(judge, lines);
    return None;
  }

  /**
   Reads chunks until one of them completes a line with a verdict. However the text is cut into
   chunks, the verdict is that of the first line with one among the complete lines of the whole
   text; an unfinished last line is never looked at. Without a verdict the stream's end and an
   error both give none.
   */
  method TrySSE(parse: string -> Option<Event>, chunks: seq<string>) returns (r: Option<WaitResult>)
    ensures r == FirstVerdict(line => LineVerdict(parse, line), CompleteLines(Concat(chunks)))
  {
    ghost var judge := line => LineVerdict(parse, line);
    var buffer := "";
    assert CompleteLines("") == [] && Unfinished("") == "";
    for i := 0 to |chunks|
      invariant buffer == Unfinished(Concat(chunks[..i]))
      invariant FirstVerdict(judge, CompleteLines(Concat(chunks[..i]))) == None
    {
      ghost var before := Concat(chunks[..i]);
      assert chunks[..i + 1][..i] == chunks[..i];
      LinesGoOn(before, chunks[i]);
      buffer := buffer + chunks[i];
      var lines := SplitOn(buffer, '\n');
      FirstVerdictAppend(judge, CompleteLines(before), Front(lines));
      buffer := Last(lines);
      lines := Front(lines);
      var parsed := Examine(parse, lines);
      if parsed.Some? {
        VerdictStays(judge, chunks, i + 1);
        return parsed;
      }
    }
    assert chunks[..|chunks|] == chunks;
    return None;
  }

  // ----- polling the status

  const POLL_INTERVAL := 5_000

  /** One round: a sleep, and a status request; `None` for one that fails or cannot be read. */
  datatype Round = Round(overslept: nat, reply: Option<Event>, took: nat)

  type Script = nat -> Round

  datatype Polled = Polled(result: WaitResult, checks: nat, ended: nat)

  function ReplyVerdict(reply: Option<Event>): Option<WaitResult> {
    match reply
    case None => None
    case Some(e) => ParseEvent(e)
  }

  function Length(r: Round): nat {
    POLL_INTERVAL + r.overslept + r.took
  }

  /** The wait sleeps first and asks then. */
  function Turns(script: Script): (turns: Polling.Turns<WaitResult>)
    ensures Polling.Apart(turns, POLL_INTERVAL)
  {
    assert forall k: nat :: Length(script(k)) >= POLL_INTERVAL;
    (k: nat) => Polling.Turn(ReplyVerdict(script(k).reply), Length(script(k)), Length(script(k)))
  }

  /** No verdict before the deadline is a timeout. */
  function Concluded(p: Polling.Polled<WaitResult>): Polled {
    Polled(if p.verdict.Some? then p.verdict.value else TimedOut, p.checks, p.ended)
  }

  ghost function PollFrom(script: Script, deadline: nat, now: nat, k: nat): Polled {
    Concluded(Polling.Poll(Turns(script), POLL_INTERVAL, deadline, now, k))
  }

  method Poll(script: Script, deadline: nat, start: nat) returns (p: Polled)
    ensures p == PollFrom(script, deadline, start, 0)
  {
    var now, k := start, 0;
    while now < deadline
      invariant PollFrom(script, deadline, start, 0) == PollFrom(script, deadline, now, k)
      decreases deadline - now
    {
      var r := script(k);
      k := k + 1;
      now := now + POLL_INTERVAL + r.overslept + r.took;
      if r.reply.Some? {
        var parsed := ParseEvent(r.reply.value);
        if parsed.Some? {
          return Polled(parsed.value, k, now);
        }
      }
    }
    return Polled(TimedOut, k, now);
  }

  /** No event reads as a timeout of the wait, and none brings a key. */
  lemma EventsBringNoKey(e: Event)
    ensures ParseEvent(e) != Some(TimedOut)
    ensures ParseEvent(e).Some? && ParseEvent(e).value.Approved? ==>
      ParseEvent(e).value.key == "" && ParseEvent(e).value.agent != "" && e.status == Some("approved")
  {
  }

  /** Polling gives the first verdict of a status, or a timeout after the deadline if there is none. */
  lemma PollMeansFirst(script: Script, deadline: nat, start: nat)
    ensures var p := PollFrom(script, deadline, start, 0);
      && (forall i | 0 <= i < p.checks - 1 :: ReplyVerdict(script(i).reply).None?)
      && (if 0 < p.checks && ReplyVerdict(script(p.checks - 1).reply).Some?
          then p.result == ReplyVerdict(script(p.checks - 1).reply).value
          else p.result == TimedOut && p.ended >= deadline)
      && (p.checks > 0 ==> start + (p.checks - 1) * POLL_INTERVAL < deadline)
  {
    var turns := Turns(script);
    Polling.PollMeansFirst(turns, POLL_INTERVAL, deadline, start, start, 0);
    assert forall i :: turns(i).verdict == ReplyVerdict(script(i).reply);
  }

  // ----- the whole wait

  /** `claim` is the key that claiming it gives; `None` for a claim that fails. */
  function Enriched(result: WaitResult, claim: Option<string>): WaitResult {
    if result.Approved? && claim.Some? then result.(key := claim.value) else result
  }

  ghost function Waited(
      parse: string -> Option<Event>, chunks: seq<string>, script: Script, deadline: nat, polling: nat): WaitResult
  {
    match FirstVerdict(line => LineVerdict(parse, line), CompleteLines(Concat(chunks)))
    case Some(v) => v
    case None => PollFrom(script, deadline, polling, 0).result
  }

  /** `chunks` are what the stream brings until it ends, fails or is aborted at the time `polling`. */
  method WaitForApproval(
      parse: string -> Option<Event>, chunks: seq<string>, script: Script, claim: Option<string>,
      start: nat, timeout: nat, polling: nat)
    returns (r: WaitResult)
    ensures r == Enriched(Waited(parse, chunks, script, start + timeout, polling), claim)
  {
    var heard := TrySSE(parse, chunks);
    var result: WaitResult;
    if heard.Some? {
      result := heard.value;
    } else {
      var polled := Poll(script, start + timeout, polling);
      result := polled.result;
    }
    if result.Approved? && claim.Some? {
      result := Approved(result.agent, result.owner, claim.value);
    }
    return result;
  }

  /** A line of the stream has this verdict. */
  ghost predicate Streamed(parse: string -> Option<Event>, chunks: seq<string>, v: WaitResult) {
    exists line | line in CompleteLines(Concat(chunks)) :: LineVerdict(parse, line) == Some(v)
  }

  /** One of the first `n` status requests has this verdict. */
  ghost predicate Reported(script: Script, n: nat, v: WaitResult) {
    exists k | 0 <= k < n :: ReplyVerdict(script(k).reply) == Some(v)
  }

  /**
   The wait answers only what it was told: a verdict of the owner was in a complete line of the
   stream or in a status, and a timeout means that neither any complete line nor any status up to
   the deadline had a verdict.
   */
  lemma AnswerWasGiven(
      parse: string -> Option<Event>, chunks: seq<string>, script: Script, deadline: nat, polling: nat)
    ensures var v := Waited(parse, chunks, script, deadline, polling);
      var p := PollFrom(script, deadline, polling, 0);
      if v == TimedOut then
        && (forall line | line in CompleteLines(Concat(chunks)) :: LineVerdict(parse, line).None?)
        && (forall k | 0 <= k < p.checks :: ReplyVerdict(script(k).reply).None?) && p.ended >= deadline
      else Streamed(parse, chunks, v) || Reported(script, p.checks, v)
  {
    var judge := line => LineVerdict(parse, line);
    var lines := CompleteLines(Concat(chunks));
    FirstVerdictSays(judge, lines);
    PollMeansFirst(script, deadline, polling);
    forall line | LineVerdict(parse, line) == Some(TimedOut)
      ensures false
    {
      EventsBringNoKey(parse(Trim(line[5..])).value);
    }
    forall k: nat | ReplyVerdict(script(k).reply) == Some(TimedOut)
      ensures false
    {
      EventsBringNoKey(script(k).reply.value);
    }
  }
}
