/** What a registration wait answers, told by the events it was given. */
module RegistrationLaws {
  import opened Wrappers
  import opened Text
  import opened EventStream
  import opened RegistrationWait
  import Polling

  // ----- events

  /** An approval that names its agent, in the one spelling or, without that, in the other. */
  predicate Approves(e: Event, agent: string, owner: string) {
    && e.status == Some("approved") && agent != ""
    && (e.agent_id == Some(agent) || (e.agent_id == None && e.agentId == Some(agent)))
    && (|| e.owner_id == Some(owner)
        || (e.owner_id == None && e.ownerId == Some(owner))
        || (e.owner_id == None && e.ownerId == None && owner == ""))
  }

  /** What an event tells the wait. */
  predicate Tells(e: Event, v: WaitResult) {
    match v
    case Approved(agent, owner, key) => Approves(e, agent, owner) && key == ""
    case Rejected => e.status == Some("rejected")
    case Expired => e.status == Some("timeout") || e.status == Some("expired")
    case TimedOut => false
  }

  lemma EventSaysIff(e: Event, v: WaitResult)
    ensures ParseEvent(e) == Some(v) <==> Tells(e, v)
  {
  }

  /** The line is data, and what is left of it without white space reads as an event that tells this. */
  ghost predicate LineTells(parse: string -> Option<Event>, line: string, v: WaitResult) {
    exists behind, data, e ::
      line == "data:" + behind && Trims(behind, data) && data != "" && parse(data) == Some(e) && Tells(e, v)
  }

  lemma LineSaysIff(parse: string -> Option<Event>, line: string, v: WaitResult)
    ensures LineVerdict(parse, line) == Some(v) <==> LineTells(parse, line, v)
  {
    if LineVerdict(parse, line) == Some(v) {
      assert line == "data:" + line[5..];
      TrimsIff(line[5..], Trim(line[5..]));
      EventSaysIff(parse(Trim(line[5..])).value, v);
    }
    if LineTells(parse, line, v) {
      var behind, data, e :|
        line == "data:" + behind && Trims(behind, data) && data != "" && parse(data) == Some(e) && Tells(e, v);
      assert line[5..] == behind && line[0] == 'd';
      TrimsIff(behind, data);
      EventSaysIff(e, v);
    }
  }

  // ----- the stream and the status

  ghost predicate Silent(parse: string -> Option<Event>, line: string) {
    forall v :: !LineTells(parse, line, v)
  }

  ghost predicate Mute(reply: Option<Event>) {
    reply.None? || forall v :: !Tells(reply.value, v)
  }

  /** Complete line `i` of the stream tells this, and no earlier line tells anything. */
  ghost predicate StreamTells(parse: string -> Option<Event>, lines: seq<string>, i: nat, v: WaitResult) {
    i < |lines| && LineTells(parse, lines[i], v) && forall j | 0 <= j < i :: Silent(parse, lines[j])
  }

  /** Status `k` tells this, and no earlier one tells anything. */
  ghost predicate StatusTells(script: Script, k: nat, v: WaitResult) {
    script(k).reply.Some? && Tells(script(k).reply.value, v) && forall j: nat | j < k :: Mute(script(j).reply)
  }

  lemma SilentIff(parse: string -> Option<Event>, line: string)
    ensures LineVerdict(parse, line).None? <==> Silent(parse, line)
  {
    if LineVerdict(parse, line).Some? {
      LineSaysIff(parse, line, LineVerdict(parse, line).value);
    }
    if LineVerdict(parse, line).None? {
      forall v ensures !LineTells(parse, line, v) {
        LineSaysIff(parse, line, v);
      }
    }
  }

  lemma MuteIff(reply: Option<Event>)
    ensures ReplyVerdict(reply).None? <==> Mute(reply)
  {
    if reply.Some? {
      forall v ensures ParseEvent(reply.value) == Some(v) <==> Tells(reply.value, v) {
        EventSaysIff(reply.value, v);
      }
    }
  }

  /** The stream's verdict is the one that its first telling line tells. */
  lemma StreamSays(parse: string -> Option<Event>, lines: seq<string>)
    ensures match FirstVerdict(line => LineVerdict(parse, line), lines)
            case Some(v) => exists i: nat :: StreamTells(parse, lines, i, v)
            case None => forall i | 0 <= i < |lines| :: Silent(parse, lines[i])
  {
    var judge := line => LineVerdict(parse, line);
    forall line ensures judge(line).None? <==> Silent(parse, line) {
      SilentIff(parse, line);
    }
    if FirstVerdict(judge, lines).Some? {
      var v := FirstVerdict(judge, lines).value;
      var i := FirstVerdictAt(judge, lines);
      LineSaysIff(parse, lines[i], v);
      assert StreamTells(parse, lines, i, v);
    } else {
      FirstVerdictSays(judge, lines);
      assert forall i | 0 <= i < |lines| :: lines[i] in lines;
    }
  }

  /** The polled verdict is the one that the first telling status tells, and a timeout if none does in time. */
  lemma StatusSays(script: Script, deadline: nat, start: nat)
    ensures var p := PollFrom(script, deadline, start, 0);
      || (p.checks > 0 && StatusTells(script, p.checks - 1, p.result))
      || (p.result == TimedOut && p.ended >= deadline && forall k: nat | k < p.checks :: Mute(script(k).reply))
  {
    var p := PollFrom(script, deadline, start, 0);
    PollMeansFirst(script, deadline, start);
    forall k: nat ensures ReplyVerdict(script(k).reply).None? <==> Mute(script(k).reply) {
      MuteIff(script(k).reply);
    }
    if p.checks > 0 && ReplyVerdict(script(p.checks - 1).reply).Some? {
      EventSaysIff(script(p.checks - 1).reply.value, p.result);
    }
  }

  /** A claim changes the key of an approval and nothing else. */
  predicate ClaimedFrom(r: WaitResult, v: WaitResult, claim: Option<string>) {
    match v
    case Approved(agent, owner, key) => r == Approved(agent, owner, if claim.Some? then claim.value else key)
    case _ => r == v
  }

  /**
   The wait answers what the first telling line of the stream tells; if no line tells anything, what
   the first telling status tells; and a timeout only when there is none up to the deadline. The key
   of an approval is the claimed one.
   */
  lemma AnswerIsFirstTold(
      parse: string -> Option<Event>, chunks: seq<string>, script: Script, deadline: nat, polling: nat,
      claim: Option<string>)
    ensures var lines, v := CompleteLines(Concat(chunks)), Waited(parse, chunks, script, deadline, polling);
      var p := PollFrom(script, deadline, polling, 0);
      && ClaimedFrom(Enriched(v, claim), v, claim)
      && (|| (exists i: nat :: StreamTells(parse, lines, i, v))
          || ((forall i | 0 <= i < |lines| :: Silent(parse, lines[i]))
              && (if v == TimedOut then p.ended >= deadline && forall k: nat | k < p.checks :: Mute(script(k).reply)
                  else p.checks > 0 && StatusTells(script, p.checks - 1, v))))
  {
    StreamSays(parse, CompleteLines(Concat(chunks)));
    StatusSays(script, deadline, polling);
  }

  // ----- time

  /** The time of the first `n` rounds: five seconds and what the sleep takes beyond them, and the request. */
  ghost function Spent(script: Script, n: nat): nat {
    if n == 0 then 0 else Spent(script, n - 1) + 5_000 + script(n - 1).overslept + script(n - 1).took
  }

  lemma PollTakes(script: Script, deadline: nat, start: nat)
    ensures var p := PollFrom(script, deadline, start, 0);
      p.ended == start + Spent(script, p.checks)
  {
    var turns, p := Turns(script), PollFrom(script, deadline, start, 0);
    Polling.PollTakes(turns, POLL_INTERVAL, deadline, start, 0);
    SpentIsPassed(script, p.checks);
    if p.checks > 0 {
      SpentIsPassed(script, p.checks - 1);
    }
  }

  lemma {:induction false} SpentIsPassed(script: Script, n: nat)
    ensures Polling.Passed(Turns(script), 0, n) == Spent(script, n)
  {
    if n > 0 {
      SpentIsPassed(script, n - 1);
    }
  }
}
