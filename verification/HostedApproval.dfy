/** The hosted approval provider: opens a request and polls its status until a deadline. */
module HostedApproval {
  import opened Wrappers
  import opened BrokerTypes
  import Polling

  /** A status request throws, or answers with a status that may be missing. */
  type StatusReply = Result<Option<string>, string>

  datatype Round = Round(reply: StatusReply, took: nat, overslept: nat)

  type Script = nat -> Round

  /** What the provider returns or throws, the number of its status requests, and when it ended. */
  datatype Polled = Polled(result: Result<ApprovalResult, string>, checks: nat, ended: nat)

  /** The answer a status reply decides, `None` for one that is still pending. */
  function Decided(reply: StatusReply): Option<Result<ApprovalResult, string>> {
    match reply
    case Failure(message) => Some(Failure(message))
    case Success(status) =>
      if status == Some("approved") then Some(Success(ApprovalResult(true, None)))
      else if status == Some("denied") then Some(Success(ApprovalResult(false, Some("declined"))))
      else if status == Some("expired") then Some(Success(ApprovalResult(false, Some("timeout"))))
      else None
  }

  const OUT_OF_TIME: Result<ApprovalResult, string> := Success(ApprovalResult(false, Some("timeout")))

  /** The provider asks first and sleeps after an answer that decides nothing. */
  function Turns(script: Script, poll: nat): (turns: Polling.Turns<Result<ApprovalResult, string>>)
    ensures poll > 0 ==> Polling.Apart(turns, poll)
  {
    assert forall k: nat :: script(k).took + poll + script(k).overslept >= poll;
    (k: nat) => Polling.Turn(Decided(script(k).reply), script(k).took, script(k).took + poll + script(k).overslept)
  }

  /** No decisive status before the deadline is a refusal. */
  function Concluded(p: Polling.Polled<Result<ApprovalResult, string>>): Polled {
    Polled(if p.verdict.Some? then p.verdict.value else OUT_OF_TIME, p.checks, p.ended)
  }

  ghost function Poll(script: Script, poll: nat, deadline: nat, now: nat, k: nat): Polled
    requires poll > 0
  {
    Concluded(Polling.Poll(Turns(script, poll), poll, deadline, now, k))
  }

  /** `created` is the answer to opening the request: its id, if it has one. */
  method Request(created: Result<Option<string>, string>, script: Script, timeout: nat, poll: nat, start: nat)
    returns (p: Polled)
    requires poll > 0
    ensures created.Failure? ==> p == Polled(Failure(created.error), 0, start)
    ensures created.Success? && (created.value.None? || created.value.value == "") ==>
      p == Polled(Failure("hosted approval create returned no id"), 0, start)
    ensures created.Success? && created.value.Some? && created.value.value != "" ==>
      p == Poll(script, poll, start + timeout, start, 0)
  {
    if created.Failure? {
      return Polled(Failure(created.error), 0, start);
    }
    if created.value.None? || created.value.value == "" {
      return Polled(Failure("hosted approval create returned no id"), 0, start);
    }
    var deadline := start + timeout;
    var now, k := start, 0;
    while now < deadline
      invariant Poll(script, poll, deadline, start, 0) == Poll(script, poll, deadline, now, k)
      decreases deadline - now
    {
      var r := script(k);
      k := k + 1;
      now := now + r.took;
      if r.reply.Failure? {
        return Polled(Failure(r.reply.error), k, now);
      }
      var status := r.reply.value;
      if status == Some("approved") {
        return Polled(Success(ApprovalResult(true, None)), k, now);
      }
      if status == Some("denied") {
        return Polled(Success(ApprovalResult(false, Some("declined"))), k, now);
      }
      if status == Some("expired") {
        return Polled(Success(ApprovalResult(false, Some("timeout"))), k, now);
      }
      now := now + poll + r.overslept;
    }
    return Polled(OUT_OF_TIME, k, now);
  }

  /**
   The provider answers with its first decisive status, or out of time when there is none, after
   at most as many requests as the poll interval fits into the time left, rounded up.
   */
  lemma PollMeansFirst(script: Script, poll: nat, deadline: nat, start: nat)
    requires poll > 0
    ensures var p := Poll(script, poll, deadline, start, 0);
      && (forall i | 0 <= i < p.checks - 1 :: Decided(script(i).reply).None?)
      && (if 0 < p.checks && Decided(script(p.checks - 1).reply).Some?
          then p.result == Decided(script(p.checks - 1).reply).value
          else p.result == OUT_OF_TIME && p.ended >= deadline)
      && (p.checks > 0 ==> start + (p.checks - 1) * poll < deadline)
  {
    var turns := Turns(script, poll);
    Polling.PollMeansFirst(turns, poll, deadline, start, start, 0);
    assert forall i :: turns(i).verdict == Decided(script(i).reply);
  }

  /** The provider never says yes without an approved status: silence and time deny. */
  lemma ApprovalNeedsApproved(script: Script, poll: nat, deadline: nat, start: nat)
    requires poll > 0
    ensures var p := Poll(script, poll, deadline, start, 0);
      p.result.Success? && p.result.value.approved
      <==> p.checks > 0 && script(p.checks - 1).reply == Success(Some("approved"))
  {
    PollMeansFirst(script, poll, deadline, start);
  }

  // ----- the statuses, one by one

  predicate Undecided(reply: StatusReply) {
    reply.Success? && reply.value != Some("approved") && reply.value != Some("denied") && reply.value != Some("expired")
  }

  /** What the reply that ends the loop makes the provider return or throw. */
  lemma EndsOnReply(script: Script, poll: nat, deadline: nat, start: nat)
    requires poll > 0
    ensures var p := Poll(script, poll, deadline, start, 0);
      && (forall i | 0 <= i < p.checks - 1 :: Undecided(script(i).reply))
      && (p.checks == 0 || Undecided(script(p.checks - 1).reply) ==>
            p.result == Success(ApprovalResult(false, Some("timeout"))) && p.ended >= deadline)
      && (p.checks > 0 ==> Says(script(p.checks - 1).reply, p.result))
  {
    PollMeansFirst(script, poll, deadline, start);
  }

  /** A failure is thrown on; three statuses decide. */
  predicate Says(reply: StatusReply, r: Result<ApprovalResult, string>) {
    && (reply.Failure? ==> r == Failure(reply.error))
    && (reply == Success(Some("approved")) ==> r == Success(ApprovalResult(true, None)))
    && (reply == Success(Some("denied")) ==> r == Success(ApprovalResult(false, Some("declined"))))
    && (reply == Success(Some("expired")) ==> r == Success(ApprovalResult(false, Some("timeout"))))
  }

  /** The time of the first `n` rounds: a request, the interval, and what the sleep takes beyond it. */
  ghost function Spent(script: Script, poll: nat, n: nat): nat {
    if n == 0 then 0 else Spent(script, poll, n - 1) + script(n - 1).took + poll + script(n - 1).overslept
  }

  /** The provider is as quick as its requests and sleeps: nothing else takes time, and none is left out. */
  lemma PollTakes(script: Script, poll: nat, deadline: nat, start: nat)
    requires poll > 0
    ensures var p := Poll(script, poll, deadline, start, 0);
      p.ended == if p.checks == 0 || Undecided(script(p.checks - 1).reply) then start + Spent(script, poll, p.checks)
                 else start + Spent(script, poll, p.checks - 1) + script(p.checks - 1).took
  {
    var turns, p := Turns(script, poll), Poll(script, poll, deadline, start, 0);
    Polling.PollTakes(turns, poll, deadline, start, 0);
    Polling.PollMeansFirst(turns, poll, deadline, start, start, 0);
    SpentIsPassed(script, poll, p.checks);
    if p.checks > 0 {
      SpentIsPassed(script, poll, p.checks - 1);
    }
  }

  lemma {:induction false} SpentIsPassed(script: Script, poll: nat, n: nat)
    ensures Polling.Passed(Turns(script, poll), 0, n) == Spent(script, poll, n)
  {
    if n > 0 {
      SpentIsPassed(script, poll, n - 1);
    }
  }
}
