/** What the three waits hear and how they take it, told by replies, codes and fields alone. */
module LongPollLaws {
  import opened Wrappers
  import opened LongPoll

  // ----- the one retry

  /** A reply with this code, whole or, in TypeScript, with its body lost. */
  predicate AnsweredWith(p: Program, reply: Reply, code: int) {
    match reply
    case Http(c, _, _) => c == code
    case BodyLost(c) => c == code && (p == Client || p == Server)
    case _ => false
  }

  /** The attempt that a program goes by: the second one exactly behind a 401. */
  ghost predicate GoesBy(p: Program, r: Round, reply: Reply, took: nat) {
    if AnsweredWith(p, r.first.reply, 401) then reply == r.second.reply && took == r.first.took + r.second.took
    else reply == r.first.reply && took == r.first.took
  }

  /**
   A 401 is tried once more, and the check is then what the second attempt comes to and takes the time
   of both; anything else, failures included, stands as it is.
   */
  lemma RetriedOnce(p: Program, r: Round)
    ensures r.first.reply.Http? && r.first.reply.code == 401 ==>
      CheckerOf(p)(r) == Check(Reading(p, r.second.reply), r.first.took + r.second.took)
    ensures r.first.reply.Http? && r.first.reply.code != 401 ==>
      CheckerOf(p)(r) == Check(Reading(p, r.first.reply), r.first.took)
    ensures r.first.reply.TransportFailure? || r.first.reply.SigningFailure? ==>
      CheckerOf(p)(r) == Check(Reading(p, r.first.reply), r.first.took)
    ensures r.first.reply.BodyLost? ==>
      CheckerOf(p)(r) == if r.first.reply.code == 401 && p != Python
                         then Check(Reading(p, r.second.reply), r.first.took + r.second.took)
                         else Check(Reading(p, r.first.reply), r.first.took)
    ensures forall reply, took | GoesBy(p, r, reply, took) :: CheckerOf(p)(r) == Check(Reading(p, reply), took)
  {
  }

  /** The attempt a program goes by in this round decides nothing. */
  ghost predicate Pending(p: Program, r: Round) {
    forall reply, took | GoesBy(p, r, reply, took) :: Reading(p, reply).None?
  }

  /** The attempt a program goes by in this round has this outcome. */
  ghost predicate Decides(p: Program, r: Round, outcome: Outcome) {
    forall reply, took | GoesBy(p, r, reply, took) :: Reading(p, reply) == Some(outcome)
  }

  /**
   Each program's wait ends with the outcome of the attempt it goes by in its last round, and all rounds
   before are pending; without an outcome every round is, and the budget is over.
   */
  lemma WaitGoesByAttempts(p: Program, script: Script, poll: nat, budget: nat, start: nat)
    requires poll > 0
    ensures var w := Wait(CheckerOf(p), script, poll, budget, start, start, 0);
      if w.outcome == TimedOut then
        w.ended >= start + budget && forall i | 0 <= i < w.checks :: Pending(p, script(i))
      else
        && w.checks > 0 && Decides(p, script(w.checks - 1), w.outcome)
        && forall i | 0 <= i < w.checks - 1 :: Pending(p, script(i))
  {
    var checker := CheckerOf(p);
    WaitMeansFirst(checker, script, poll, budget, start, start, 0);
    NoProgramTimesOut(p);
    WaitTakes(checker, script, poll, budget, start, start, 0);
    forall r: Round
      ensures checker(r).verdict.None? ==> Pending(p, r)
      ensures checker(r).verdict.Some? ==> Decides(p, r, checker(r).verdict.value)
    {
      RetriedOnce(p, r);
    }
  }

  // ----- time

  /** A sleep of the poll interval and what it oversleeps, and the check. */
  function TimeOf(check: Check, poll: nat, r: Round): nat {
    poll + r.overslept + check.took
  }

  /** The time that these rounds take. */
  ghost function Spent(checker: Checker, script: Script, poll: nat, from: nat, end: nat): nat
    requires from <= end
    decreases end - from
  {
    if from == end then 0
    else TimeOf(checker(script(from)), poll, script(from)) + Spent(checker, script, poll, from + 1, end)
  }

  /**
   A wait takes exactly the time of its rounds; it begins a round only within its budget, and gives up
   only when the budget is over.
   */
  lemma {:induction false} WaitTakes(
      checker: Checker, script: Script, poll: nat, budget: nat, start: nat, now: nat, k: nat)
    requires poll > 0 && start <= now
    ensures var w := Wait(checker, script, poll, budget, start, now, k);
      && k <= w.checks && w.ended == now + Spent(checker, script, poll, k, w.checks)
      && (forall i | k <= i < w.checks :: now + Spent(checker, script, poll, k, i) < start + budget)
      && (w.outcome == TimedOut && NeverTimesOut(checker) ==> w.ended >= start + budget)
    decreases start + budget - now
  {
    if now - start < budget && checker(script(k)).verdict.None? {
      WaitTakes(checker, script, poll, budget, start, now + Length(checker, script(k), poll), k + 1);
    }
  }

  // ----- readings

  /** The codes that stand for success. */
  predicate Accepts(p: Program, code: int) {
    if p == Python then code < 400 else 200 <= code < 300
  }

  predicate Says(p: Program, reply: Reply, q: Payload) {
    reply.Http? && Accepts(p, reply.code) && reply.json == Some(Object(q))
  }

  /** The action was approved and done, with this result; the server alone looks at it before the error. */
  predicate Carries(p: Program, q: Payload, result: Upstream) {
    q.status == "approved" && q.executed && q.result == Some(result) && (p == Server || q.executionError == "")
  }

  lemma StatusesDiffer()
    ensures "approved" != "denied" && "approved" != "expired" && "denied" != "expired"
  {
    assert "approved"[0] == 'a' && "denied"[0] == 'd' && "expired"[0] == 'e';
  }

  /** Read as denied, with what is said about it, is exactly an answer of the owner that denies. */
  lemma ReadsDenied(p: Program, reply: Reply, detail: string)
    ensures Reading(p, reply) == Some(Denied(detail))
       <==> exists q :: Says(p, reply, q) && q.status == "denied" && q.executionError == detail
  {
    StatusesDiffer();
    if q :| Says(p, reply, q) && q.status == "denied" && q.executionError == detail {
      assert Reading(p, reply) == Some(Denied(detail));
    }
  }

  lemma ReadsExpired(p: Program, reply: Reply)
    ensures Reading(p, reply) == Some(Expired) <==> exists q :: Says(p, reply, q) && q.status == "expired"
  {
    StatusesDiffer();
    if q :| Says(p, reply, q) && q.status == "expired" {
      assert Reading(p, reply) == Some(Expired);
    }
  }

  /** An execution error counts unless the request was denied or has expired, or the server has a result. */
  lemma ReadsExecutionFailed(p: Program, reply: Reply, detail: string)
    ensures Reading(p, reply) == Some(ExecutionFailed(detail))
       <==> exists q :: Says(p, reply, q) && q.status != "denied" && q.status != "expired"
              && detail != "" && q.executionError == detail
              && !(p == Server && q.status == "approved" && q.executed && q.result.Some?)
  {
    StatusesDiffer();
  }

  lemma ReadsHttpError(p: Program, reply: Reply, code: int, text: string)
    ensures Reading(p, reply) == Some(HttpError(code, text))
       <==> reply.Http? && reply.code == code && reply.text == text && !Accepts(p, code)
  {
  }

  /** The data of a result: of a status that is a success, and in TypeScript of one that is no number. */
  predicate GivesData(p: Program, result: Upstream, data: Option<string>) {
    match result
    case Empty => p != Python && data == None
    case NoObject => p != Python && data == None
    case Fields(status, d) =>
      d == data && ((status.Status? && 200 <= status.code < 300) || (p != Python && (status.NoStatus? || status.Text?)))
  }

  lemma ReadsData(p: Program, reply: Reply, data: Option<string>)
    ensures Reading(p, reply) == Some(Data(data))
       <==> exists q, result :: Says(p, reply, q) && Carries(p, q, result) && GivesData(p, result, data)
  {
    StatusesDiffer();
    if q, result :| Says(p, reply, q) && Carries(p, q, result) && GivesData(p, result, data) {
      assert Reading(p, reply) == Some(Data(data));
    }
    if Reading(p, reply) == Some(Data(data)) {
      var q := reply.json.value.payload;
      assert Says(p, reply, q) && Carries(p, q, q.result.value) && GivesData(p, q.result.value, data);
    }
  }

  /** A result that is a failure: a number that is none of success, null, or in Python a missing status. */
  predicate GivesFailure(p: Program, result: Upstream, status: Option<int>, data: Option<string>) {
    && result.Fields? && result.data == data
    && match result.status
       case Status(code) => !(200 <= code < 300) && status == Some(code)
       case NullStatus => p != Python && status == None
       case NoStatus => p == Python && status == Some(0)
       case Text => false
  }

  lemma ReadsUpstreamError(p: Program, reply: Reply, status: Option<int>, data: Option<string>)
    ensures Reading(p, reply) == Some(UpstreamError(status, data))
       <==> exists q, result :: Says(p, reply, q) && Carries(p, q, result) && GivesFailure(p, result, status, data)
  {
    StatusesDiffer();
    if q, result :| Says(p, reply, q) && Carries(p, q, result) && GivesFailure(p, result, status, data) {
      assert Reading(p, reply) == Some(UpstreamError(status, data));
    }
    if Reading(p, reply) == Some(UpstreamError(status, data)) {
      var q := reply.json.value.payload;
      assert Says(p, reply, q) && Carries(p, q, q.result.value) && GivesFailure(p, q.result.value, status, data);
    }
  }

  /** What a program waits on: failures it takes for passing, and answers that nothing has come of yet. */
  predicate WaitsOn(p: Program, reply: Reply) {
    match reply
    case SigningFailure => p != Python
    case TransportFailure => true
    case BodyLost(_) => p == Python
    case Http(code, _, json) =>
      && Accepts(p, code)
      && match json
         case Some(OtherBody) => p != Python
         case Some(Object(q)) =>
           && q.status != "denied" && q.status != "expired" && q.executionError == ""
           && (q.status != "approved" || !q.executed || q.result == None || (p == Python && q.result == Some(Empty)))
         case _ => false
  }

  lemma ReadsPending(p: Program, reply: Reply)
    ensures Reading(p, reply) == None <==> WaitsOn(p, reply)
  {
    StatusesDiffer();
  }

  /** In Python, a result without fields, or with a status that is no number. */
  predicate GivesException(result: Upstream) {
    result.NoObject? || (result.Fields? && (result.status.NullStatus? || result.status.Text?))
  }

  /** The exceptions that end a wait on something that cannot be read. */
  lemma ReadsException(p: Program, reply: Reply)
    ensures Reading(p, reply) == Some(Unsigned) <==> p == Python && reply == SigningFailure
    ensures Reading(p, reply) == Some(Unread) <==> p != Python && reply.BodyLost?
    ensures Reading(p, reply) == Some(Unparsable) <==> reply.Http? && Accepts(p, reply.code) && reply.json == None
    ensures Reading(p, reply) == Some(Malformed) <==>
      && reply.Http? && Accepts(p, reply.code)
      && (|| reply.json == Some(NullBody)
          || (p == Python && reply.json == Some(OtherBody))
          || (p == Python && exists q, result ::
                Says(p, reply, q) && Carries(p, q, result) && GivesException(result)))
  {
    StatusesDiffer();
    if Reading(p, reply) == Some(Malformed) && reply.json.value.Object? {
      var q := reply.json.value.payload;
      assert Says(p, reply, q) && Carries(p, q, q.result.value);
    }
  }
}
