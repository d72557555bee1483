/**
 Waiting for an owner's approval by polling: the loops of the TypeScript client, the MCP server
 and the Python client, which differ in how they read one reply. Time is a natural number of
 milliseconds; replies, their durations and the durations of sleeps are arbitrary.
 */
module LongPoll {
  import opened Wrappers

  // ----- one reply

  /** The status field of an upstream result. */
  datatype StatusField = NoStatus | NullStatus | Text | Status(code: int)

  /** A result that JavaScript takes for true: `{}` or `[]`, an object with fields, or anything else. */
  datatype Upstream = Empty | Fields(status: StatusField, data: Option<string>) | NoObject

  /** The body of an approval's status; a missing or empty execution error is "". */
  datatype Payload = Payload(status: string, executionError: string, executed: bool, result: Option<Upstream>)

  /** A body that is valid JSON: an object, null, or a number, text, boolean or array. */
  datatype Body = Object(payload: Payload) | NullBody | OtherBody

  /**
   What a request comes to: the token cannot be signed, the connection fails, it is lost after the
   status and before the end of the body, or a whole reply, with `json` as `None` when its body
   cannot be parsed.
   */
  datatype Reply =
    | SigningFailure
    | TransportFailure
    | BodyLost(code: int)
    | Http(code: int, text: string, json: Option<Body>)

  /**
   Exceptions that end a wait: `Malformed` on a value without the fields that are read, `Unread` on a
   body that is lost, `Unsigned` on a token that cannot be signed.
   */
  datatype Outcome =
    | Data(data: Option<string>)
    | Denied(detail: string)
    | Expired
    | ExecutionFailed(detail: string)
    | HttpError(code: int, text: string)
    | UpstreamError(status: Option<int>, data: Option<string>)
    | Unparsable
    | Malformed
    | Unread
    | Unsigned
    | TimedOut

  predicate HasResult(p: Payload) {
    p.status == "approved" && p.executed && p.result.Some?
  }

  /** In JavaScript null is below 200, and what is no number is neither below nor above anything. */
  function ResultOf(r: Upstream): Outcome {
    match r
    case Empty => Data(None)
    case NoObject => Data(None)
    case Fields(status, data) =>
      match status
      case NoStatus => Data(data)
      case Text => Data(data)
      case NullStatus => UpstreamError(None, data)
      case Status(code) => if code < 200 || code >= 300 then UpstreamError(Some(code), data) else Data(data)
  }

  function ClientReads(p: Payload): Option<Outcome> {
    if p.status == "denied" then Some(Denied(p.executionError))
    else if p.status == "expired" then Some(Expired)
    else if p.executionError != "" then Some(ExecutionFailed(p.executionError))
    else if HasResult(p) then Some(ResultOf(p.result.value))
    else None
  }

  function ServerReads(p: Payload): Option<Outcome> {
    if HasResult(p) then Some(ResultOf(p.result.value))
    else if p.status == "denied" then Some(Denied(p.executionError))
    else if p.status == "expired" then Some(Expired)
    else if p.executionError != "" then Some(ExecutionFailed(p.executionError))
    else None
  }

  /** In Python a missing status is 0, and `int` raises on null and on text that is no number. */
  function PythonResultOf(r: Upstream): Outcome
    requires !r.Empty?
  {
    match r
    case NoObject => Malformed
    case Fields(status, data) =>
      match status
      case NoStatus => UpstreamError(Some(0), data)
      case Text => Malformed
      case NullStatus => Malformed
      case Status(code) => if 200 <= code < 300 then Data(data) else UpstreamError(Some(code), data)
  }

  /** In Python an empty result is false. */
  function PythonReads(p: Payload): Option<Outcome> {
    if p.status == "denied" then Some(Denied(p.executionError))
    else if p.status == "expired" then Some(Expired)
    else if p.executionError != "" then Some(ExecutionFailed(p.executionError))
    else if HasResult(p) && !p.result.value.Empty? then Some(PythonResultOf(p.result.value))
    else None
  }

  /** JavaScript reads no field of null, and of any other value without fields reads nothing. */
  function BodyReader(reader: Payload -> Option<Outcome>, body: Option<Body>): Option<Outcome> {
    match body
    case None => Some(Unparsable)
    case Some(NullBody) => Some(Malformed)
    case Some(OtherBody) => None
    case Some(Object(payload)) => reader(payload)
  }

  /** In TypeScript signing and connecting stand inside the `try`, reading the body does not. */
  function ClientReader(reply: Reply): Option<Outcome> {
    match reply
    case SigningFailure => None
    case TransportFailure => None
    case BodyLost(_) => Some(Unread)
    case Http(code, text, json) =>
      if code < 200 || code >= 300 then Some(HttpError(code, text)) else BodyReader(ClientReads, json)
  }

  function ServerReader(reply: Reply): Option<Outcome> {
    match reply
    case SigningFailure => None
    case TransportFailure => None
    case BodyLost(_) => Some(Unread)
    case Http(code, text, json) =>
      if code < 200 || code >= 300 then Some(HttpError(code, text)) else BodyReader(ServerReads, json)
  }

  /** In Python the request reads the body, and signing stands outside the `try`. */
  function PythonReader(reply: Reply): Option<Outcome> {
    match reply
    case SigningFailure => Some(Unsigned)
    case TransportFailure => None
    case BodyLost(_) => None
    case Http(code, text, json) =>
      if code >= 400 then Some(HttpError(code, text))
      else if json == Some(OtherBody) then Some(Malformed)
      else BodyReader(PythonReads, json)
  }

  datatype Program = Client | Server | Python

  /** How a program reads a reply; `None` is to keep waiting. */
  function Reading(p: Program, reply: Reply): Option<Outcome> {
    match p
    case Client => ClientReader(reply)
    case Server => ServerReader(reply)
    case Python => PythonReader(reply)
  }

  // ----- one round: a sleep and a status check with its one retry

  datatype Attempt = Attempt(reply: Reply, took: nat)

  /** A sleep lasts the poll interval and however much longer it oversleeps. */
  datatype Round = Round(overslept: nat, first: Attempt, second: Attempt)

  /** The request is tried once more. In Python a reply has its body before its status is looked at. */
  predicate Retries(p: Program, reply: Reply) {
    (reply.Http? && reply.code == 401) || (p != Python && reply.BodyLost? && reply.code == 401)
  }

  /** What a check that may be tried once more comes to, and how long it took. */
  function Checked(p: Program, r: Round): Attempt {
    if Retries(p, r.first.reply) then Attempt(r.second.reply, r.first.took + r.second.took) else r.first
  }

  /** What a program makes of a check; no verdict is to keep waiting. */
  datatype Check = Check(verdict: Option<Outcome>, took: nat)

  type Checker = Round -> Check

  function CheckOf(p: Program, r: Round): Check {
    Check(Reading(p, Checked(p, r).reply), Checked(p, r).took)
  }

  function CheckerOf(p: Program): Checker {
    (r: Round) => CheckOf(p, r)
  }

  function Length(checker: Checker, r: Round, poll: nat): nat {
    poll + r.overslept + checker(r).took
  }

  /** The rounds that a wait will meet, as many as it asks for. */
  type Script = nat -> Round

  // ----- a wait as a function

  /** The outcome of a wait, the number of its checks and the time at which it ended. */
  datatype Waited = Waited(outcome: Outcome, checks: nat, ended: nat)

  ghost function Wait(checker: Checker, script: Script, poll: nat, budget: nat, start: nat, now: nat, k: nat): Waited
    requires poll > 0 && start <= now
    decreases start + budget - now
  {
    if now - start >= budget then Waited(TimedOut, k, now)
    else
      match checker(script(k)).verdict
      case Some(outcome) => Waited(outcome, k + 1, now + Length(checker, script(k), poll))
      case None => Wait(checker, script, poll, budget, start, now + Length(checker, script(k), poll), k + 1)
  }

  // ----- the programs' loops

  /** The test `status < 200 || status >= 300` of JavaScript. */
  predicate Fails(status: StatusField) {
    status.NullStatus? || (status.Status? && !(200 <= status.code < 300))
  }

  function CodeOf(status: StatusField): Option<int> {
    if status.Status? then Some(status.code) else None
  }

  /** A 401 is tried once more, its body read or lost; what comes then stands, and takes the time of both. */
  method AuthedFetch(r: Round, now: nat) returns (reply: Reply, later: nat)
    ensures if (r.first.reply.Http? || r.first.reply.BodyLost?) && r.first.reply.code == 401
            then reply == r.second.reply && later == now + r.first.took + r.second.took
            else reply == r.first.reply && later == now + r.first.took
    ensures forall p | p != Python :: reply == Checked(p, r).reply && later == now + Checked(p, r).took
  {
    reply, later := r.first.reply, now + r.first.took;
    if (reply.Http? || reply.BodyLost?) && reply.code == 401 {
      reply, later := r.second.reply, later + r.second.took;
    }
  }

  /** The same in Python, where only a reply with its body has a status to look at. */
  method AuthedRequest(r: Round, now: nat) returns (reply: Reply, later: nat)
    ensures if r.first.reply.Http? && r.first.reply.code == 401
            then reply == r.second.reply && later == now + r.first.took + r.second.took
            else reply == r.first.reply && later == now + r.first.took
    ensures reply == Checked(Python, r).reply && later == now + Checked(Python, r).took
  {
    reply, later := r.first.reply, now + r.first.took;
    if reply.SigningFailure? || reply.TransportFailure? || reply.BodyLost? {
      return;
    }
    if reply.code == 401 {
      reply, later := r.second.reply, later + r.second.took;
    }
  }

  method ClientWait(script: Script, poll: nat, budget: nat, start: nat) returns (w: Waited)
    requires poll > 0
    ensures w == Wait(CheckerOf(Client), script, poll, budget, start, start, 0)
  {
    var now, k := start, 0;
    while now - start < budget
      invariant start <= now
      invariant Wait(CheckerOf(Client), script, poll, budget, start, start, 0)
             == Wait(CheckerOf(Client), script, poll, budget, start, now, k)
      decreases start + budget - now
    {
      var r := script(k);
      now := now + poll + r.overslept;
      k := k + 1;
      var reply, later := AuthedFetch(r, now);
      now := later;
      match reply {
        case SigningFailure =>
          continue;
        case TransportFailure =>
          continue;
        case BodyLost(_) =>
          return Waited(Unread, k, now);
        case Http(code, text, json) =>
          if !(200 <= code < 300) {
            return Waited(HttpError(code, text), k, now);
          }
          if json.None? {
            return Waited(Unparsable, k, now);
          }
          if json.value.NullBody? {
            return Waited(Malformed, k, now);
          }
          if json.value.OtherBody? {
            continue;
          }
          var status := json.value.payload;
          if status.status == "denied" {
            return Waited(Denied(status.executionError), k, now);
          }
          if status.status == "expired" {
            return Waited(Expired, k, now);
          }
          if status.executionError != "" {
            return Waited(ExecutionFailed(status.executionError), k, now);
          }
          if status.status == "approved" && status.executed && status.result.Some? {
            var result := status.result.value;
            if result.Fields? && Fails(result.status) {
              return Waited(UpstreamError(CodeOf(result.status), result.data), k, now);
            }
            return Waited(Data(if result.Fields? then result.data else None), k, now);
          }
      }
    }
    return Waited(TimedOut, k, now);
  }

  method ServerWait(script: Script, poll: nat, budget: nat, start: nat) returns (w: Waited)
    requires poll > 0
    ensures w == Wait(CheckerOf(Server), script, poll, budget, start, start, 0)
  {
    var now, k := start, 0;
    while now - start < budget
      invariant start <= now
      invariant Wait(CheckerOf(Server), script, poll, budget, start, start, 0)
             == Wait(CheckerOf(Server), script, poll, budget, start, now, k)
      decreases start + budget - now
    {
      var r := script(k);
      now := now + poll + r.overslept;
      k := k + 1;
      var reply, later := AuthedFetch(r, now);
      now := later;
      match reply {
        case SigningFailure =>
          continue;
        case TransportFailure =>
          continue;
        case BodyLost(_) =>
          return Waited(Unread, k, now);
        case Http(code, text, json) =>
          if !(200 <= code < 300) {
            return Waited(HttpError(code, text), k, now);
          }
          if json.None? {
            return Waited(Unparsable, k, now);
          }
          if json.value.NullBody? {
            return Waited(Malformed, k, now);
          }
          if json.value.OtherBody? {
            continue;
          }
          var status := json.value.payload;
          if status.status == "approved" && status.executed && status.result.Some? {
            var result := status.result.value;
            if result.Fields? && Fails(result.status) {
              return Waited(UpstreamError(CodeOf(result.status), result.data), k, now);
            }
            return Waited(Data(if result.Fields? then result.data else None), k, now);
          }
          if status.status == "denied" {
            return Waited(Denied(status.executionError), k, now);
          }
          if status.status == "expired" {
            return Waited(Expired, k, now);
          }
          if status.executionError != "" {
            return Waited(ExecutionFailed(status.executionError), k, now);
          }
      }
    }
    return Waited(TimedOut, k, now);
  }

  method PythonWait(script: Script, poll: nat, budget: nat, start: nat) returns (w: Waited)
    requires poll > 0
    ensures w == Wait(CheckerOf(Python), script, poll, budget, start, start, 0)
  {
    var now, k := start, 0;
    while now - start < budget
      invariant start <= now
      invariant Wait(CheckerOf(Python), script, poll, budget, start, start, 0)
             == Wait(CheckerOf(Python), script, poll, budget, start, now, k)
      decreases start + budget - now
    {
      var r := script(k);
      now := now + poll + r.overslept;
      k := k + 1;
      var reply, later := AuthedRequest(r, now);
      now := later;
      if reply.SigningFailure? {
        return Waited(Unsigned, k, now);
      }
      if reply.TransportFailure? || reply.BodyLost? {
        continue;
      }
      if reply.code >= 400 {
        return Waited(HttpError(reply.code, reply.text), k, now);
      }
      if reply.json.None? {
        return Waited(Unparsable, k, now);
      }
      if !reply.json.value.Object? {
        return Waited(Malformed, k, now);
      }
      var read := PythonReads(reply.json.value.payload);
      if read.Some? {
        return Waited(read.value, k, now);
      }
    }
    return Waited(TimedOut, k, now);
  }

  // ----- what a wait means

  /** The wait returns the meaning of its first decisive reply, and times out only without one. */
  ghost predicate MeansFirst(checker: Checker, script: Script, from: nat, w: Waited) {
    && from <= w.checks
    && if from < w.checks && checker(script(w.checks - 1)).verdict.Some? then
         && w.outcome == checker(script(w.checks - 1)).verdict.value
         && forall i | from <= i < w.checks - 1 :: checker(script(i)).verdict.None?
       else
         && w.outcome == TimedOut
         && forall i | from <= i < w.checks :: checker(script(i)).verdict.None?
  }

  lemma {:induction false} WaitMeansFirst(
      checker: Checker, script: Script, poll: nat, budget: nat, start: nat, now: nat, k: nat)
    requires poll > 0 && start <= now
    ensures MeansFirst(checker, script, k, Wait(checker, script, poll, budget, start, now, k))
    ensures var w := Wait(checker, script, poll, budget, start, now, k); w.checks == k ==> w.ended == now
    decreases start + budget - now
  {
    if now - start < budget && checker(script(k)).verdict.None? {
      WaitMeansFirst(checker, script, poll, budget, start, now + Length(checker, script(k), poll), k + 1);
    }
  }

  /** No check is ever read as a timeout, so a timeout is always that of the wait. */
  ghost predicate NeverTimesOut(checker: Checker) {
    forall r :: checker(r).verdict != Some(TimedOut)
  }

  lemma NoProgramTimesOut(p: Program)
    ensures NeverTimesOut(CheckerOf(p))
  {
  }

  // ----- bounds

  /**
   A wait makes at most as many checks as the poll interval fits into the budget, rounded up; if
   sleeps last no more than the interval and a lag, it ends within one round after its budget.
   */
  lemma {:induction false} WaitIsBounded(
      checker: Checker, script: Script, poll: nat, budget: nat, start: nat, now: nat, k: nat, lag: nat, longest: nat)
    requires poll > 0 && start + k * poll <= now
    requires forall i :: script(i).overslept <= lag
    requires forall i :: checker(script(i)).took <= longest
    ensures var w := Wait(checker, script, poll, budget, start, now, k);
      && (w.checks > k ==> (w.checks - 1) * poll < budget && w.ended < start + budget + poll + lag + longest)
      && (w.checks == k ==> w.ended == now)
    decreases start + budget - now
  {
    if now - start < budget {
      var r := script(k);
      var later := now + Length(checker, r, poll);
      assert (k + 1) * poll == k * poll + poll;
      if checker(r).verdict.None? {
        WaitIsBounded(checker, script, poll, budget, start, later, k + 1, lag, longest);
        WaitMeansFirst(checker, script, poll, budget, start, later, k + 1);
        var w := Wait(checker, script, poll, budget, start, later, k + 1);
        assert w.checks == k + 1 ==> (w.checks - 1) * poll == k * poll;
      }
    }
  }

  /** With attempts that last no longer than the timeout, each program's wait ends in time. */
  lemma EachWaitIsBounded(p: Program, script: Script, poll: nat, budget: nat, start: nat, lag: nat, timeout: nat)
    requires poll > 0
    requires forall i :: script(i).overslept <= lag
    requires forall i :: script(i).first.took <= timeout && script(i).second.took <= timeout
    ensures var w := Wait(CheckerOf(p), script, poll, budget, start, start, 0);
      w.checks > 0 ==> (w.checks - 1) * poll < budget && w.ended < start + budget + poll + lag + 2 * timeout
  {
    var checker := CheckerOf(p);
    forall i: nat
      ensures checker(script(i)).took <= 2 * timeout
    {
      assert checker(script(i)).took == Checked(p, script(i)).took;
    }
    WaitIsBounded(checker, script, poll, budget, start, start, 0, lag, 2 * timeout);
  }

  // ----- resuming

  /** The rounds that are left after the first `n`. */
  function Rest(script: Script, n: nat): Script {
    (i: nat) => script(n + i)
  }

  lemma {:induction false} WaitShifted(
      checker: Checker, script: Script, poll: nat, budget: nat, start: nat, now: nat, n: nat, k: nat)
    requires poll > 0 && start <= now
    ensures var w := Wait(checker, Rest(script, n), poll, budget, start, now, k);
      Wait(checker, script, poll, budget, start, now, n + k) == w.(checks := n + w.checks)
    decreases start + budget - now
  {
    if now - start < budget {
      assert script(n + k) == Rest(script, n)(k);
      if checker(script(n + k)).verdict.None? {
        WaitShifted(checker, script, poll, budget, start, now + Length(checker, script(n + k), poll), n, k + 1);
      }
    }
  }

  /** With a larger budget, a wait that has found an outcome finds it again; what counts is the deadline. */
  lemma {:induction false} LargerBudget(
      checker: Checker, script: Script, poll: nat, budget: nat, more: nat, start: nat, now: nat, earlier: nat, k: nat)
    requires poll > 0 && earlier <= start <= now && start + budget <= earlier + more
    requires Wait(checker, script, poll, budget, start, now, k).outcome != TimedOut || start + budget == earlier + more
    ensures Wait(checker, script, poll, more, earlier, now, k) == Wait(checker, script, poll, budget, start, now, k)
    decreases start + budget - now
  {
    if now - start < budget {
      if checker(script(k)).verdict.None? {
        var later := now + Length(checker, script(k), poll);
        LargerBudget(checker, script, poll, budget, more, start, later, earlier, k + 1);
      }
    }
  }

  /** A wait that timed out is, with a larger budget, a wait that goes on from where it stopped. */
  lemma {:induction false} GoesOn(
      checker: Checker, script: Script, poll: nat, budget: nat, more: nat, start: nat, now: nat, k: nat)
    requires poll > 0 && start <= now && budget <= more && NeverTimesOut(checker)
    requires Wait(checker, script, poll, budget, start, now, k).outcome == TimedOut
    ensures var w := Wait(checker, script, poll, budget, start, now, k);
      && w.ended >= start
      && Wait(checker, script, poll, more, start, now, k)
         == Wait(checker, script, poll, more, start, w.ended, w.checks)
    decreases start + budget - now
  {
    if now - start < budget {
      GoesOn(checker, script, poll, budget, more, start, now + Length(checker, script(k), poll), k + 1);
    }
  }

  /** The same rounds take the same course at any time of day. */
  lemma {:induction false} LaterIsTheSame(
      checker: Checker, script: Script, poll: nat, budget: nat, start: nat, now: nat, later: nat, k: nat)
    requires poll > 0 && start <= now
    ensures var w := Wait(checker, script, poll, budget, start, now, k);
      && w.ended >= now
      && Wait(checker, script, poll, budget, later, later + (now - start), k)
         == w.(ended := later + (w.ended - start))
    decreases start + budget - now
  {
    if now - start < budget && checker(script(k)).verdict.None? {
      LaterIsTheSame(checker, script, poll, budget, start, now + Length(checker, script(k), poll), later, k + 1);
    }
  }

  /**
   A wait that times out and is resumed at any time on the rounds that are left ends as one
   uninterrupted wait does whose budget covers both: with the same outcome after the same checks in
   all, and as much later as the second wait took. If the resumed wait times out as well, that is so
   for the budget that ends when it does.
   */
  lemma ResumedIsUninterrupted(
      checker: Checker, script: Script, poll: nat, budget1: nat, budget2: nat, more: nat, start: nat, again: nat)
    requires poll > 0 && NeverTimesOut(checker) && budget1 <= more
    requires Wait(checker, script, poll, budget1, start, start, 0).outcome == TimedOut
    requires var first := Wait(checker, script, poll, budget1, start, start, 0);
      var second := Wait(checker, Rest(script, first.checks), poll, budget2, again, again, 0);
      && first.ended + budget2 <= start + more
      && (second.outcome != TimedOut || first.ended + budget2 == start + more)
    ensures var first := Wait(checker, script, poll, budget1, start, start, 0);
      var second := Wait(checker, Rest(script, first.checks), poll, budget2, again, again, 0);
      && second.ended >= again
      && Wait(checker, script, poll, more, start, start, 0)
         == second.(checks := first.checks + second.checks, ended := first.ended + (second.ended - again))
  {
    var first := Wait(checker, script, poll, budget1, start, start, 0);
    var rest := Rest(script, first.checks);
    LaterIsTheSame(checker, rest, poll, budget2, again, again, first.ended, 0);
    GoesOn(checker, script, poll, budget1, more, start, start, 0);
    WaitShifted(checker, script, poll, budget2, first.ended, first.ended, first.checks, 0);
    LargerBudget(checker, script, poll, budget2, more, first.ended, first.ended, start, first.checks);
  }

  // ----- the three programs

  /** Each of the three waits can be resumed. */
  lemma EachResumes(
      p: Program, script: Script, poll: nat, budget1: nat, budget2: nat, more: nat, start: nat, again: nat)
    requires poll > 0 && budget1 <= more
    requires Wait(CheckerOf(p), script, poll, budget1, start, start, 0).outcome == TimedOut
    requires var first := Wait(CheckerOf(p), script, poll, budget1, start, start, 0);
      var second := Wait(CheckerOf(p), Rest(script, first.checks), poll, budget2, again, again, 0);
      && first.ended + budget2 <= start + more
      && (second.outcome != TimedOut || first.ended + budget2 == start + more)
    ensures var first := Wait(CheckerOf(p), script, poll, budget1, start, start, 0);
      var second := Wait(CheckerOf(p), Rest(script, first.checks), poll, budget2, again, again, 0);
      var whole := Wait(CheckerOf(p), script, poll, more, start, start, 0);
      whole.outcome == second.outcome && whole.checks == first.checks + second.checks
  {
    NoProgramTimesOut(p);
    ResumedIsUninterrupted(CheckerOf(p), script, poll, budget1, budget2, more, start, again);
  }

  predicate Answered(reply: Reply) {
    reply.Http? && 200 <= reply.code < 300 && reply.json.Some?
  }

  /** An answer with an approved, executed result and no execution error. */
  predicate HasPlainResult(reply: Reply) {
    && Answered(reply) && reply.json.value.Object?
    && reply.json.value.payload.executionError == "" && HasResult(reply.json.value.payload)
  }

  /** The result of an answer has no status that is a number. */
  predicate LacksStatus(reply: Reply) {
    HasPlainResult(reply)
    && var result := reply.json.value.payload.result.value; !(result.Fields? && result.status.Status?)
  }

  /** An answer whose body is neither an object nor null. */
  predicate LacksFields(reply: Reply) {
    Answered(reply) && reply.json.value.OtherBody?
  }

  /** An approved, executed reply that carries both a result and an execution error. */
  predicate ResultAndError(reply: Reply) {
    && Answered(reply) && reply.json.value.Object?
    && reply.json.value.payload.executionError != "" && HasResult(reply.json.value.payload)
  }

  predicate OddStatus(reply: Reply) {
    reply.Http? && (reply.code < 200 || 300 <= reply.code < 400)
  }

  /** The two clients read the reply apart. */
  predicate ReadApart(reply: Reply) {
    reply.SigningFailure? || reply.BodyLost? || OddStatus(reply) || LacksStatus(reply) || LacksFields(reply)
  }

  /** The client and the server read a reply alike unless it carries both a result and an error. */
  lemma ClientAndServerReadAlike(reply: Reply)
    ensures ClientReader(reply) == ServerReader(reply) <==> !ResultAndError(reply)
  {
    if ResultAndError(reply) {
      assert reply.json.value.payload.status == "approved";
    }
  }

  /** The two clients read a reply alike unless it is a failure they treat apart, or its parts lack what is read. */
  lemma ClientAndPythonReadAlike(reply: Reply)
    ensures ClientReader(reply) == PythonReader(reply) <==> !ReadApart(reply)
  {
    if LacksStatus(reply) {
      assert reply.json.value.payload.status == "approved";
    }
  }

  /** The first attempt lost its body behind a 401: TypeScript tries again, Python does not. */
  predicate RetriedByOne(r: Round) {
    r.first.reply.BodyLost? && r.first.reply.code == 401
  }

  /** The two clients take a check apart. A retry by one of them shows unless it takes no time and decides nothing. */
  predicate CheckedApart(r: Round) {
    if RetriedByOne(r) then r.second.took > 0 || ClientReader(r.second.reply).Some?
    else ReadApart(Checked(Client, r).reply)
  }

  /** The client and the server make the same of a check unless its reply carries both a result and an error. */
  lemma ClientAndServerAgree(r: Round)
    ensures CheckerOf(Client)(r) == CheckerOf(Server)(r) <==> !ResultAndError(Checked(Client, r).reply)
  {
    ClientAndServerReadAlike(Checked(Client, r).reply);
  }

  /** When the two clients make the same of a check. */
  lemma ClientAndPythonAgree(r: Round)
    ensures CheckerOf(Client)(r) == CheckerOf(Python)(r) <==> !CheckedApart(r)
  {
    ClientAndPythonReadAlike(Checked(Client, r).reply);
  }

  /** Replies that are read apart, and as what. */
  lemma RepliesReadApart()
    ensures var result := Some(Fields(Status(200), Some("done")));
      var reply := Http(200, "", Some(Object(Payload("approved", "agent revoked", true, result))));
      ClientReader(reply) == Some(ExecutionFailed("agent revoked")) && ServerReader(reply) == Some(Data(Some("done")))
    ensures var result := Some(Fields(NoStatus, Some("done")));
      var reply := Http(200, "", Some(Object(Payload("approved", "", true, result))));
      && ClientReader(reply) == Some(Data(Some("done")))
      && PythonReader(reply) == Some(UpstreamError(Some(0), Some("done")))
    ensures var reply := Http(302, "moved", None);
      ClientReader(reply) == Some(HttpError(302, "moved")) && PythonReader(reply) == Some(Unparsable)
    ensures var reply := Http(200, "[]", Some(OtherBody));
      ClientReader(reply) == None && PythonReader(reply) == Some(Malformed)
    ensures ClientReader(BodyLost(200)) == Some(Unread) && PythonReader(BodyLost(200)) == None
    ensures ClientReader(SigningFailure) == None && PythonReader(SigningFailure) == Some(Unsigned)
  {
    assert "approved" != "denied" && "approved" != "expired" by {
      assert "approved"[0] == 'a' && "denied"[0] == 'd' && "expired"[0] == 'e';
    }
  }

  /** The programs make the same of every check that the first of them meets in its wait. */
  ghost predicate AgreeOnMet(
      one: Checker, other: Checker, script: Script, poll: nat, budget: nat, start: nat, now: nat, k: nat)
    requires poll > 0 && start <= now
  {
    forall i | k <= i < Wait(one, script, poll, budget, start, now, k).checks :: one(script(i)) == other(script(i))
  }

  /** Programs that agree on the checks one of them meets wait alike: same outcome, checks and time. */
  lemma {:induction false} AgreeingWaitAlike(
      one: Checker, other: Checker, script: Script, poll: nat, budget: nat, start: nat, now: nat, k: nat)
    requires poll > 0 && start <= now && AgreeOnMet(one, other, script, poll, budget, start, now, k)
    ensures Wait(one, script, poll, budget, start, now, k) == Wait(other, script, poll, budget, start, now, k)
    decreases start + budget - now
  {
    WaitMeansFirst(one, script, poll, budget, start, now, k);
    if now - start < budget {
      var later := now + Length(one, script(k), poll);
      WaitMeansFirst(one, script, poll, budget, start, later, k + 1);
      if one(script(k)).verdict.None? {
        AgreeingWaitAlike(one, other, script, poll, budget, start, later, k + 1);
      }
    }
  }

  /** No check takes the first longer to make than the second. */
  ghost predicate NeverFaster(one: Checker, other: Checker) {
    forall r :: one(r).took >= other(r).took
  }

  /** Time that one program loses on another is never made up for in the same number of checks. */
  lemma {:induction false} LostTimeShows(
      one: Checker, other: Checker, script: Script, poll: nat, budget: nat, start: nat, now: nat, earlier: nat, k: nat)
    requires poll > 0 && start <= earlier <= now && NeverFaster(one, other)
    requires Wait(one, script, poll, budget, start, now, k).checks
          == Wait(other, script, poll, budget, start, earlier, k).checks
    ensures Wait(one, script, poll, budget, start, now, k).ended
         >= Wait(other, script, poll, budget, start, earlier, k).ended + (now - earlier)
    decreases start + budget - earlier
  {
    if earlier - start < budget {
      var later, sooner := now + Length(one, script(k), poll), earlier + Length(other, script(k), poll);
      WaitMeansFirst(one, script, poll, budget, start, later, k + 1);
      WaitMeansFirst(other, script, poll, budget, start, sooner, k + 1);
      if now - start < budget && one(script(k)).verdict.None? && other(script(k)).verdict.None? {
        LostTimeShows(one, other, script, poll, budget, start, later, sooner, k + 1);
      }
    }
  }

  /** Waits that come out alike take their first check alike. */
  lemma FirstCheckAlike(
      one: Checker, other: Checker, script: Script, poll: nat, budget: nat, start: nat, now: nat, k: nat)
    requires poll > 0 && start <= now && now - start < budget
    requires NeverTimesOut(one) && NeverTimesOut(other) && NeverFaster(one, other)
    requires Wait(one, script, poll, budget, start, now, k) == Wait(other, script, poll, budget, start, now, k)
    ensures one(script(k)) == other(script(k))
  {
    var later, sooner := now + Length(one, script(k), poll), now + Length(other, script(k), poll);
    WaitMeansFirst(one, script, poll, budget, start, later, k + 1);
    WaitMeansFirst(other, script, poll, budget, start, sooner, k + 1);
    if one(script(k)).verdict.None? && other(script(k)).verdict.None? {
      LostTimeShows(one, other, script, poll, budget, start, later, sooner, k + 1);
    }
  }

  /** The other way: a check that is met and taken apart shows in the outcome, the number of checks or the time. */
  lemma {:induction false} WaitingAlikeIsAgreeing(
      one: Checker, other: Checker, script: Script, poll: nat, budget: nat, start: nat, now: nat, k: nat)
    requires poll > 0 && start <= now
    requires NeverTimesOut(one) && NeverTimesOut(other) && NeverFaster(one, other)
    requires Wait(one, script, poll, budget, start, now, k) == Wait(other, script, poll, budget, start, now, k)
    ensures AgreeOnMet(one, other, script, poll, budget, start, now, k)
    decreases start + budget - now
  {
    if now - start < budget {
      FirstCheckAlike(one, other, script, poll, budget, start, now, k);
      if one(script(k)).verdict.None? {
        WaitingAlikeIsAgreeing(one, other, script, poll, budget, start, now + Length(one, script(k), poll), k + 1);
      }
    }
  }

  /** Two waits are the same exactly when their programs agree on every check that one of them meets. */
  lemma WaitAlikeIffAgreeing(
      one: Checker, other: Checker, script: Script, poll: nat, budget: nat, start: nat, now: nat, k: nat)
    requires poll > 0 && start <= now
    requires NeverTimesOut(one) && NeverTimesOut(other) && NeverFaster(one, other)
    ensures Wait(one, script, poll, budget, start, now, k) == Wait(other, script, poll, budget, start, now, k)
       <==> AgreeOnMet(one, other, script, poll, budget, start, now, k)
  {
    if AgreeOnMet(one, other, script, poll, budget, start, now, k) {
      AgreeingWaitAlike(one, other, script, poll, budget, start, now, k);
    }
    if Wait(one, script, poll, budget, start, now, k) == Wait(other, script, poll, budget, start, now, k) {
      WaitingAlikeIsAgreeing(one, other, script, poll, budget, start, now, k);
    }
  }

  /** The client retries whenever another program does. */
  lemma ClientIsNeverFaster(p: Program)
    ensures NeverFaster(CheckerOf(Client), CheckerOf(p))
  {
  }

  /**
   All three waits reach the same outcome, after the same checks and at the same time, exactly when
   the client's wait meets no check that the three take apart.
   */
  lemma ThreeWaitsAgree(script: Script, poll: nat, budget: nat, start: nat)
    requires poll > 0
    ensures var client := Wait(CheckerOf(Client), script, poll, budget, start, start, 0);
      (&& client == Wait(CheckerOf(Server), script, poll, budget, start, start, 0)
       && client == Wait(CheckerOf(Python), script, poll, budget, start, start, 0))
      <==> forall k | 0 <= k < client.checks ::
             !ResultAndError(Checked(Client, script(k)).reply) && !CheckedApart(script(k))
  {
    NoProgramTimesOut(Client);
    NoProgramTimesOut(Server);
    NoProgramTimesOut(Python);
    ClientIsNeverFaster(Server);
    ClientIsNeverFaster(Python);
    WaitAlikeIffAgreeing(CheckerOf(Client), CheckerOf(Server), script, poll, budget, start, start, 0);
    WaitAlikeIffAgreeing(CheckerOf(Client), CheckerOf(Python), script, poll, budget, start, start, 0);
    forall k: nat
      ensures CheckerOf(Client)(script(k)) == CheckerOf(Server)(script(k))
         <==> !ResultAndError(Checked(Client, script(k)).reply)
      ensures CheckerOf(Client)(script(k)) == CheckerOf(Python)(script(k)) <==> !CheckedApart(script(k))
    {
      ClientAndServerAgree(script(k));
      ClientAndPythonAgree(script(k));
    }
  }
}
