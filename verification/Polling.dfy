/** Asking for a status again and again until an answer decides or a deadline has passed. */
module Polling {
  import opened Wrappers

  /**
   One turn of a loop: what its answer decides, if anything, how long the turn takes up to that
   answer, and how long it is until the next turn if the answer decides nothing.
   */
  datatype Turn<R> = Turn(verdict: Option<R>, toAnswer: nat, toNext: nat)

  type Turns<R> = nat -> Turn<R>

  /** The verdict, `None` for none before the deadline; the number of answers; when the loop ended. */
  datatype Polled<R> = Polled(verdict: Option<R>, checks: nat, ended: nat)

  ghost predicate Apart<R>(turns: Turns<R>, interval: nat) {
    interval > 0 && forall k :: turns(k).toNext >= interval
  }

  ghost function Poll<R>(turns: Turns<R>, interval: nat, deadline: nat, now: nat, k: nat): Polled<R>
    requires Apart(turns, interval)
    decreases deadline - now
  {
    if now >= deadline then Polled(None, k, now)
    else
      match turns(k).verdict
      case Some(v) => Polled(Some(v), k + 1, now + turns(k).toAnswer)
      case None => Poll(turns, interval, deadline, now + turns(k).toNext, k + 1)
  }

  /**
   The loop ends with its first decisive answer, or without one after the deadline, and asks at most
   as often as the interval fits into the time left, rounded up.
   */
  lemma {:induction false} PollMeansFirst<R>(
      turns: Turns<R>, interval: nat, deadline: nat, start: nat, now: nat, k: nat)
    requires Apart(turns, interval) && start + k * interval <= now
    ensures var p := Poll(turns, interval, deadline, now, k);
      && k <= p.checks
      && (forall i | k <= i < p.checks - 1 :: turns(i).verdict.None?)
      && (if k < p.checks && turns(p.checks - 1).verdict.Some?
          then p.verdict == turns(p.checks - 1).verdict
          else p.verdict == None && p.ended >= deadline)
      && (p.checks > k ==> start + (p.checks - 1) * interval < deadline)
    decreases deadline - now
  {
    if now < deadline && turns(k).verdict.None? {
      var later := now + turns(k).toNext;
      assert (k + 1) * interval == k * interval + interval;
      PollMeansFirst(turns, interval, deadline, start, later, k + 1);
      var p := Poll(turns, interval, deadline, later, k + 1);
      assert p.checks == k + 1 ==> (p.checks - 1) * interval == k * interval;
    }
  }

  /** How long the turns up to number `n` take when none of them decides. */
  ghost function Passed<R>(turns: Turns<R>, k: nat, n: nat): nat
    requires k <= n
  {
    if k == n then 0 else Passed(turns, k, n - 1) + turns(n - 1).toNext
  }

  lemma {:induction false} PassedFirst<R>(turns: Turns<R>, k: nat, n: nat)
    requires k < n
    ensures Passed(turns, k, n) == turns(k).toNext + Passed(turns, k + 1, n)
    decreases n
  {
    if k + 1 < n {
      PassedFirst(turns, k, n - 1);
    }
  }

  /** The loop ends when the turns before the last are over, and the last is over or has decided. */
  lemma {:induction false} PollTakes<R>(turns: Turns<R>, interval: nat, deadline: nat, now: nat, k: nat)
    requires Apart(turns, interval)
    ensures var p := Poll(turns, interval, deadline, now, k);
      && k <= p.checks && (p.verdict.Some? ==> k < p.checks)
      && p.ended == if p.verdict.Some?
                    then now + Passed(turns, k, p.checks - 1) + turns(p.checks - 1).toAnswer
                    else now + Passed(turns, k, p.checks)
    decreases deadline - now
  {
    if now < deadline && turns(k).verdict.None? {
      var p := Poll(turns, interval, deadline, now, k);
      PollTakes(turns, interval, deadline, now + turns(k).toNext, k + 1);
      PassedFirst(turns, k, p.checks);
      if k + 1 < p.checks {
        PassedFirst(turns, k, p.checks - 1);
      }
    }
  }
}
