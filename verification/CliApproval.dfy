/**
 The command-line approval prompt: an answer and a timer race to settle one promise. Callbacks
 may come in any order and any number, whatever the prompt and the timer were told before.
 */
module CliApproval {
  import opened Wrappers
  import opened Text
  import opened BrokerTypes

  // ----- answers

  predicate IsYesWord(word: string) {
    || (|word| == 1 && word[0] in {'y', 'Y'})
    || (|word| == 3 && word[0] in {'y', 'Y'} && word[1] in {'e', 'E'} && word[2] in {'s', 'S'})
  }

  /** The answer matches the pattern: white space, a word for yes in any case, white space, no more. */
  predicate SaysYes(answer: string) {
    exists i, j | 0 <= i <= j <= |answer| ::
      AllSpace(answer[..i]) && IsYesWord(answer[i..j]) && AllSpace(answer[j..])
  }

  lemma YesWordIsSolid(word: string)
    requires IsYesWord(word)
    ensures word != "" && !IsSpace(word[0]) && !IsSpace(word[|word| - 1])
  {
  }

  /** An answer says yes exactly when, trimmed, it is a word for yes. */
  lemma SaysYesIsTrimmed(answer: string)
    ensures SaysYes(answer) <==> IsYesWord(Trim(answer))
  {
    if SaysYes(answer) {
      var i, j :| 0 <= i <= j <= |answer|
        && AllSpace(answer[..i]) && IsYesWord(answer[i..j]) && AllSpace(answer[j..]);
      PaddedWord(answer[..i], answer[i..j], answer[j..]);
      assert answer == answer[..i] + answer[i..j] + answer[j..];
    }
    var i, j := TrimmedPart(answer);
    assert answer[i..j] == Trim(answer);
  }

  lemma PaddedWord(left: string, word: string, right: string)
    requires AllSpace(left) && IsYesWord(word) && AllSpace(right)
    ensures Trim(left + word + right) == word
  {
    YesWordIsSolid(word);
    TrimPadded(left, word, right);
  }

  /** A letter without its case. */
  function Lower(c: char): char {
    if 'A' <= c <= 'Z' then c - 'A' + 'a' else c
  }

  function Lowered(s: string): string {
    seq(|s|, i requires 0 <= i < |s| => Lower(s[i]))
  }

  /** An answer says yes exactly when what is left of it without white space and case is "y" or "yes". */
  lemma YesInAnyCase(answer: string)
    ensures SaysYes(answer) <==> exists word :: Trims(answer, word) && (Lowered(word) == "y" || Lowered(word) == "yes")
  {
    SaysYesIsTrimmed(answer);
    WordInAnyCase(Trim(answer));
    TrimsIff(answer, Trim(answer));
    forall word | Trims(answer, word)
      ensures word == Trim(answer)
    {
      TrimsIff(answer, word);
    }
  }

  lemma WordInAnyCase(word: string)
    ensures IsYesWord(word) <==> Lowered(word) == "y" || Lowered(word) == "yes"
  {
    var low := Lowered(word);
    assert |word| == 1 ==> (low == "y" <==> low[0] == 'y');
    assert |word| == 3 ==> (low == "yes" <==> low[0] == 'y' && low[1] == 'e' && low[2] == 's');
  }

  // ----- the race

  datatype State = State(
    now: nat,
    timer: Option<nat>,
    promptOpen: bool,
    settled: Option<ApprovalResult>,
    resolutions: nat)

  datatype Event = Tick(ms: nat) | Answered(answer: string) | TimerFires

  const TIMED_OUT := ApprovalResult(false, Some("timeout"))
  const DECLINED := ApprovalResult(false, Some("declined"))
  const YES := ApprovalResult(true, None)

  /** A timer fires once, when it is due and has not been cleared; an answer may always come. */
  predicate Enabled(s: State, e: Event) {
    e.TimerFires? ==> s.timer.Some? && s.timer.value <= s.now
  }

  function Finish(s: State, result: ApprovalResult): State {
    if s.settled.Some? then s
    else s.(settled := Some(result), timer := None, promptOpen := false, resolutions := s.resolutions + 1)
  }

  function ResultOf(answer: string): ApprovalResult {
    if SaysYes(answer) then YES else DECLINED
  }

  function Step(s: State, e: Event): State {
    match e
    case Tick(ms) => s.(now := s.now + ms)
    case Answered(answer) => Finish(s, ResultOf(answer))
    case TimerFires => Finish(s.(timer := None), TIMED_OUT)
  }

  function Start(now: nat, timeout: nat): State {
    State(now, Some(now + timeout), true, None, 0)
  }

  /** One pending request. */
  class Prompt {
    var now: nat
    var timer: Option<nat>
    var promptOpen: bool
    var settled: Option<ApprovalResult>
    var resolutions: nat

    function Now(): State
      reads this
    {
      State(now, timer, promptOpen, settled, resolutions)
    }

    constructor (start: nat, timeout: nat)
      ensures Now() == Start(start, timeout)
    {
      now, timer, promptOpen, settled, resolutions := start, Some(start + timeout), true, None, 0;
    }

    method Settle(result: ApprovalResult)
      modifies this
      ensures Now() == Finish(old(Now()), result)
    {
      if settled.Some? {
        return;
      }
      settled := Some(result);
      timer := None;
      promptOpen := false;
      resolutions := resolutions + 1;
    }

    method Handle(e: Event)
      requires Enabled(Now(), e)
      modifies this
      ensures Now() == Step(old(Now()), e)
    {
      match e {
        case Tick(ms) =>
          now := now + ms;
        case Answered(answer) =>
          // The pattern is tested on the trimmed answer, which is the same.
          SaysYesIsTrimmed(answer);
          if IsYesWord(Trim(answer)) {
            Settle(YES);
          } else {
            Settle(DECLINED);
          }
        case TimerFires =>
          timer := None;
          Settle(TIMED_OUT);
      }
    }
  }

  // ----- whole runs

  predicate CanRun(s: State, events: seq<Event>)
    decreases |events|
  {
    events == [] || (Enabled(s, events[0]) && CanRun(Step(s, events[0]), events[1..]))
  }

  function RunOf(s: State, events: seq<Event>): State
    decreases |events|
  {
    if events == [] then s else RunOf(Step(s, events[0]), events[1..])
  }

  /** The milliseconds that pass in a run. */
  function Elapsed(events: seq<Event>): nat {
    if events == [] then 0 else (if events[0].Tick? then events[0].ms else 0) + Elapsed(events[1..])
  }

  /** The first callback of a run, or the number of its events. */
  function FirstCallback(events: seq<Event>): (n: nat)
    ensures n <= |events| && (n < |events| ==> !events[n].Tick?)
    ensures forall k | 0 <= k < n :: events[k].Tick?
  {
    if events == [] || !events[0].Tick? then 0 else 1 + FirstCallback(events[1..])
  }

  /** A settled promise stays as it is, is not resolved again, and has neither timer nor prompt. */
  lemma {:induction false} SettledStays(s: State, events: seq<Event>)
    requires s.settled.Some? && s.timer.None? && !s.promptOpen
    ensures var t := RunOf(s, events);
      t.settled == s.settled && t.resolutions == s.resolutions && t.timer.None? && !t.promptOpen
    decreases |events|
  {
    if events != [] {
      SettledStays(Step(s, events[0]), events[1..]);
    }
  }

  lemma {:induction false} FirstCallbackDecides(s: State, events: seq<Event>)
    requires CanRun(s, events) && s.settled.None? && s.timer.Some? && s.promptOpen
    ensures var t, n := RunOf(s, events), FirstCallback(events);
      if n == |events| then t == s.(now := s.now + Elapsed(events))
      else
        && t.resolutions == s.resolutions + 1 && t.timer.None? && !t.promptOpen
        && t.settled == Some(if events[n].Answered? then ResultOf(events[n].answer) else TIMED_OUT)
        && (events[n].TimerFires? ==> s.timer.value <= s.now + Elapsed(events[..n]))
    decreases |events|
  {
    if events == [] {
      assert events[..0] == [];
    } else if events[0].Tick? {
      FirstCallbackDecides(Step(s, events[0]), events[1..]);
      var n := FirstCallback(events);
      assert events[..n][1..] == events[1..][..n - 1];
    } else {
      SettledStays(Step(s, events[0]), events[1..]);
      assert events[..0] == [];
    }
  }

  /**
   Whatever callbacks come, and in whatever order: the promise is settled at most once, by the
   first of them; it is approved exactly when that is an answer that says yes; and a timeout is
   never reported before it is due. While no callback has come the timer is still to fire, so
   silence denies.
   */
  lemma FirstCallbackWins(start: nat, timeout: nat, events: seq<Event>)
    requires CanRun(Start(start, timeout), events)
    ensures var t, n := RunOf(Start(start, timeout), events), FirstCallback(events);
      && t.resolutions == (if t.settled.Some? then 1 else 0)
      && (t.settled.None? ==> n == |events| && t.timer == Some(start + timeout) && t.promptOpen)
      && (t.settled == Some(YES) <==> n < |events| && events[n].Answered? && SaysYes(events[n].answer))
      && (t.settled == Some(TIMED_OUT) <==> n < |events| && events[n].TimerFires?)
      && (t.settled == Some(TIMED_OUT) ==> timeout <= Elapsed(events[..n]))
      && (t.settled.Some? ==>
            && n < |events|
            && t.settled.value.approved == (events[n].Answered? && SaysYes(events[n].answer))
            && t.settled.value.reason == if t.settled.value.approved then None
                                         else if events[n].Answered? then Some("declined") else Some("timeout"))
  {
    FirstCallbackDecides(Start(start, timeout), events);
  }

  /**
   While nothing has come, the timer can fire as soon as the timeout has passed and not before; then
   it refuses for want of time.
   */
  lemma SilenceTimesOut(start: nat, timeout: nat, events: seq<Event>)
    requires forall k | 0 <= k < |events| :: events[k].Tick?
    ensures var t := RunOf(Start(start, timeout), events);
      && CanRun(Start(start, timeout), events) && t.now == start + Elapsed(events)
      && (Enabled(t, TimerFires) <==> timeout <= Elapsed(events))
      && Step(t, TimerFires).settled == Some(TIMED_OUT)
  {
    TicksPass(Start(start, timeout), events);
  }

  lemma {:induction false} TicksPass(s: State, events: seq<Event>)
    requires forall k | 0 <= k < |events| :: events[k].Tick?
    ensures CanRun(s, events) && RunOf(s, events) == s.(now := s.now + Elapsed(events))
    decreases |events|
  {
    if events != [] {
      TicksPass(Step(s, events[0]), events[1..]);
    }
  }
}
