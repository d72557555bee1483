/** Texts as sequences of lines, and programs that read a text line by line. */
module Lines {
  import opened Wrappers
  import opened Text

  predicate EndsWithCR(s: string) {
    s != [] && s[|s| - 1] == '\r'
  }

  function DropCR(s: string): string {
    if EndsWithCR(s) then s[..|s| - 1] else s
  }

  /** The pieces between line breaks, a break being "\n" or "\r\n". */
  function SplitLines(s: string): (lines: seq<string>)
    ensures lines != []
    decreases |s|
  {
    var n := IndexOf(s, '\n');
    if n == |s| then [s] else [DropCR(s[..n])] + SplitLines(s[n + 1..])
  }

  /** The lines of a text that is followed by a line break. */
  function ClosedLines(s: string): seq<string>
    decreases |s|
  {
    var n := IndexOf(s, '\n');
    if n == |s| then [DropCR(s)] else [DropCR(s[..n])] + ClosedLines(s[n + 1..])
  }

  /** Every line followed by a line break. */
  function Joined(lines: seq<string>, lineBreak: string): string {
    if lines == [] then [] else lines[0] + lineBreak + Joined(lines[1..], lineBreak)
  }

  /** No line holds a line feed. */
  lemma {:induction false} LinesAreClear(s: string)
    ensures forall i | 0 <= i < |SplitLines(s)| :: '\n' !in SplitLines(s)[i]
    decreases |s|
  {
    IndexOfIsFirst(s, '\n');
    var n := IndexOf(s, '\n');
    if n < |s| {
      LinesAreClear(s[n + 1..]);
    }
  }

  lemma SplitFirst(line: string, rest: string)
    requires '\n' !in line
    ensures SplitLines(line + "\n" + rest) == [DropCR(line)] + SplitLines(rest)
  {
    var s := line + "\n" + rest;
    IndexOfIs(s, '\n', |line|);
    assert s[..|line|] == line && s[|line| + 1..] == rest;
  }

  lemma ClosedFirst(line: string, rest: string)
    requires '\n' !in line
    ensures ClosedLines(line + "\n" + rest) == [DropCR(line)] + ClosedLines(rest)
  {
    var s := line + "\n" + rest;
    IndexOfIs(s, '\n', |line|);
    assert s[..|line|] == line && s[|line| + 1..] == rest;
  }

  lemma LastClosed(line: string)
    requires '\n' !in line
    ensures ClosedLines(line) == [DropCR(line)]
  {
    IndexOfIsFirst(line, '\n');
  }

  lemma BreakInFront(line: string, rest: string, tail: string)
    ensures line + "\n" + rest + "\n" + tail == line + "\n" + (rest + "\n" + tail)
  {
    ConcatAssoc(line + "\n", rest, "\n");
    ConcatAssoc(line + "\n", rest + "\n", tail);
  }

  lemma {:induction false} SplitAfter(head: string, tail: string)
    ensures SplitLines(head + "\n" + tail) == ClosedLines(head) + SplitLines(tail)
    decreases |head|
  {
    var n := IndexOf(head, '\n');
    IndexOfIsFirst(head, '\n');
    if n == |head| {
      LastClosed(head);
      SplitFirst(head, tail);
    } else {
      var line, rest := head[..n], head[n + 1..];
      assert head == line + "\n" + rest;
      BreakInFront(line, rest, tail);
      SplitFirst(line, rest + "\n" + tail);
      ClosedFirst(line, rest);
      SplitAfter(rest, tail);
      ConcatAssoc([DropCR(line)], ClosedLines(rest), SplitLines(tail));
    }
  }

  lemma {:induction false} ClosedIsSplit(s: string)
    requires !EndsWithCR(s)
    ensures ClosedLines(s) == SplitLines(s)
    decreases |s|
  {
    var n := IndexOf(s, '\n');
    if n < |s| {
      ClosedIsSplit(s[n + 1..]);
    }
  }

  /** A line that can be written before either kind of line break. */
  predicate PlainLine(line: string) {
    '\n' !in line && !EndsWithCR(line)
  }

  predicate IsLineBreak(s: string) {
    s == "\n" || s == "\r\n"
  }

  lemma SplitFirstBreak(line: string, lineBreak: string, rest: string)
    requires IsLineBreak(lineBreak) && PlainLine(line)
    ensures SplitLines(line + lineBreak + rest) == [line] + SplitLines(rest)
  {
    if lineBreak == "\n" {
      SplitFirst(line, rest);
    } else {
      SplitFirst(line + "\r", rest);
      assert line + "\r\n" == line + "\r" + "\n";
    }
  }

  /** Line breaks may be written "\n" or "\r\n": the lines are the same. */
  lemma {:induction false} SplitJoined(lines: seq<string>, lineBreak: string, tail: string)
    requires IsLineBreak(lineBreak) && forall i | 0 <= i < |lines| :: PlainLine(lines[i])
    ensures SplitLines(Joined(lines, lineBreak) + tail) == lines + SplitLines(tail)
    decreases |lines|
  {
    if lines == [] {
      assert Joined(lines, lineBreak) + tail == tail;
    } else {
      var first, others := lines[0], lines[1..];
      SplitJoined(others, lineBreak, tail);
      PutFirst(first, others, lineBreak, tail);
      assert lines == [first] + others;
    }
  }

  /** One more plain line in front of lines that come back from their text. */
  lemma PutFirst(first: string, others: seq<string>, lineBreak: string, tail: string)
    requires IsLineBreak(lineBreak) && PlainLine(first)
    requires SplitLines(Joined(others, lineBreak) + tail) == others + SplitLines(tail)
    ensures SplitLines(Joined([first] + others, lineBreak) + tail) == [first] + others + SplitLines(tail)
  {
    JoinedFirst(first, others, lineBreak, tail);
    SplitFirstBreak(first, lineBreak, Joined(others, lineBreak) + tail);
    ConcatAssoc([first], others, SplitLines(tail));
  }

  lemma JoinedFirst(first: string, others: seq<string>, lineBreak: string, tail: string)
    ensures Joined([first] + others, lineBreak) + tail == first + lineBreak + (Joined(others, lineBreak) + tail)
  {
    assert ([first] + others)[1..] == others;
    ConcatAssoc(first + lineBreak, Joined(others, lineBreak), tail);
  }

  // ----- reading line by line

  /** A fault and the number of the line it was found in, counted from 1; 0 for no line. */
  datatype Located<+E> = Located(fault: E, line: nat)

  /** Lines from number `i` on, each taking the state further or ending the reading with a fault. */
  function Fold<S, E>(step: (S, string) -> Result<S, E>, st: S, lines: seq<string>, i: nat): Result<S, Located<E>>
    requires i <= |lines|
    decreases |lines| - i
  {
    if i == |lines| then Success(st)
    else
      match step(st, lines[i])
      case Failure(fault) => Failure(Located(fault, i + 1))
      case Success(next) => Fold(step, next, lines, i + 1)
  }

  /** The states that reading the first `k` lines goes through. */
  predicate StepsTo<S(==), E(==)>(
      step: (S, string) -> Result<S, E>, start: S, lines: seq<string>, states: seq<S>, k: nat)
  {
    && k <= |lines| && |states| == k + 1 && states[0] == start
    && forall i | 0 <= i < k :: step(states[i], lines[i]) == Success(states[i + 1])
  }

  lemma {:induction false} FoldPasses<S, E>(
      step: (S, string) -> Result<S, E>, start: S, lines: seq<string>, states: seq<S>, i: nat)
    requires StepsTo(step, start, lines, states, |lines|) && i <= |lines|
    ensures Fold(step, states[i], lines, i) == Success(states[|lines|])
    decreases |lines| - i
  {
    if i < |lines| {
      FoldPasses(step, start, lines, states, i + 1);
    }
  }

  /** Reading that comes to the end went through such states. */
  lemma {:induction false} FoldPassed<S, E>(
      step: (S, string) -> Result<S, E>, start: S, lines: seq<string>, states: seq<S>, i: nat)
    returns (all: seq<S>)
    requires StepsTo(step, start, lines, states, i) && Fold(step, states[i], lines, i).Success?
    ensures StepsTo(step, start, lines, all, |lines|)
    ensures Fold(step, states[i], lines, i) == Success(all[|lines|])
    decreases |lines| - i
  {
    if i == |lines| {
      all := states;
    } else {
      var next := step(states[i], lines[i]).value;
      all := FoldPassed(step, start, lines, states + [next], i + 1);
    }
  }

  /** Reading stops at a line that it comes to and that the step refuses. */
  lemma {:induction false} FoldStops<S, E>(
      step: (S, string) -> Result<S, E>, start: S, lines: seq<string>, states: seq<S>, k: nat, i: nat, f: E)
    requires StepsTo(step, start, lines, states, k) && i <= k < |lines| && step(states[k], lines[k]) == Failure(f)
    ensures Fold(step, states[i], lines, i) == Failure(Located(f, k + 1))
    decreases k - i
  {
    if i < k {
      FoldStops(step, start, lines, states, k, i + 1, f);
    }
  }

  /** Reading that fails stops at such a line. */
  lemma {:induction false} FoldStopsAt<S, E>(
      step: (S, string) -> Result<S, E>, start: S, lines: seq<string>, states: seq<S>, i: nat)
    returns (k: nat, all: seq<S>)
    requires StepsTo(step, start, lines, states, i) && Fold(step, states[i], lines, i).Failure?
    ensures k < |lines| && StepsTo(step, start, lines, all, k)
    ensures step(all[k], lines[k]).Failure?
    ensures Fold(step, states[i], lines, i) == Failure(Located(step(all[k], lines[k]).error, k + 1))
    decreases |lines| - i
  {
    match step(states[i], lines[i])
    case Failure(_) => k, all := i, states;
    case Success(next) => k, all := FoldStopsAt(step, start, lines, states + [next], i + 1);
  }

  /** The same reading with the faults' line numbers left out. */
  function Run<S, E>(step: (S, string) -> Result<S, E>, st: S, lines: seq<string>): Result<S, E>
    decreases |lines|
  {
    if lines == [] then Success(st)
    else
      var next :- step(st, lines[0]);
      Run(step, next, lines[1..])
  }

  lemma RunFirst<S, E>(step: (S, string) -> Result<S, E>, st: S, line: string, rest: seq<string>)
    requires step(st, line).Success?
    ensures Run(step, st, [line] + rest) == Run(step, step(st, line).value, rest)
  {
    assert ([line] + rest)[1..] == rest;
  }

  lemma {:induction false} RunAppend<S, E>(step: (S, string) -> Result<S, E>, st: S, a: seq<string>, b: seq<string>)
    ensures Run(step, st, a + b) ==
            match Run(step, st, a)
            case Failure(fault) => Failure(fault)
            case Success(next) => Run(step, next, b)
    decreases |a|
  {
    if a == [] {
      assert a + b == b;
    } else {
      assert (a + b)[1..] == a[1..] + b;
      var next := step(st, a[0]);
      if next.Success? {
        RunAppend(step, next.value, a[1..], b);
      }
    }
  }

  /** A reading without a fault has taken every line in some state. */
  lemma {:induction false} RunTakesEachLine<S(!new), E>(
      step: (S, string) -> Result<S, E>, st: S, lines: seq<string>, k: nat)
    requires k < |lines| && Run(step, st, lines).Success?
    ensures exists s :: step(s, lines[k]).Success?
    decreases |lines|
  {
    assert step(st, lines[0]).Success?;
    if k > 0 {
      RunTakesEachLine(step, step(st, lines[0]).value, lines[1..], k - 1);
    }
  }

  lemma {:induction false} FoldIsRun<S, E>(step: (S, string) -> Result<S, E>, st: S, lines: seq<string>, i: nat)
    requires i <= |lines|
    ensures var fold := Fold(step, st, lines, i); var run := Run(step, st, lines[i..]);
            && fold.Success? == run.Success?
            && (if run.Success? then fold.value == run.value else fold.error.fault == run.error)
    decreases |lines| - i
  {
    if i < |lines| {
      var next := step(st, lines[i]);
      assert lines[i..][0] == lines[i] && lines[i..][1..] == lines[i + 1..];
      if next.Success? {
        FoldIsRun(step, next.value, lines, i + 1);
      }
    }
  }

  /** A fault is reported with the number of a line of the text. */
  lemma {:induction false} FaultLines<S, E>(step: (S, string) -> Result<S, E>, st: S, lines: seq<string>, i: nat)
    requires i <= |lines|
    ensures var fold := Fold(step, st, lines, i); fold.Failure? ==> i < fold.error.line <= |lines|
    decreases |lines| - i
  {
    if i < |lines| {
      var next := step(st, lines[i]);
      if next.Success? {
        FaultLines(step, next.value, lines, i + 1);
      }
    }
  }

  /** What every line keeps, a reading keeps. */
  lemma {:induction false} FoldKeeps<S(!new), E>(
      step: (S, string) -> Result<S, E>, inv: S -> bool, st: S, lines: seq<string>, i: nat)
    requires i <= |lines| && inv(st) && forall k | 0 <= k < |lines| :: '\n' !in lines[k]
    requires forall s, line :: inv(s) && '\n' !in line && step(s, line).Success? ==> inv(step(s, line).value)
    ensures Fold(step, st, lines, i).Success? ==> inv(Fold(step, st, lines, i).value)
    decreases |lines| - i
  {
    if i < |lines| {
      var next := step(st, lines[i]);
      if next.Success? {
        FoldKeeps(step, inv, next.value, lines, i + 1);
      }
    }
  }

  // ----- one more line that does nothing

  /** The same verdict on a text that has one more line after its first `n`. */
  function Shifted<T, E>(r: Result<T, Located<E>>, n: nat): Result<T, Located<E>> {
    if r.Failure? && r.error.line > n then Failure(r.error.(line := r.error.line + 1)) else r
  }

  lemma {:induction false} FoldPastInsertion<S, E>(
      step: (S, string) -> Result<S, E>, st: S, before: seq<string>, line: string, after: seq<string>, i: nat)
    requires |before| <= i <= |before| + |after|
    ensures Fold(step, st, before + [line] + after, i + 1)
         == Shifted(Fold(step, st, before + after, i), |before|)
    decreases |before| + |after| - i
  {
    if i < |before| + |after| {
      assert (before + [line] + after)[i + 1] == (before + after)[i];
      var next := step(st, (before + after)[i]);
      if next.Success? {
        FoldPastInsertion(step, next.value, before, line, after, i + 1);
      }
    }
  }

  lemma {:induction false} FoldInsertion<S(!new), E>(
      step: (S, string) -> Result<S, E>, st: S, before: seq<string>, line: string, after: seq<string>, i: nat)
    requires i <= |before| && forall s :: step(s, line) == Success(s)
    ensures Fold(step, st, before + [line] + after, i) == Shifted(Fold(step, st, before + after, i), |before|)
    decreases |before| - i
  {
    if i < |before| {
      assert (before + [line] + after)[i] == (before + after)[i];
      var next := step(st, (before + after)[i]);
      if next.Success? {
        FoldInsertion(step, next.value, before, line, after, i + 1);
      }
    } else {
      assert (before + [line] + after)[i] == line;
      FoldPastInsertion(step, st, before, line, after, i);
    }
  }
}
