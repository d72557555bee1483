/**
 The framing of server-sent events that the command line tool reads: chunks are appended to a
 buffer, the buffer is cut at line feeds, and what follows the last line feed waits for more
 (a subset of section 9.2.6 of the WHATWG HTML Standard).
 */
module EventStream {
  import opened Wrappers
  import opened Text

  /** The lines of a text that end in a line feed. */
  function CompleteLines(s: string): seq<string> {
    Front(SplitOn(s, '\n'))
  }

  /** What follows the last line feed. */
  function Unfinished(s: string): string {
    Last(SplitOn(s, '\n'))
  }

  function Concat(chunks: seq<string>): string {
    if chunks == [] then [] else Concat(chunks[..|chunks| - 1]) + chunks[|chunks| - 1]
  }

  /** A text is its chunks one behind the other, however it was cut. */
  lemma {:induction false} ConcatParts(a: seq<string>, b: seq<string>)
    ensures Concat(a + b) == Concat(a) + Concat(b)
    ensures forall s :: Concat([s]) == s
    decreases |b|
  {
    forall s ensures Concat([s]) == s {
      assert [s][..0] == [];
    }
    if b == [] {
      assert a + b == a;
    } else {
      var n := |b| - 1;
      assert (a + b)[..|a| + n] == a + b[..n];
      ConcatParts(a, b[..n]);
    }
  }

  /** Reading on from the unfinished line is as good as reading the whole text again. */
  lemma LinesGoOn(s: string, chunk: string)
    ensures CompleteLines(s + chunk) == CompleteLines(s) + CompleteLines(Unfinished(s) + chunk)
    ensures Unfinished(s + chunk) == Unfinished(Unfinished(s) + chunk)
  {
    SplitOnAppend(s, chunk, '\n');
    var more := SplitOn(Unfinished(s) + chunk, '\n');
    assert Front(CompleteLines(s) + more) == CompleteLines(s) + Front(more);
  }

  /** The first line that the judge has a verdict on. */
  function FirstVerdict<V>(judge: string -> Option<V>, lines: seq<string>): Option<V> {
    if lines == [] then None
    else
      match judge(lines[0])
      case Some(v) => Some(v)
      case None => FirstVerdict(judge, lines[1..])
  }

  lemma {:induction false} FirstVerdictAppend<V>(judge: string -> Option<V>, a: seq<string>, b: seq<string>)
    ensures FirstVerdict(judge, a + b)
         == if FirstVerdict(judge, a).Some? then FirstVerdict(judge, a) else FirstVerdict(judge, b)
  {
    if a == [] {
      assert a + b == b;
    } else {
      assert (a + b)[1..] == a[1..] + b;
      FirstVerdictAppend(judge, a[1..], b);
    }
  }

  /** The verdict is that of some line, and no earlier line has one. */
  lemma {:induction false} FirstVerdictIsFirst<V>(judge: string -> Option<V>, lines: seq<string>, k: nat)
    requires k < |lines| && judge(lines[k]).Some? && forall i | 0 <= i < k :: judge(lines[i]).None?
    ensures FirstVerdict(judge, lines) == judge(lines[k])
  {
    if k > 0 {
      FirstVerdictIsFirst(judge, lines[1..], k - 1);
    }
  }

  lemma {:induction false} FirstVerdictSays<V>(judge: string -> Option<V>, lines: seq<string>)
    ensures match FirstVerdict(judge, lines)
            case None => forall line | line in lines :: judge(line).None?
            case Some(v) => exists line | line in lines :: judge(line) == Some(v)
  {
    if lines != [] {
      if judge(lines[0]).Some? {
        assert lines[0] in lines;
      } else {
        FirstVerdictSays(judge, lines[1..]);
      }
    }
  }

  /** Where the verdict is. */
  lemma {:induction false} FirstVerdictAt<V>(judge: string -> Option<V>, lines: seq<string>) returns (i: nat)
    requires FirstVerdict(judge, lines).Some?
    ensures i < |lines| && judge(lines[i]) == FirstVerdict(judge, lines)
    ensures forall j | 0 <= j < i :: judge(lines[j]).None?
  {
    if judge(lines[0]).Some? {
      i := 0;
    } else {
      i := FirstVerdictAt(judge, lines[1..]);
      i := i + 1;
    }
  }

  lemma {:induction false} NoVerdict<V>(judge: string -> Option<V>, lines: seq<string>)
    requires forall k | 0 <= k < |lines| :: judge(lines[k]).None?
    ensures FirstVerdict(judge, lines) == None
  {
    if lines != [] {
      NoVerdict(judge, lines[1..]);
    }
  }

  /** A verdict reached after some chunks is the verdict of all of them. */
  lemma {:induction false} VerdictStays<V>(judge: string -> Option<V>, chunks: seq<string>, i: nat)
    requires i <= |chunks| && FirstVerdict(judge, CompleteLines(Concat(chunks[..i]))).Some?
    ensures FirstVerdict(judge, CompleteLines(Concat(chunks)))
         == FirstVerdict(judge, CompleteLines(Concat(chunks[..i])))
    decreases |chunks| - i
  {
    if i < |chunks| {
      var before := Concat(chunks[..i]);
      assert chunks[..i + 1][..i] == chunks[..i];
      LinesGoOn(before, chunks[i]);
      FirstVerdictAppend(judge, CompleteLines(before), CompleteLines(Unfinished(before) + chunks[i]));
      VerdictStays(judge, chunks, i + 1);
    } else {
      assert chunks[..i] == chunks;
    }
  }

  /** Text behind the last line feed does not change the verdict. */
  lemma UnfinishedIsUnused<V>(judge: string -> Option<V>, s: string, tail: string)
    requires '\n' !in tail
    ensures FirstVerdict(judge, CompleteLines(s + "\n" + tail)) == FirstVerdict(judge, CompleteLines(s + "\n"))
  {
    var closed := s + "\n";
    LinesGoOn(closed, tail);
    LinesGoOn(s, "\n");
    IndexOfIs("\n", '\n', 0);
    PiecesAreClear(closed, '\n');
    var rest := Unfinished(closed) + tail;
    SplitOnClear(rest, '\n');
    assert CompleteLines(rest) == [];
    assert CompleteLines(closed) + [] == CompleteLines(closed);
  }
}
