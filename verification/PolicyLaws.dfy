/** What holds of every accepted policy text, and of texts that differ only in blank lines. */
module PolicyLaws {
  import opened Wrappers
  import opened Text
  import opened Lines
  import opened PolicyYaml

  predicate DistinctTools(rules: seq<Rule>) {
    forall i, j | 0 <= i < j < |rules| :: rules[i].tool != rules[j].tool
  }

  /** The documents the format stands for. */
  predicate WellFormed(doc: Doc) {
    && doc.version == 1
    && DistinctTools(doc.rules)
    && forall i | 0 <= i < |doc.rules| :: doc.rules[i].tool != []
  }

  lemma AcceptedIsWellFormed(source: string)
    requires Parse(source).Success?
    ensures WellFormed(Parse(source).value)
  {
    var st := Fold(Step, START, SplitLines(source), 0).value;
    FinishedRules(st.drafts, []);
  }

  lemma {:induction false} FinishedRules(drafts: seq<Draft>, rules: seq<Rule>)
    requires |rules| <= |drafts| && FinishRules(drafts, rules).Success?
    requires DistinctTools(rules) && forall i | 0 <= i < |rules| :: rules[i].tool != []
    ensures var all := FinishRules(drafts, rules).value;
            DistinctTools(all) && forall i | 0 <= i < |all| :: all[i].tool != []
    decreases |drafts| - |rules|
  {
    if |rules| < |drafts| {
      var d := drafts[|rules|];
      FinishedRules(drafts, rules + [Rule(d.tool.value, d.effect, d.credential)]);
    }
  }

  /** Drafts that satisfy the final checks become the rules they spell, in order. */
  lemma {:induction false} FinishWellFormed(drafts: seq<Draft>, rules: seq<Rule>, n: nat)
    requires n <= |drafts| == |rules|
    requires DistinctTools(rules)
    requires forall i | 0 <= i < |rules| ::
      rules[i].tool != [] && drafts[i].tool == Some(rules[i].tool)
      && drafts[i].effect == rules[i].effect && drafts[i].credential == rules[i].credential
    ensures FinishRules(drafts, rules[..n]) == Success(rules)
    decreases |drafts| - n
  {
    if n < |drafts| {
      assert rules[..n + 1] == rules[..n] + [rules[n]];
      FinishWellFormed(drafts, rules, n + 1);
    } else {
      assert rules[..n] == rules;
    }
  }

  // ----- blank lines

  /**
   A blank or comment line may stand anywhere between two lines: the document stays the same,
   and a fault stays the same fault, reported one line further down if it comes later.
   */
  lemma BlankLineBetween(head: string, blank: string, tail: string)
    requires '\n' !in blank && IsBlank(DropCR(blank))
    ensures Parse(head + "\n" + blank + "\n" + tail) == Shifted(Parse(head + "\n" + tail), |ClosedLines(head)|)
  {
    ConcatAssoc(head + "\n", blank, "\n");
    ConcatAssoc(head + "\n", blank + "\n", tail);
    SplitAfter(head, blank + "\n" + tail);
    SplitFirst(blank, tail);
    SplitAfter(head, tail);
    BlankLineIn(ClosedLines(head), DropCR(blank), SplitLines(tail));
  }

  lemma BlankLineIn(before: seq<string>, blank: string, after: seq<string>)
    requires IsBlank(blank)
    ensures ParseLines(before + ([blank] + after)) == Shifted(ParseLines(before + after), |before|)
  {
    ConcatAssoc(before, [blank], after);
    BlankSkips(blank);
    FoldInsertion(Step, START, before, blank, after, 0);
    ConcludedShifts(Fold(Step, START, before + after, 0), |before|);
  }

  lemma BlankSkips(blank: string)
    requires IsBlank(blank)
    ensures forall st :: Step(st, blank) == Success(st)
  {
  }

  lemma ConcludedShifts(read: Result<ParseState, ParseError>, n: nat)
    ensures Concluded(Shifted(read, n)) == Shifted(Concluded(read), n)
  {
  }

  lemma BlankLineFirst(blank: string, tail: string)
    requires '\n' !in blank && IsBlank(DropCR(blank))
    ensures Parse(blank + "\n" + tail) == Shifted(Parse(tail), 0)
  {
    SplitFirst(blank, tail);
    var after := SplitLines(tail);
    assert [] + ([DropCR(blank)] + after) == [DropCR(blank)] + after && [] + after == after;
    BlankLineIn([], DropCR(blank), after);
  }

  /** A text may end with a line break and a blank line; its last line may then end in "\r\n". */
  lemma BlankLineLast(head: string, blank: string)
    requires '\n' !in blank && IsBlank(blank) && !EndsWithCR(head)
    ensures Parse(head + "\n" + blank) == Parse(head)
  {
    SplitAfter(head, blank);
    IndexOfIs(blank, '\n', |blank|);
    ClosedIsSplit(head);
    var before := SplitLines(head);
    assert before + ([blank] + []) == before + [blank] && before + [] == before;
    BlankLineIn(before, blank, []);
    FaultLines(Step, START, before, 0);
  }

  /** Writing the line breaks of a text as "\r\n" changes nothing, not even the line of a fault. */
  lemma CarriageReturns(lines: seq<string>, tail: string)
    requires forall i | 0 <= i < |lines| :: PlainLine(lines[i])
    ensures Parse(Joined(lines, "\r\n") + tail) == Parse(Joined(lines, "\n") + tail)
  {
    SplitJoined(lines, "\r\n", tail);
    SplitJoined(lines, "\n", tail);
  }
}
