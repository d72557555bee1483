/**
 The policy format as a grammar: what a line may say and what it does, told by the characters it is
 made of, and which documents a text stands for. The parser accepts exactly the texts of the grammar.
 */
module PolicyGrammar {
  import opened Wrappers
  import opened Text
  import opened Lines
  import opened PolicyYaml
  import opened PolicyLaws
  import opened PolicyValues

  // ----- parts of a line

  /** The text is a field: a key and a value on the two sides of its first colon. */
  ghost predicate FieldIs(text: string, key: string, value: string) {
    exists before, behind ::
      text == before + ":" + behind && ':' !in before && Trims(before, key) && Trims(behind, value)
  }

  lemma FieldIff(text: string, key: string, value: string)
    ensures SplitKeyValue(text) == Success((key, value)) <==> FieldIs(text, key, value)
  {
    if SplitKeyValue(text) == Success((key, value)) {
      SplitIsField(text);
    }
    if FieldIs(text, key, value) {
      var before, behind :|
        text == before + ":" + behind && ':' !in before && Trims(before, key) && Trims(behind, value);
      SplitAtColon(before, behind);
      TrimsIff(before, key);
      TrimsIff(behind, value);
    }
  }

  lemma SplitIsField(text: string)
    requires SplitKeyValue(text).Success?
    ensures FieldIs(text, SplitKeyValue(text).value.0, SplitKeyValue(text).value.1)
  {
    var n := IndexOf(text, ':');
    IndexOfIsFirst(text, ':');
    var before, behind := text[..n], text[n + 1..];
    TrimsIff(before, Trim(before));
    TrimsIff(behind, Trim(behind));
    assert text == before + ":" + behind;
  }

  lemma SplitAtColon(before: string, behind: string)
    requires ':' !in before
    ensures SplitKeyValue(before + ":" + behind) == Success((Trim(before), Trim(behind)))
  {
    var text := before + ":" + behind;
    IndexOfIs(text, ':', |before|);
    assert text[..|before|] == before && text[|before| + 1..] == behind;
  }

  /** A value stands for a text: between two quotes of a kind, or bare and then without any quote. */
  predicate Denotes(value: string, v: string) {
    value == "\"" + v + "\"" || value == "'" + v + "'" || (value == v && v != [] && '"' !in v && '\'' !in v)
  }

  lemma DenotesIff(value: string, v: string)
    requires Trim(value) == value
    ensures Unquote(value) == Success(v) <==> Denotes(value, v)
  {
    if Unquote(value) == Success(v) && (value[0] == '"' || value[0] == '\'') {
      assert value == [value[0]] + value[1..|value| - 1] + [value[0]];
    }
    if value == "\"" + v + "\"" || value == "'" + v + "'" {
      assert value[1..|value| - 1] == v;
    }
  }

  /** A field of a rule writes its own value into the rule. */
  ghost predicate FieldDoes(text: string, d: Draft, e: Draft) {
    exists key, value, v :: FieldIs(text, key, value) && Denotes(value, v) && Writes(key, v, d, e)
  }

  predicate Writes(key: string, v: string, d: Draft, e: Draft) {
    || (key == "tool" && e == d.(tool := Some(v)))
    || (key == "credential" && e == d.(credential := Some(v)))
    || (key == "effect" && v == "allow" && e == d.(effect := Allow))
    || (key == "effect" && v == "deny" && e == d.(effect := Deny))
    || (key == "effect" && v == "require_approval" && e == d.(effect := RequireApproval))
  }

  lemma KeysDiffer()
    ensures "tool" != "credential" && "tool" != "effect" && "credential" != "effect"
    ensures "allow" != "deny" && "allow" != "require_approval" && "deny" != "require_approval"
    ensures "version" != "defaults" && "version" != "rules" && "defaults" != "rules"
  {
    assert "tool"[0] == 't' && "credential"[0] == 'c' && "effect"[0] == 'e';
    assert "allow"[0] == 'a' && "deny"[0] == 'd' && "require_approval"[0] == 'r';
    assert "version"[0] == 'v' && "defaults"[0] == 'd' && "rules"[0] == 'r';
  }

  lemma WritesIff(text: string, key: string, value: string, v: string, d: Draft, e: Draft)
    requires SplitKeyValue(text) == Success((key, value)) && Unquote(value) == Success(v)
    ensures ApplyRuleField(d, text) == Success(e) <==> Writes(key, v, d, e)
  {
    KeysDiffer();
  }

  lemma FieldDoesIff(text: string, d: Draft, e: Draft)
    ensures ApplyRuleField(d, text) == Success(e) <==> FieldDoes(text, d, e)
  {
    if ApplyRuleField(d, text) == Success(e) {
      var (key, value) := SplitKeyValue(text).value;
      var v := Unquote(value).value;
      SplitIsTrimmed(text);
      FieldIff(text, key, value);
      DenotesIff(value, v);
      WritesIff(text, key, value, v, d, e);
    }
    if FieldDoes(text, d, e) {
      var key, value, v :| FieldIs(text, key, value) && Denotes(value, v) && Writes(key, v, d, e);
      FieldIff(text, key, value);
      SplitIsTrimmed(text);
      DenotesIff(value, v);
      WritesIff(text, key, value, v, d, e);
    }
  }

  lemma SplitIsTrimmed(text: string)
    requires SplitKeyValue(text).Success?
    ensures Trim(SplitKeyValue(text).value.1) == SplitKeyValue(text).value.1
  {
    TrimTwice(text[IndexOf(text, ':') + 1..]);
  }

  predicate AllZeros(s: string) {
    forall i | 0 <= i < |s| :: s[i] == '0'
  }

  lemma {:induction false} ZeroIff(s: string)
    requires IsNumeral(s)
    ensures NumeralValue(s) == 0 <==> AllZeros(s)
    decreases |s|
  {
    if |s| > 1 {
      ZeroIff(s[..|s| - 1]);
    }
  }

  /** The one version there is can be written with zeros in front, and in no other way. */
  lemma VersionOneIff(s: string)
    ensures IsNumeral(s) && NumeralValue(s) == 1 <==> exists zeros :: AllZeros(zeros) && s == zeros + "1"
  {
    if IsNumeral(s) && NumeralValue(s) == 1 {
      var zeros := s[..|s| - 1];
      if |s| > 1 {
        ZeroIff(zeros);
      }
      assert s == zeros + "1";
    }
    if zeros :| AllZeros(zeros) && s == zeros + "1" {
      assert s[..|s| - 1] == zeros;
      if zeros != [] {
        ZeroIff(zeros);
      }
    }
  }

  // ----- what a line does

  /** At the start of a line: a version, or the head of a section. */
  ghost predicate TopDoes(st: ParseState, body: string, next: ParseState) {
    || (exists value :: FieldIs(body, "version", value) && IsNumeral(value)
          && next == st.(version := Some(NumeralValue(value)), section := Top, open := false))
    || (FieldIs(body, "defaults", "") && next == st.(section := Defaults, open := false))
    || (FieldIs(body, "rules", "") && next == st.(section := Rules, open := false))
  }

  /** Under `defaults:` only an effect, which allows or denies. */
  ghost predicate DefaultDoes(st: ParseState, body: string, next: ParseState) {
    exists value :: FieldIs(body, "effect", value) &&
      (|| (Denotes(value, "allow") && next == st.(defaults := Some(DefaultAllow)))
       || (Denotes(value, "deny") && next == st.(defaults := Some(DefaultDeny))))
  }

  /** A dash alone or before a blank opens a rule, which denies until it says otherwise. */
  ghost predicate ItemDoes(st: ParseState, indent: nat, body: string, next: ParseState)
    requires body != []
  {
    var item := Draft(None, Deny, None, indent);
    exists rest, d :: Trims(body[1..], rest) && (if rest == [] then d == item else FieldDoes(rest, item, d))
      && next == st.(drafts := st.drafts + [d], open := true)
  }

  predicate OpensItem(body: string) {
    body == "-" || (|body| > 1 && body[0] == '-' && body[1] == ' ')
  }

  lemma OpensItemIff(body: string)
    ensures IsListItem(body) <==> OpensItem(body)
  {
  }

  /** Under `rules:` an item, or a field further in than the item of the rule that is open. */
  ghost predicate RuleDoes(st: ParseState, indent: nat, body: string, next: ParseState)
    requires body != []
  {
    if OpensItem(body) then ItemDoes(st, indent, body, next)
    else
      var last := |st.drafts| - 1;
      && st.open && st.drafts != [] && st.drafts[last].indent < indent
      && exists e :: FieldDoes(body, st.drafts[last], e) && next == st.(drafts := st.drafts[last := e])
  }

  predicate HasNoPattern(s: string) {
    !HasTab(s) && !HasAnchor(s) && !HasMerge(s) && !HasInterpolation(s) && !HasFlow(s)
  }

  /** The line starts with this many blanks. */
  predicate IndentedBy(s: string, n: nat) {
    n <= |s| && (forall k | 0 <= k < n :: s[k] == ' ') && (n < |s| ==> s[n] != ' ')
  }

  /** A line without its comment, in a section of the file. */
  ghost predicate LineDoes(st: ParseState, raw: string, next: ParseState) {
    if AllSpace(raw) then next == st
    else HasNoPattern(raw) && exists n: nat :: IndentedBy(raw, n) && ContentDoes(st, raw, n, next)
  }

  ghost predicate ContentDoes(st: ParseState, raw: string, n: nat, next: ParseState) {
    && n < |raw|
    && if n == 0 then TopDoes(st, raw, next)
       else match st.section
            case Top => false
            case Defaults => DefaultDoes(st, raw[n..], next)
            case Rules => RuleDoes(st, n, raw[n..], next)
  }

  lemma TopIff(st: ParseState, body: string, next: ParseState)
    ensures TopLevelStep(st, body) == Success(next) <==> TopDoes(st, body, next)
  {
    KeysDiffer();
    FieldIff(body, "defaults", "");
    FieldIff(body, "rules", "");
    if TopLevelStep(st, body) == Success(next) {
      var (key, value) := SplitKeyValue(body).value;
      FieldIff(body, key, value);
    }
    forall value | FieldIs(body, "version", value)
      ensures SplitKeyValue(body) == Success(("version", value))
    {
      FieldIff(body, "version", value);
    }
  }

  lemma DefaultIff(st: ParseState, body: string, next: ParseState)
    ensures DefaultsStep(st, body) == Success(next) <==> DefaultDoes(st, body, next)
  {
    forall value
      ensures SplitKeyValue(body) == Success(("effect", value)) <==> FieldIs(body, "effect", value)
    {
      FieldIff(body, "effect", value);
    }
    if SplitKeyValue(body).Success? && SplitKeyValue(body).value.0 == "effect" {
      var value := SplitKeyValue(body).value.1;
      SplitIsTrimmed(body);
      DenotesIff(value, "allow");
      DenotesIff(value, "deny");
      EffectLineIs(st, body, value, "effect", "allow", "deny");
    }
  }

  /** What an effect under `defaults:` sets, by its value. */
  lemma EffectLineIs(st: ParseState, body: string, value: string, key: string, allow: string, deny: string)
    requires SplitKeyValue(body) == Success((key, value)) && key == "effect" && allow == "allow" && deny == "deny"
    ensures var step := DefaultsStep(st, body);
      if Unquote(value) == Success(allow) then step == Success(st.(defaults := Some(DefaultAllow)))
      else if Unquote(value) == Success(deny) then step == Success(st.(defaults := Some(DefaultDeny)))
      else step.Failure?
    ensures allow != deny
  {
    KeysDiffer();
  }

  lemma ItemIff(st: ParseState, indent: nat, body: string, next: ParseState)
    requires body != []
    ensures NewRule(st, indent, body) == Success(next) <==> ItemDoes(st, indent, body, next)
  {
    var item := Draft(None, Deny, None, indent);
    var rest := Trim(body[1..]);
    forall r ensures Trims(body[1..], r) <==> r == rest {
      TrimsIff(body[1..], r);
    }
    FieldsIff(rest, item);
  }

  lemma RuleIff(st: ParseState, indent: nat, body: string, next: ParseState)
    requires body != []
    ensures RulesStep(st, indent, body) == Success(next) <==> RuleDoes(st, indent, body, next)
  {
    OpensItemIff(body);
    if OpensItem(body) {
      ItemIff(st, indent, body, next);
    } else if st.drafts != [] {
      FieldsIff(body, st.drafts[|st.drafts| - 1]);
    }
  }

  lemma FieldsIff(text: string, d: Draft)
    ensures forall e :: ApplyRuleField(d, text) == Success(e) <==> FieldDoes(text, d, e)
  {
    forall e ensures ApplyRuleField(d, text) == Success(e) <==> FieldDoes(text, d, e) {
      FieldDoesIff(text, d, e);
    }
  }

  lemma {:induction false} IndentIff(s: string, n: nat)
    ensures IndentedBy(s, n) <==> n == Indent(s)
    decreases |s|
  {
    if s != [] && s[0] == ' ' && n > 0 {
      IndentIff(s[1..], n - 1);
      assert forall k | 0 < k < |s| :: s[k] == s[1..][k - 1];
      assert IndentedBy(s, n) ==> forall k | 0 <= k < n - 1 :: s[1..][k] == s[k + 1];
      assert IndentedBy(s[1..], n - 1) ==> forall k | 0 < k < n :: s[k] == s[1..][k - 1];
    }
  }

  lemma ContentIff(st: ParseState, raw: string, next: ParseState)
    requires !AllSpace(raw) && HasNoPattern(raw)
    ensures ContentStep(st, raw) == Success(next) <==> ContentDoes(st, raw, Indent(raw), next)
  {
    var n := Indent(raw);
    assert n < |raw| && raw[0..] == raw;
    TopIff(st, raw, next);
    DefaultIff(st, raw[n..], next);
    RuleIff(st, n, raw[n..], next);
  }

  /** The parser takes a line from one state to another exactly when the grammar does. */
  lemma StepIff(st: ParseState, line: string, next: ParseState)
    ensures Step(st, line) == Success(next) <==> LineDoes(st, Uncommented(line), next)
  {
    var raw := Uncommented(line);
    if !AllSpace(raw) && HasNoPattern(raw) {
      ContentIff(st, raw, next);
      IndentIff(raw, Indent(raw));
      forall k: nat ensures IndentedBy(raw, k) ==> k == Indent(raw) {
        IndentIff(raw, k);
      }
    }
  }

  // ----- comments

  /** Behind text without quotes a '#' opens a comment exactly at the start of the line or behind white space. */
  lemma HashOpensComment(before: string, behind: string)
    requires NoQuotes(before) && '#' !in before
    ensures before == [] || IsSpace(before[|before| - 1]) ==> Uncommented(before + "#" + behind) == before
    ensures before != [] && !IsSpace(before[|before| - 1]) && '#' !in behind ==>
      Uncommented(before + "#" + behind) == before + "#" + behind
  {
    var s, n := before + "#" + behind, |before|;
    assert s[..n] == before && s[n] == '#';
    QuoteStays(Unquoted, before);
    assert forall k | 0 <= k < n :: s[k] in before && !CommentAt(s, k);
    if before == [] || IsSpace(before[n - 1]) {
      assert CommentAt(s, n);
    } else {
      assert forall k | n < k < |s| :: s[k] in behind;
      UncutMeans(s);
    }
  }

  /** A closed quotation before it does not keep a '#' from opening a comment. */
  lemma HashBehindQuotes(before: string, quote: char, v: string, gap: string, behind: string)
    requires NoQuotes(before) && '#' !in before && (quote == '"' || quote == '\'') && quote !in v
    requires gap != [] && AllSpace(gap)
    ensures Uncommented(before + Quoted(quote, v) + gap + "#" + behind) == before + Quoted(quote, v) + gap
  {
    var text := before + Quoted(quote, v) + gap;
    var s, n := text + "#" + behind, |text|;
    assert s[..n] == text;
    ClosedQuotesEnd(quote, v);
    QuoteAfterAppend(Unquoted, before, Quoted(quote, v) + gap);
    QuoteAfterAppend(Unquoted, Quoted(quote, v), gap);
    ConcatAssoc(before, Quoted(quote, v), gap);
    QuoteStays(Unquoted, before);
    QuoteStays(Unquoted, gap);
    assert CommentAt(s, n);
    forall k | 0 <= k < n
      ensures !CommentAt(s, k)
    {
      if k < |before| {
        assert s[k] in before;
      } else if k < |before| + |v| + 2 {
        InsideQuotes(before, quote, v, gap + "#" + behind, k);
        assert s == before + Quoted(quote, v) + (gap + "#" + behind);
      } else {
        assert s[k] == gap[k - |before| - |v| - 2];
      }
    }
  }

  lemma ClosedQuotesEnd(quote: char, v: string)
    requires (quote == '"' || quote == '\'') && quote !in v
    ensures QuoteAfter(Unquoted, Quoted(quote, v)) == Unquoted
  {
    var inside := if quote == '"' then Double else Single;
    QuoteAfterAppend(Unquoted, [quote] + v, [quote]);
    QuoteAfterAppend(Unquoted, [quote], v);
    QuoteStays(inside, v);
  }

  lemma InsideQuotes(before: string, quote: char, v: string, behind: string, k: nat)
    requires NoQuotes(before) && (quote == '"' || quote == '\'') && quote !in v
    requires |before| <= k < |before| + |v| + 2
    ensures !CommentAt(before + Quoted(quote, v) + behind, k)
  {
    var q := Quoted(quote, v);
    CommentAtInFront(before + q, behind, k);
    ClosedQuotes(quote, v);
    UncutMeans(q);
    if k > |before| {
      CommentAtShifts(before, q, k - |before|);
    }
  }

  // ----- texts

  /** The states that reading the lines of a text goes through. */
  ghost predicate Reads(lines: seq<string>, states: seq<ParseState>) {
    && |states| == |lines| + 1 && states[0] == ParseState(None, None, [], Top, false)
    && forall i | 0 <= i < |lines| :: LineDoes(states[i], Uncommented(lines[i]), states[i + 1])
  }

  /** The drafts are the rules of the document: named, no two alike, and with what their fields wrote. */
  predicate AreRules(drafts: seq<Draft>, rules: seq<Rule>) {
    && |drafts| == |rules|
    && (forall i | 0 <= i < |rules| ::
          && rules[i].tool != "" && drafts[i].tool == Some(rules[i].tool)
          && drafts[i].effect == rules[i].effect && drafts[i].credential == rules[i].credential)
    && forall i, j | 0 <= i < j < |rules| :: rules[i].tool != rules[j].tool
  }

  /** The document that a text ends with: version 1, and a default that denies unless it was set. */
  predicate EndsWith(st: ParseState, doc: Doc) {
    && st.version == Some(1) && doc.version == 1
    && doc.defaults == (match st.defaults case None => DefaultDeny case Some(effect) => effect)
    && AreRules(st.drafts, doc.rules)
  }

  ghost predicate StandsFor(source: string, doc: Doc) {
    exists states :: Reads(SplitLines(source), states) && EndsWith(states[|states| - 1], doc)
  }

  lemma ReadsIff(lines: seq<string>, states: seq<ParseState>, k: nat)
    requires k <= |lines|
    ensures Reads(lines[..k], states) <==> StepsTo(Step, START, lines, states, k)
  {
    if |states| == k + 1 {
      forall i | 0 <= i < k
        ensures Step(states[i], lines[i]) == Success(states[i + 1])
           <==> LineDoes(states[i], Uncommented(lines[..k][i]), states[i + 1])
      {
        StepIff(states[i], lines[i], states[i + 1]);
      }
    }
  }

  lemma FoldReads(lines: seq<string>) returns (states: seq<ParseState>)
    requires Fold(Step, START, lines, 0).Success?
    ensures Reads(lines, states) && Fold(Step, START, lines, 0) == Success(states[|lines|])
  {
    assert lines[..|lines|] == lines;
    states := FoldPassed(Step, START, lines, [START], 0);
    ReadsIff(lines, states, |lines|);
  }

  lemma ReadsFold(lines: seq<string>, states: seq<ParseState>)
    requires Reads(lines, states)
    ensures Fold(Step, START, lines, 0) == Success(states[|lines|])
  {
    assert lines[..|lines|] == lines;
    ReadsIff(lines, states, |lines|);
    FoldPasses(Step, START, lines, states, 0);
  }

  /** What the final loop returns starts with the rules it has and is the rules of the drafts. */
  lemma {:induction false} FinishedAreRules(drafts: seq<Draft>, rules: seq<Rule>)
    requires |rules| <= |drafts| && AreRules(drafts[..|rules|], rules) && FinishRules(drafts, rules).Success?
    ensures AreRules(drafts, FinishRules(drafts, rules).value)
    decreases |drafts| - |rules|
  {
    var i := |rules|;
    if i == |drafts| {
      assert drafts[..i] == drafts;
    } else {
      var more := rules + [Rule(drafts[i].tool.value, drafts[i].effect, drafts[i].credential)];
      assert AreRules(drafts[..i + 1], more);
      FinishedAreRules(drafts, more);
    }
  }

  lemma FinishIff(st: ParseState, doc: Doc)
    ensures Finish(st) == Success(doc) <==> EndsWith(st, doc)
  {
    assert st.drafts[..0] == [];
    if FinishRules(st.drafts, []).Success? {
      FinishedAreRules(st.drafts, []);
    }
    if AreRules(st.drafts, doc.rules) {
      assert doc.rules[..0] == [];
      FinishWellFormed(st.drafts, doc.rules, 0);
    }
  }

  /** The parser accepts a text as a document exactly when the grammar says that it stands for it. */
  lemma ParseIff(source: string, doc: Doc)
    ensures Parse(source) == Success(doc) <==> StandsFor(source, doc)
  {
    var lines := SplitLines(source);
    if Parse(source) == Success(doc) {
      var states := FoldReads(lines);
      FinishIff(states[|lines|], doc);
    }
    if StandsFor(source, doc) {
      var states :| Reads(lines, states) && EndsWith(states[|states| - 1], doc);
      ReadsFold(lines, states);
      FinishIff(states[|lines|], doc);
    }
  }
}
