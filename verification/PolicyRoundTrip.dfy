/** Writing a policy document in its documented form and reading it back. */
module PolicyRoundTrip {
  import opened Wrappers
  import opened Text
  import opened Lines
  import opened PolicyYaml
  import opened PolicyLaws
  import opened PolicyValues

  // ----- the writer

  function EffectName(e: RuleEffect): string {
    match e
    case Allow => "allow"
    case Deny => "deny"
    case RequireApproval => "require_approval"
  }

  function DefaultName(e: DefaultEffect): string {
    match e
    case DefaultAllow => "allow"
    case DefaultDeny => "deny"
  }

  const ITEM := "  - "
  const DEEPER := "    "

  /** A field whose value is a word that needs no quotes. */
  function WordField(key: string, word: string): string {
    key + ":" + (" " + word)
  }

  function RuleLines(rule: Rule): seq<string> {
    [ITEM + Field("tool", rule.tool), DEEPER + WordField("effect", EffectName(rule.effect))] + CredentialLines(rule)
  }

  function CredentialLines(rule: Rule): seq<string> {
    if rule.credential.Some? then [DEEPER + Field("credential", rule.credential.value)] else []
  }

  function RulesLines(rules: seq<Rule>): seq<string> {
    if rules == [] then [] else RuleLines(rules[0]) + RulesLines(rules[1..])
  }

  function SectionHead(key: string): string {
    key + ":"
  }

  function DocLines(doc: Doc): seq<string> {
    [WordField("version", Numeral(doc.version))]
    + ([SectionHead("defaults")]
       + (["  " + WordField("effect", DefaultName(doc.defaults))]
          + ([SectionHead("rules")] + RulesLines(doc.rules))))
  }

  function Render(doc: Doc): string {
    Joined(DocLines(doc), "\n")
  }

  // ----- one line

  lemma {:induction false} IndentIs(s: string, n: nat)
    requires n < |s| && s[n] != ' ' && forall k | 0 <= k < n :: s[k] == ' '
    ensures Indent(s) == n
  {
    if n > 0 {
      IndentIs(s[1..], n - 1);
    }
  }

  /** A line without a comment or a forbidden pattern is judged by its indent and what follows. */
  lemma LineIs(st: ParseState, n: nat, body: string, line: string)
    requires line == Spaces(n) + body && body != [] && !IsSpace(body[0])
    requires Uncut(line) && Forbidden(line) == None
    ensures Step(st, line) ==
            if n == 0 then TopLevelStep(st, body)
            else match st.section
                 case Defaults => DefaultsStep(st, body)
                 case Rules => RulesStep(st, n, body)
                 case Top => Failure(UnexpectedIndent)
  {
    assert line[n] == body[0] && line[n..] == body;
    IndentIs(line, n);
  }

  function Spaces(n: nat): string {
    seq(n, _ => ' ')
  }

  lemma PlainLineIs(line: string)
    requires Plain(line)
    ensures Uncut(line) && Forbidden(line) == None
  {
    NoComment(line);
  }

  lemma Behind(pre: string, key: string, shown: string)
    ensures pre + (key + ":" + shown) == pre + key + (":" + shown)
  {
  }

  /** A line with a field whose value is readable. */
  lemma FieldLineIsClear(pre: string, key: string, v: string)
    requires Plain(pre) && Plain(key) && Readable(v)
    ensures Uncut(pre + Field(key, v)) && Forbidden(pre + Field(key, v)) == None
  {
    Behind(pre, key, Shown(v));
    ShownIsClear(pre + key, v);
  }

  /** A value that is one word. */
  predicate IsWord(word: string) {
    NoOuterSpace(word) && Plain(word) && '\n' !in word
  }

  /** A line with a field whose value is a word. */
  lemma WordFieldIs(pre: string, key: string, word: string)
    requires Plain(pre) && Plain(key) && NoOuterSpace(key) && ':' !in key && IsWord(word)
    ensures Uncut(pre + WordField(key, word)) && Forbidden(pre + WordField(key, word)) == None
    ensures SplitKeyValue(WordField(key, word)) == Success((key, word)) && Unquote(word) == Success(word)
  {
    PlainLineIs(pre + WordField(key, word));
    SplitField(key, " ", word);
    UnquoteBare(word);
  }

  lemma NameIsKey(key: string)
    requires key in {"tool", "effect", "credential", "version"}
    ensures NoOuterSpace(key) && Plain(key) && ':' !in key && key[0] != '-'
  {
  }

  // ----- the lines of a rule

  lemma ToolLine(st: ParseState, v: string)
    requires st.section == Rules && Readable(v)
    ensures Step(st, ITEM + Field("tool", v))
         == Success(st.(drafts := st.drafts + [Draft(Some(v), Deny, None, 2)], open := true))
  {
    var field := Field("tool", v);
    NameIsKey("tool");
    FieldLineIsClear(ITEM, "tool", v);
    ShownIsRead("tool", v);
    ItemLine(st, field);
  }

  lemma ItemLine(st: ParseState, field: string)
    requires st.section == Rules && NoOuterSpace(field) && Uncut(ITEM + field) && Forbidden(ITEM + field) == None
    ensures Step(st, ITEM + field) ==
      match ApplyRuleField(Draft(None, Deny, None, 2), field)
      case Failure(fault) => Failure(fault)
      case Success(d) => Success(st.(drafts := st.drafts + [d], open := true))
  {
    assert ITEM == Spaces(2) + "- ";
    ConcatAssoc(Spaces(2), "- ", field);
    LineIs(st, 2, "- " + field, ITEM + field);
    ItemIs(st, field);
  }

  lemma ItemIs(st: ParseState, field: string)
    requires NoOuterSpace(field)
    ensures RulesStep(st, 2, "- " + field) ==
      match ApplyRuleField(Draft(None, Deny, None, 2), field)
      case Failure(fault) => Failure(fault)
      case Success(d) => Success(st.(drafts := st.drafts + [d], open := true))
  {
    assert ("- " + field)[1..] == " " + field + "";
    TrimPadded(" ", field, "");
  }

  function LastDraft(st: ParseState, d: Draft): ParseState
    requires st.drafts != []
  {
    st.(drafts := st.drafts[|st.drafts| - 1 := d])
  }

  /** The last draft is open for fields. */
  predicate OpenRule(st: ParseState) {
    st.section == Rules && st.open && st.drafts != [] && st.drafts[|st.drafts| - 1].indent < 4
  }

  /** A field line writes its field into the last draft. */
  lemma FieldLine(st: ParseState, body: string)
    requires OpenRule(st) && body != [] && !IsSpace(body[0]) && body[0] != '-'
    requires Uncut(DEEPER + body) && Forbidden(DEEPER + body) == None
    ensures Step(st, DEEPER + body) ==
            match ApplyRuleField(st.drafts[|st.drafts| - 1], body)
            case Failure(fault) => Failure(fault)
            case Success(d) => Success(LastDraft(st, d))
  {
    assert DEEPER == Spaces(4);
    LineIs(st, 4, body, DEEPER + body);
  }

  lemma CredentialLine(st: ParseState, v: string)
    requires OpenRule(st) && Readable(v)
    ensures Step(st, DEEPER + Field("credential", v))
         == Success(LastDraft(st, st.drafts[|st.drafts| - 1].(credential := Some(v))))
  {
    NameIsKey("credential");
    FieldLineIsClear(DEEPER, "credential", v);
    CredentialField(st.drafts[|st.drafts| - 1], "credential", v);
    FieldStarts("credential", v);
    FieldLine(st, Field("credential", v));
  }

  lemma FieldStarts(key: string, v: string)
    requires NoOuterSpace(key)
    ensures Field(key, v) != [] && Field(key, v)[0] == key[0]
  {
  }

  lemma CredentialField(d: Draft, key: string, v: string)
    requires key == "credential" && Readable(v)
    ensures ApplyRuleField(d, Field(key, v)) == Success(d.(credential := Some(v)))
  {
    NameIsKey(key);
    ShownIsRead(key, v);
  }

  lemma EffectNameIs(e: RuleEffect)
    ensures IsWord(EffectName(e)) && EffectOf(EffectName(e)) == Some(e)
  {
  }

  lemma EffectLine(st: ParseState, e: RuleEffect)
    requires OpenRule(st)
    ensures Step(st, DEEPER + WordField("effect", EffectName(e)))
         == Success(LastDraft(st, st.drafts[|st.drafts| - 1].(effect := e)))
  {
    NameIsKey("effect");
    EffectNameIs(e);
    WordFieldIs(DEEPER, "effect", EffectName(e));
    FieldLine(st, WordField("effect", EffectName(e)));
  }

  // ----- rules and documents

  function DraftOf(rule: Rule): Draft {
    Draft(Some(rule.tool), rule.effect, rule.credential, 2)
  }

  lemma LastIs(st: ParseState, d: Draft, e: Draft)
    ensures LastDraft(st.(drafts := st.drafts + [d], open := true), e) == st.(drafts := st.drafts + [e], open := true)
  {
    assert (st.drafts + [d])[|st.drafts| := e] == st.drafts + [e];
  }

  lemma RunRule(st: ParseState, rule: Rule)
    requires st.section == Rules && ReadableRule(rule)
    ensures Run(Step, st, RuleLines(rule)) == Success(st.(drafts := st.drafts + [DraftOf(rule)], open := true))
  {
    var none: seq<string> := [];
    var item := Draft(Some(rule.tool), Deny, None, 2);
    var st1 := st.(drafts := st.drafts + [item], open := true);
    ToolLine(st, rule.tool);
    var withEffect := item.(effect := rule.effect);
    var st2 := st.(drafts := st.drafts + [withEffect], open := true);
    LastIs(st, item, withEffect);
    EffectLine(st1, rule.effect);
    var tail := CredentialLines(rule);
    var tool, effect := ITEM + Field("tool", rule.tool), DEEPER + WordField("effect", EffectName(rule.effect));
    assert RuleLines(rule) == [tool] + ([effect] + tail);
    RunFirst(Step, st, tool, [effect] + tail);
    RunFirst(Step, st1, effect, tail);
    if rule.credential.Some? {
      CredentialLine(st2, rule.credential.value);
      LastIs(st, withEffect, DraftOf(rule));
      assert tail == [DEEPER + Field("credential", rule.credential.value)] + none;
      RunFirst(Step, st2, DEEPER + Field("credential", rule.credential.value), none);
    }
  }

  function DraftsOf(rules: seq<Rule>): seq<Draft> {
    seq(|rules|, i requires 0 <= i < |rules| => DraftOf(rules[i]))
  }

  lemma {:induction false} RunRules(st: ParseState, rules: seq<Rule>)
    requires st.section == Rules && forall i | 0 <= i < |rules| :: ReadableRule(rules[i])
    ensures Run(Step, st, RulesLines(rules))
         == Success(st.(drafts := st.drafts + DraftsOf(rules), open := st.open || rules != []))
    decreases |rules|
  {
    if rules == [] {
      assert st.drafts + DraftsOf(rules) == st.drafts;
    } else {
      RunRule(st, rules[0]);
      var next := st.(drafts := st.drafts + [DraftOf(rules[0])], open := true);
      RunAppend(Step, st, RuleLines(rules[0]), RulesLines(rules[1..]));
      RunRules(next, rules[1..]);
      DraftsFirst(rules);
      ConcatAssoc(st.drafts, [DraftOf(rules[0])], DraftsOf(rules[1..]));
    }
  }

  lemma DraftsFirst(rules: seq<Rule>)
    requires rules != []
    ensures [DraftOf(rules[0])] + DraftsOf(rules[1..]) == DraftsOf(rules)
  {
  }

  // ----- numerals

  lemma {:induction false} NumeralIs(n: nat)
    ensures IsNumeral(Numeral(n)) && NumeralValue(Numeral(n)) == n
  {
    if n >= 10 {
      NumeralIs(n / 10);
      var s := Numeral(n);
      assert s[..|s| - 1] == Numeral(n / 10);
    }
  }

  // ----- the head of a document

  lemma TopLine(st: ParseState, line: string)
    requires Plain(line) && line != [] && !IsSpace(line[0])
    ensures Step(st, line) == TopLevelStep(st, line)
  {
    PlainLineIs(line);
    assert line == Spaces(0) + line;
    LineIs(st, 0, line, line);
  }

  lemma NumeralIsWord(n: nat)
    ensures IsWord(Numeral(n))
  {
    NumeralIs(n);
  }

  lemma VersionLine(st: ParseState, n: nat)
    ensures Step(st, WordField("version", Numeral(n)))
         == Success(st.(version := Some(n), section := Top, open := false))
  {
    NumeralIs(n);
    NumeralIsWord(n);
    VersionField(st, "version", Numeral(n));
  }

  lemma VersionField(st: ParseState, key: string, numeral: string)
    requires key == "version" && IsNumeral(numeral) && IsWord(numeral)
    ensures Step(st, WordField(key, numeral))
         == Success(st.(version := Some(NumeralValue(numeral)), section := Top, open := false))
  {
    NameIsKey(key);
    SplitField(key, " ", numeral);
    TopLine(st, WordField(key, numeral));
  }

  lemma SectionLine(st: ParseState, key: string)
    requires key == "defaults" || key == "rules"
    ensures Step(st, SectionHead(key))
         == Success(st.(section := if key == "rules" then Rules else Defaults, open := false))
  {
    TopLine(st, SectionHead(key));
    SplitSectionHead(key);
  }

  lemma SplitSectionHead(key: string)
    requires NoOuterSpace(key) && ':' !in key
    ensures SplitKeyValue(SectionHead(key)) == Success((key, ""))
  {
    var line := key + ":";
    IndexOfIs(line, ':', |key|);
    assert line[..|key|] == "" + key + "" && line[|key| + 1..] == "";
    TrimPadded("", key, "");
  }

  lemma DefaultNameIs(e: DefaultEffect)
    ensures IsWord(DefaultName(e))
  {
  }

  lemma DefaultLine(st: ParseState, e: DefaultEffect)
    requires st.section == Defaults
    ensures Step(st, "  " + WordField("effect", DefaultName(e))) == Success(st.(defaults := Some(e)))
  {
    var field := WordField("effect", DefaultName(e));
    DefaultNameIs(e);
    NameIsKey("effect");
    WordFieldIs("  ", "effect", DefaultName(e));
    assert "  " == Spaces(2);
    LineIs(st, 2, field, "  " + field);
    DefaultFieldIs(st, e);
  }

  lemma DefaultFieldIs(st: ParseState, e: DefaultEffect)
    ensures DefaultsStep(st, WordField("effect", DefaultName(e))) == Success(st.(defaults := Some(e)))
  {
    DefaultNameIs(e);
    NameIsKey("effect");
    WordFieldIs("", "effect", DefaultName(e));
  }

  lemma RunSections(st: ParseState, doc: Doc)
    ensures var defaulted := st.(defaults := Some(doc.defaults), section := Rules, open := false);
      Run(Step, st, [SectionHead("defaults")] + (["  " + WordField("effect", DefaultName(doc.defaults))]
                    + ([SectionHead("rules")] + RulesLines(doc.rules))))
      == Run(Step, defaulted, RulesLines(doc.rules))
  {
    var st1 := st.(section := Defaults, open := false);
    var st2 := st1.(defaults := Some(doc.defaults));
    var rules := [SectionHead("rules")] + RulesLines(doc.rules);
    SectionLine(st, "defaults");
    RunFirst(Step, st, SectionHead("defaults"), ["  " + WordField("effect", DefaultName(doc.defaults))] + rules);
    DefaultLine(st1, doc.defaults);
    RunFirst(Step, st1, "  " + WordField("effect", DefaultName(doc.defaults)), rules);
    SectionLine(st2, "rules");
    RunFirst(Step, st2, SectionHead("rules"), RulesLines(doc.rules));
  }

  lemma RunDoc(doc: Doc)
    requires forall i | 0 <= i < |doc.rules| :: ReadableRule(doc.rules[i])
    ensures Run(Step, START, DocLines(doc))
         == Success(ParseState(Some(doc.version), Some(doc.defaults), DraftsOf(doc.rules), Rules, doc.rules != []))
  {
    var st := START.(version := Some(doc.version));
    VersionLine(START, doc.version);
    RunFirst(Step, START, WordField("version", Numeral(doc.version)), DocLines(doc)[1..]);
    RunSections(st, doc);
    RunRules(st.(defaults := Some(doc.defaults), section := Rules), doc.rules);
    assert [] + DraftsOf(doc.rules) == DraftsOf(doc.rules);
  }

  // ----- the round trip

  lemma FieldIsPlain(pre: string, key: string, v: string)
    requires '\n' !in pre && '\n' !in key && Readable(v)
    ensures PlainLine(pre + Field(key, v))
  {
    var line := pre + Field(key, v);
    assert Shown(v) != [] && line[|line| - 1] == Shown(v)[|Shown(v)| - 1];
  }

  lemma WordFieldIsPlain(pre: string, key: string, word: string)
    requires '\n' !in pre && '\n' !in key && IsWord(word)
    ensures PlainLine(pre + WordField(key, word))
  {
    var line := pre + WordField(key, word);
    assert line[|line| - 1] == word[|word| - 1];
  }

  lemma NamesAreClear()
    ensures '\n' !in ITEM && '\n' !in DEEPER && '\n' !in "  "
    ensures forall key | key in {"tool", "effect", "credential", "version"} :: '\n' !in key
  {
  }

  lemma {:induction false} RulesLinesPlain(rules: seq<Rule>, k: nat)
    requires k < |RulesLines(rules)| && forall i | 0 <= i < |rules| :: ReadableRule(rules[i])
    ensures PlainLine(RulesLines(rules)[k])
    decreases |rules|
  {
    var n := |RuleLines(rules[0])|;
    if k < n {
      RuleLinesPlain(rules[0], k);
    } else {
      RulesLinesPlain(rules[1..], k - n);
    }
  }

  lemma RuleLinesPlain(rule: Rule, k: nat)
    requires k < |RuleLines(rule)| && ReadableRule(rule)
    ensures PlainLine(RuleLines(rule)[k])
  {
    NamesAreClear();
    EffectNameIs(rule.effect);
    FieldIsPlain(ITEM, "tool", rule.tool);
    WordFieldIsPlain(DEEPER, "effect", EffectName(rule.effect));
    if rule.credential.Some? {
      FieldIsPlain(DEEPER, "credential", rule.credential.value);
    }
  }

  lemma DocLinesPlain(doc: Doc, k: nat)
    requires k < |DocLines(doc)| && forall i | 0 <= i < |doc.rules| :: ReadableRule(doc.rules[i])
    ensures PlainLine(DocLines(doc)[k])
  {
    NamesAreClear();
    if k == 0 {
      NumeralIsWord(doc.version);
      WordFieldIsPlain("", "version", Numeral(doc.version));
      assert "" + DocLines(doc)[0] == DocLines(doc)[0];
    } else if k == 2 {
      DefaultNameIs(doc.defaults);
      WordFieldIsPlain("  ", "effect", DefaultName(doc.defaults));
    } else if k >= 4 {
      RulesLinesPlain(doc.rules, k - 4);
    }
  }

  lemma RenderedLines(doc: Doc)
    requires forall i | 0 <= i < |doc.rules| :: ReadableRule(doc.rules[i])
    ensures SplitLines(Render(doc)) == DocLines(doc) + [""]
  {
    forall k | 0 <= k < |DocLines(doc)|
      ensures PlainLine(DocLines(doc)[k])
    {
      DocLinesPlain(doc, k);
    }
    SplitJoined(DocLines(doc), "\n", "");
    assert Render(doc) + "" == Render(doc);
  }

  lemma RunRendered(doc: Doc)
    requires forall i | 0 <= i < |doc.rules| :: ReadableRule(doc.rules[i])
    ensures Fold(Step, START, SplitLines(Render(doc)), 0).Success? == Run(Step, START, DocLines(doc)).Success?
    ensures Run(Step, START, DocLines(doc)).Success? ==>
      Fold(Step, START, SplitLines(Render(doc)), 0).value == Run(Step, START, DocLines(doc)).value
  {
    var lines := DocLines(doc) + [""];
    RenderedLines(doc);
    FoldIsRun(Step, START, lines, 0);
    assert lines[0..] == lines;
    RunAppend(Step, START, DocLines(doc), [""]);
    var run := Run(Step, START, DocLines(doc));
    if run.Success? {
      assert Step(run.value, "") == Success(run.value);
      RunFirst(Step, run.value, "", []);
      assert [""] + [] == [""];
    }
  }

  /** The documents whose text the parser reads back: well formed, with readable values. */
  predicate Writable(doc: Doc) {
    WellFormed(doc) && forall i | 0 <= i < |doc.rules| :: ReadableRule(doc.rules[i])
  }

  /**
   Writing a document and reading it back gives the same document, rule order and optional
   credentials included, exactly when it is a version-1 document whose tools are named and
   distinct and whose values are readable.
   */
  lemma RoundTrip(doc: Doc)
    ensures Parse(Render(doc)) == Success(doc) <==> Writable(doc)
  {
    if Parse(Render(doc)) == Success(doc) {
      AcceptedIsWellFormed(Render(doc));
      AcceptedIsReadable(Render(doc));
    }
    if Writable(doc) {
      RunRendered(doc);
      RunDoc(doc);
      FinishWellFormed(DraftsOf(doc.rules), doc.rules, 0);
    }
  }

  /** So a document is what some text parses to exactly when it is what its own rendering parses to. */
  lemma RangeOfParse(doc: Doc)
    ensures (exists source :: Parse(source) == Success(doc)) <==> Writable(doc)
  {
    RoundTrip(doc);
    if source :| Parse(source) == Success(doc) {
      AcceptedIsWellFormed(source);
      AcceptedIsReadable(source);
    }
  }
}
