/** Which fault a policy text is refused for, and on which line: told by the grammar, like what it accepts. */
module PolicyFaults {
  import opened Wrappers
  import opened Text
  import opened Lines
  import opened PolicyYaml
  import opened PolicyGrammar

  // ----- values and fields

  /** What keeps a value, without white space around it, from standing for a text. */
  predicate ValueFaults(value: string, f: Fault) {
    match f
    case EmptyValue => value == ""
    case UnterminatedQuote => value == "\"" || value == "'"
    case StrayQuote => |value| > 1 && ('"' in value || '\'' in value) && !Enclosed(value, '"') && !Enclosed(value, '\'')
    case _ => false
  }

  predicate Enclosed(value: string, quote: char) {
    value != "" && value[0] == quote && value[|value| - 1] == quote
  }

  lemma ValueFaultsIff(value: string, f: Fault)
    requires Trim(value) == value
    ensures Unquote(value) == Failure(f) <==> ValueFaults(value, f)
  {
    assert |value| == 1 && '"' in value ==> value[0] == '"';
    assert |value| == 1 && '\'' in value ==> value[0] == '\'';
    assert |value| == 1 ==> value == [value[0]];
  }

  predicate IsRuleKey(key: string) {
    key == "tool" || key == "effect" || key == "credential"
  }

  predicate IsEffect(v: string) {
    v == "allow" || v == "deny" || v == "require_approval"
  }

  /** What keeps a text from being a field of a rule. */
  ghost predicate FieldFaults(text: string, f: Fault) {
    || (f == ExpectedKeyValue && ':' !in text)
    || (exists key, value :: FieldIs(text, key, value) && ValueFaults(value, f))
    || (f == BadEffect && exists value, v :: FieldIs(text, "effect", value) && Denotes(value, v) && !IsEffect(v))
    || (exists key, value, v ::
          FieldIs(text, key, value) && Denotes(value, v) && !IsRuleKey(key) && f == UnknownRuleKey(key))
  }

  lemma NoColonIff(text: string)
    ensures SplitKeyValue(text) == Failure(ExpectedKeyValue) <==> ':' !in text
    ensures SplitKeyValue(text).Failure? ==> SplitKeyValue(text).error == ExpectedKeyValue
  {
    IndexOfIsFirst(text, ':');
  }

  /** A field's key and value are the only ones, and a value that has a text has no fault. */
  lemma OneField(text: string, key: string, value: string)
    requires SplitKeyValue(text) == Success((key, value))
    ensures forall k, v :: FieldIs(text, k, v) <==> k == key && v == value
    ensures forall f :: Unquote(value) == Failure(f) <==> ValueFaults(value, f)
    ensures forall v :: Unquote(value) == Success(v) <==> Denotes(value, v)
  {
    SplitIsTrimmed(text);
    forall k, v ensures FieldIs(text, k, v) <==> k == key && v == value {
      FieldIff(text, k, v);
    }
    forall f ensures Unquote(value) == Failure(f) <==> ValueFaults(value, f) {
      ValueFaultsIff(value, f);
    }
    forall v ensures Unquote(value) == Success(v) <==> Denotes(value, v) {
      DenotesIff(value, v);
    }
  }

  lemma NoField(text: string)
    requires ':' !in text
    ensures forall k, v :: !FieldIs(text, k, v)
  {
    forall k, v ensures !FieldIs(text, k, v) {
      NoColonIff(text);
      FieldIff(text, k, v);
    }
  }

  lemma FieldFaultsIff(d: Draft, text: string, f: Fault)
    ensures ApplyRuleField(d, text) == Failure(f) <==> FieldFaults(text, f)
  {
    NoColonIff(text);
    if SplitKeyValue(text).Failure? {
      NoField(text);
    } else {
      var (key, value) := SplitKeyValue(text).value;
      HasColon(text, key, value);
      FaultByKey(d, text, key, value, f);
      OneField(text, key, value);
      FieldFaultsByKey(text, key, value, Unquote(value), f);
    }
  }

  lemma HasColon(text: string, key: string, value: string)
    requires SplitKeyValue(text) == Success((key, value))
    ensures ':' in text
  {
    IndexOfIsFirst(text, ':');
  }

  predicate FieldFault(key: string, r: Result<string, Fault>, f: Fault) {
    match r
    case Failure(fault) => f == fault
    case Success(v) =>
      || (f == BadEffect && key == "effect" && !IsEffect(v))
      || (f == UnknownRuleKey(key) && !IsRuleKey(key))
  }

  lemma FieldFaultsByKey(text: string, key: string, value: string, r: Result<string, Fault>, f: Fault)
    requires ':' in text && forall k, v :: FieldIs(text, k, v) <==> k == key && v == value
    requires forall g :: r == Failure(g) <==> ValueFaults(value, g)
    requires forall v :: r == Success(v) <==> Denotes(value, v)
    ensures FieldFaults(text, f) <==> FieldFault(key, r, f)
  {
    assert FieldIs(text, key, value);
    match r
    case Failure(fault) => assert ValueFaults(value, fault);
    case Success(v) => TextFaultsByKey(text, key, value, v, f);
  }

  lemma TextFaultsByKey(text: string, key: string, value: string, v: string, f: Fault)
    requires ':' in text && forall k, x :: FieldIs(text, k, x) <==> k == key && x == value
    requires !ValueFaults(value, f)
    requires forall x :: v == x <==> Denotes(value, x)
    ensures FieldFaults(text, f) <==> FieldFault(key, Success(v), f)
  {
    assert FieldIs(text, key, value) && Denotes(value, v);
  }

  lemma FaultByKey(d: Draft, text: string, key: string, value: string, f: Fault)
    requires SplitKeyValue(text) == Success((key, value))
    ensures ApplyRuleField(d, text) == Failure(f)
       <==> FieldFault(key, Unquote(value), f)
  {
    KeysDiffer();
  }

  // ----- lines

  /** The forbidden pattern that a line is refused for, by the order in which they count. */
  predicate PatternFault(raw: string, f: Fault) {
    match f
    case TabUsed => HasTab(raw)
    case AnchorOrAlias => HasAnchor(raw) && !HasTab(raw)
    case MergeKey => HasMerge(raw) && !HasAnchor(raw) && !HasTab(raw)
    case Interpolation => HasInterpolation(raw) && !HasMerge(raw) && !HasAnchor(raw) && !HasTab(raw)
    case FlowCollection => HasFlow(raw) && !HasInterpolation(raw) && !HasMerge(raw) && !HasAnchor(raw) && !HasTab(raw)
    case _ => false
  }

  ghost predicate TopFaults(body: string, f: Fault) {
    || (f == ExpectedKeyValue && ':' !in body)
    || (f == BadVersion && exists value :: FieldIs(body, "version", value) && !IsNumeral(value))
    || (f == InlineValue("defaults") && exists value :: FieldIs(body, "defaults", value) && value != "")
    || (f == InlineValue("rules") && exists value :: FieldIs(body, "rules", value) && value != "")
    || (exists key, value ::
          FieldIs(body, key, value) && key != "version" && key != "defaults" && key != "rules"
          && f == UnknownTopLevelKey(key))
  }

  ghost predicate DefaultFaults(body: string, f: Fault) {
    || (f == ExpectedKeyValue && ':' !in body)
    || (exists value :: FieldIs(body, "effect", value) && ValueFaults(value, f))
    || (f == BadDefaultEffect && exists value, v ::
          FieldIs(body, "effect", value) && Denotes(value, v) && v != "allow" && v != "deny")
    || (exists key, value :: FieldIs(body, key, value) && key != "effect" && f == UnknownDefaultsKey(key))
  }

  /** A rule is missing, or a field stands no further in than its item, or it is a bad field. */
  ghost predicate RuleFaults(st: ParseState, indent: nat, body: string, f: Fault)
    requires body != []
  {
    if OpensItem(body) then exists rest :: Trims(body[1..], rest) && rest != "" && FieldFaults(rest, f)
    else if !st.open || st.drafts == [] then f == ExpectedListItem
    else if indent <= st.drafts[|st.drafts| - 1].indent then f == FieldNotIndented
    else FieldFaults(body, f)
  }

  ghost predicate LineFaults(st: ParseState, raw: string, f: Fault) {
    && !AllSpace(raw)
    && if HasNoPattern(raw) then exists n: nat :: IndentedBy(raw, n) && ContentFaults(st, raw, n, f)
       else PatternFault(raw, f)
  }

  ghost predicate ContentFaults(st: ParseState, raw: string, n: nat, f: Fault) {
    && n < |raw|
    && if n == 0 then TopFaults(raw, f)
       else match st.section
            case Top => f == UnexpectedIndent
            case Defaults => DefaultFaults(raw[n..], f)
            case Rules => RuleFaults(st, n, raw[n..], f)
  }

  lemma TopFaultsIff(st: ParseState, body: string, f: Fault)
    ensures TopLevelStep(st, body) == Failure(f) <==> TopFaults(body, f)
  {
    NoColonIff(body);
    if SplitKeyValue(body).Failure? {
      NoField(body);
    } else {
      var (key, value) := SplitKeyValue(body).value;
      HasColon(body, key, value);
      OneField(body, key, value);
      TopFaultByKey(st, body, key, value, f, "version", "defaults", "rules");
      TopFaultsByKey(body, key, value, f, "version", "defaults", "rules");
    }
  }

  predicate TopFault(
      key: string, value: string, f: Fault, version: string, defaults: string, rules: string)
  {
    if key == version then f == BadVersion && !IsNumeral(value)
    else if key == defaults || key == rules then f == InlineValue(key) && value != ""
    else f == UnknownTopLevelKey(key)
  }

  lemma TopFaultByKey(
      st: ParseState, body: string, key: string, value: string, f: Fault,
      version: string, defaults: string, rules: string)
    requires SplitKeyValue(body) == Success((key, value))
    requires version == "version" && defaults == "defaults" && rules == "rules"
    ensures TopLevelStep(st, body) == Failure(f) <==> TopFault(key, value, f, version, defaults, rules)
  {
    KeysDiffer();
  }

  lemma TopFaultsByKey(
      body: string, key: string, value: string, f: Fault, version: string, defaults: string, rules: string)
    requires version == "version" && defaults == "defaults" && rules == "rules" && ':' in body
    requires forall k, v :: FieldIs(body, k, v) <==> k == key && v == value
    ensures TopFaults(body, f) <==> TopFault(key, value, f, version, defaults, rules)
  {
    KeysDiffer();
    assert FieldIs(body, key, value);
  }

  lemma DefaultFaultsIff(st: ParseState, body: string, f: Fault)
    ensures DefaultsStep(st, body) == Failure(f) <==> DefaultFaults(body, f)
  {
    NoColonIff(body);
    if SplitKeyValue(body).Failure? {
      NoField(body);
    } else {
      var (key, value) := SplitKeyValue(body).value;
      HasColon(body, key, value);
      DefaultFaultByKey(st, body, key, value, f);
      OneField(body, key, value);
      DefaultFaultsByKey(body, key, value, Unquote(value), f);
    }
  }

  predicate DefaultFault(key: string, r: Result<string, Fault>, f: Fault) {
    if key != "effect" then f == UnknownDefaultsKey(key)
    else match r
         case Failure(fault) => f == fault
         case Success(v) => f == BadDefaultEffect && v != "allow" && v != "deny"
  }

  lemma DefaultFaultByKey(st: ParseState, body: string, key: string, value: string, f: Fault)
    requires SplitKeyValue(body) == Success((key, value))
    ensures DefaultsStep(st, body) == Failure(f) <==> DefaultFault(key, Unquote(value), f)
  {
  }

  lemma DefaultFaultsByKey(body: string, key: string, value: string, r: Result<string, Fault>, f: Fault)
    requires ':' in body && forall k, v :: FieldIs(body, k, v) <==> k == key && v == value
    requires forall g :: r == Failure(g) <==> ValueFaults(value, g)
    requires forall v :: r == Success(v) <==> Denotes(value, v)
    ensures DefaultFaults(body, f) <==> DefaultFault(key, r, f)
  {
    assert FieldIs(body, key, value);
    match r
    case Failure(fault) => assert ValueFaults(value, fault);
    case Success(v) => assert Denotes(value, v);
  }

  lemma RuleFaultsIff(st: ParseState, indent: nat, body: string, f: Fault)
    requires body != []
    ensures RulesStep(st, indent, body) == Failure(f) <==> RuleFaults(st, indent, body, f)
  {
    OpensItemIff(body);
    if OpensItem(body) {
      var rest := Trim(body[1..]);
      FieldFaultsIff(Draft(None, Deny, None, indent), rest, f);
      forall r ensures Trims(body[1..], r) <==> r == rest {
        TrimsIff(body[1..], r);
      }
    } else if st.drafts != [] {
      FieldFaultsIff(st.drafts[|st.drafts| - 1], body, f);
    }
  }

  lemma ContentFaultsIff(st: ParseState, raw: string, f: Fault)
    requires !AllSpace(raw) && HasNoPattern(raw)
    ensures ContentStep(st, raw) == Failure(f) <==> ContentFaults(st, raw, Indent(raw), f)
  {
    var n := Indent(raw);
    assert n < |raw| && raw[0..] == raw;
    TopFaultsIff(st, raw, f);
    DefaultFaultsIff(st, raw[n..], f);
    RuleFaultsIff(st, n, raw[n..], f);
  }

  /** The parser refuses a line in a state, and for this fault, exactly when the grammar does. */
  lemma StepFaultsIff(st: ParseState, line: string, f: Fault)
    ensures Step(st, line) == Failure(f) <==> LineFaults(st, Uncommented(line), f)
  {
    var raw := Uncommented(line);
    if !AllSpace(raw) && HasNoPattern(raw) {
      ContentFaultsIff(st, raw, f);
      IndentIff(raw, Indent(raw));
      forall k: nat ensures IndentedBy(raw, k) ==> k == Indent(raw) {
        IndentIff(raw, k);
      }
    }
  }

  // ----- texts

  /** Draft `i` has no name, or that of one before it; those before it are named, no two alike. */
  predicate DraftFaults(drafts: seq<Draft>, i: nat, f: Fault) {
    && i < |drafts|
    && (forall j | 0 <= j < i :: drafts[j].tool.Some? && drafts[j].tool != Some(""))
    && (forall j, k | 0 <= j < k < i :: drafts[j].tool != drafts[k].tool)
    && match drafts[i].tool
       case None => f == MissingTool
       case Some(tool) =>
         if tool == "" then f == MissingTool
         else f == DuplicateTool(tool) && exists j | 0 <= j < i :: drafts[j].tool == Some(tool)
  }

  /** What is missing or wrong when all lines are read. */
  predicate EndFaults(st: ParseState, f: Fault) {
    match st.version
    case None => f == MissingVersion
    case Some(version) =>
      if version == 1 then exists i | 0 <= i < |st.drafts| :: DraftFaults(st.drafts, i, f)
      else f == UnsupportedVersion(version)
  }

  /** The lines before number `k` can be read, and that one is refused for this fault. */
  ghost predicate RefusedAt(lines: seq<string>, k: nat, f: Fault) {
    && k < |lines|
    && exists states :: Reads(lines[..k], states) && LineFaults(states[k], Uncommented(lines[k]), f)
  }

  /** All lines can be read, and what they come to is refused. */
  ghost predicate RefusedAfter(lines: seq<string>, f: Fault) {
    exists states :: Reads(lines, states) && EndFaults(states[|lines|], f)
  }

  lemma FoldRefuses(lines: seq<string>, f: Fault, k: nat)
    requires Fold(Step, START, lines, 0) == Failure(Located(f, k + 1))
    ensures RefusedAt(lines, k, f)
  {
    var at, states := FoldStopsAt(Step, START, lines, [START], 0);
    ReadsIff(lines, states, at);
    StepFaultsIff(states[at], lines[at], f);
  }

  lemma RefusedStops(lines: seq<string>, f: Fault, k: nat)
    requires RefusedAt(lines, k, f)
    ensures Fold(Step, START, lines, 0) == Failure(Located(f, k + 1))
  {
    var states :| Reads(lines[..k], states) && LineFaults(states[k], Uncommented(lines[k]), f);
    ReadsIff(lines, states, k);
    StepFaultsIff(states[k], lines[k], f);
    FoldStops(Step, START, lines, states, k, 0, f);
  }

  /** A fault of a line is numbered from 1. */
  lemma FoldNumbers(lines: seq<string>)
    ensures var fold := Fold(Step, START, lines, 0); fold.Failure? ==> fold.error.line > 0
  {
    if Fold(Step, START, lines, 0).Failure? {
      var at, states := FoldStopsAt(Step, START, lines, [START], 0);
    }
  }

  predicate Collected(drafts: seq<Draft>, rules: seq<Rule>) {
    && |rules| <= |drafts|
    && (forall k | 0 <= k < |rules| :: rules[k].tool != "" && drafts[k].tool == Some(rules[k].tool))
    && forall j, k | 0 <= j < k < |rules| :: rules[j].tool != rules[k].tool
  }

  lemma {:induction false} CollectedFault(drafts: seq<Draft>, rules: seq<Rule>, f: Fault)
    requires Collected(drafts, rules)
    ensures FinishRules(drafts, rules) == Failure(f)
       <==> exists i | |rules| <= i < |drafts| :: DraftFaults(drafts, i, f)
    decreases |drafts| - |rules|
  {
    var i := |rules|;
    if i < |drafts| {
      if drafts[i].tool.Some? && drafts[i].tool.value != ""
         && forall k | 0 <= k < i :: rules[k].tool != drafts[i].tool.value {
        CollectedFault(drafts, rules + [Rule(drafts[i].tool.value, drafts[i].effect, drafts[i].credential)], f);
        assert !DraftFaults(drafts, i, f);
      } else {
        FirstFault(drafts, rules, f);
      }
    }
  }

  /** The first draft that cannot become a rule. */
  lemma FirstFault(drafts: seq<Draft>, rules: seq<Rule>, f: Fault)
    requires Collected(drafts, rules) && |rules| < |drafts|
    requires var tool := drafts[|rules|].tool;
      tool.None? || tool.value == "" || exists k | 0 <= k < |rules| :: rules[k].tool == tool.value
    ensures FinishRules(drafts, rules) == Failure(f) <==> DraftFaults(drafts, |rules|, f)
    ensures forall i | |rules| < i < |drafts| :: !DraftFaults(drafts, i, f)
  {
    var i := |rules|;
    if drafts[i].tool.Some? && drafts[i].tool.value != "" {
      var k :| 0 <= k < i && rules[k].tool == drafts[i].tool.value;
      assert drafts[k].tool == drafts[i].tool;
    }
  }

  lemma FinishFaults(st: ParseState, f: Fault)
    ensures Finish(st) == Failure(f) <==> EndFaults(st, f)
  {
    CollectedFault(st.drafts, [], f);
  }

  lemma AfterIff(lines: seq<string>, f: Fault)
    ensures var fold := Fold(Step, START, lines, 0);
      RefusedAfter(lines, f) <==> fold.Success? && EndFaults(fold.value, f)
  {
    var fold := Fold(Step, START, lines, 0);
    if fold.Success? {
      var states := FoldReads(lines);
      assert states[|lines|] == fold.value;
    }
    if RefusedAfter(lines, f) {
      var states :| Reads(lines, states) && EndFaults(states[|lines|], f);
      ReadsFold(lines, states);
    }
  }

  /**
   A text is refused for a fault on line `n` exactly when the lines before it can be read and the
   grammar refuses that line for it; and for a fault of no line, numbered 0, exactly when all lines can
   be read and what they come to has it.
   */
  lemma RefusedIff(source: string, f: Fault, n: nat)
    ensures Parse(source) == Failure(Located(f, n))
       <==> if n == 0 then RefusedAfter(SplitLines(source), f) else RefusedAt(SplitLines(source), n - 1, f)
  {
    var lines := SplitLines(source);
    var fold := Fold(Step, START, lines, 0);
    FoldNumbers(lines);
    AfterIff(lines, f);
    if fold.Success? {
      FinishFaults(fold.value, f);
    }
    if n > 0 && fold == Failure(Located(f, n)) {
      FoldRefuses(lines, f, n - 1);
    }
    if n > 0 && RefusedAt(lines, n - 1, f) {
      RefusedStops(lines, f, n - 1);
    }
  }
}
