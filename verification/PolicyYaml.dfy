/**
 The local policy format: its parser as the program runs it (methods that update a draft and
 the parser's variables line by line), and the same parser as a function from lines to a
 document, which the theorems about the format are stated on.
 */
module PolicyYaml {
  import opened Wrappers
  import opened Text
  import opened Lines

  datatype RuleEffect = Allow | Deny | RequireApproval

  datatype DefaultEffect = DefaultAllow | DefaultDeny

  datatype Rule = Rule(tool: string, effect: RuleEffect, credential: Option<string>)

  datatype Doc = Doc(version: nat, defaults: DefaultEffect, rules: seq<Rule>)

  datatype Fault =
    | EmptyValue
    | UnterminatedQuote
    | StrayQuote
    | ExpectedKeyValue
    | BadEffect
    | UnknownRuleKey(key: string)
    | TabUsed
    | AnchorOrAlias
    | MergeKey
    | Interpolation
    | FlowCollection
    | BadVersion
    | InlineValue(key: string)
    | UnknownTopLevelKey(key: string)
    | UnknownDefaultsKey(key: string)
    | BadDefaultEffect
    | ExpectedListItem
    | FieldNotIndented
    | UnexpectedIndent
    | MissingVersion
    | UnsupportedVersion(version: nat)
    | MissingTool
    | DuplicateTool(tool: string)

  type ParseError = Located<Fault>

  // ----- comments

  datatype Quoting = Unquoted | Single | Double

  /** Each kind of quote opens and closes itself and is plain text inside the other. */
  function Toggle(q: Quoting, c: char): Quoting {
    if c == '\'' && q != Double then (if q == Single then Unquoted else Single)
    else if c == '"' && q != Single then (if q == Double then Unquoted else Double)
    else q
  }

  /** The quoting state after reading `s` from state `q`. */
  function QuoteAfter(q: Quoting, s: string): Quoting
    decreases |s|
  {
    if s == [] then q else QuoteAfter(Toggle(q, s[0]), s[1..])
  }

  /** A comment starts at an unquoted '#' that opens the line or follows white space. */
  predicate CommentAt(s: string, k: nat)
    requires k < |s|
  {
    s[k] == '#' && QuoteAfter(Unquoted, s[..k]) == Unquoted && (k == 0 || IsSpace(s[k - 1]))
  }

  /** Where the comment starts, or the end of the line. */
  function CommentStart(s: string, from: nat): (n: nat)
    requires from <= |s|
    ensures from <= n <= |s|
    ensures n < |s| ==> CommentAt(s, n)
    ensures forall k | from <= k < n :: !CommentAt(s, k)
    decreases |s| - from
  {
    if from == |s| || CommentAt(s, from) then from else CommentStart(s, from + 1)
  }

  function Uncommented(s: string): string {
    s[..CommentStart(s, 0)]
  }

  /** A line the parser skips: nothing but white space and a comment. */
  predicate IsBlank(line: string) {
    AllSpace(Uncommented(line))
  }

  // ----- forbidden patterns

  /** From `i` on, white space and then a character of `stop`. */
  predicate SpacesThen(s: string, i: nat, stop: set<char>)
    requires i <= |s|
  {
    exists j | i <= j < |s| :: s[j] in stop && forall k | i <= k < j :: IsSpace(s[k])
  }

  predicate HasTab(s: string) {
    '\t' in s
  }

  predicate AnchorAt(s: string, i: nat) {
    && i + 1 < |s|
    && (i == 0 || IsSpace(s[i - 1]))
    && (s[i] == '&' || s[i] == '*')
    && !IsSpace(s[i + 1])
  }

  predicate HasAnchor(s: string) {
    exists i | 0 <= i < |s| :: AnchorAt(s, i)
  }

  predicate MergeAt(s: string, i: nat) {
    i + 1 < |s| && s[i] == '<' && s[i + 1] == '<' && SpacesThen(s, i + 2, {':'})
  }

  predicate HasMerge(s: string) {
    exists i | 0 <= i < |s| :: MergeAt(s, i)
  }

  predicate InterpolationAt(s: string, i: nat) {
    i + 1 < |s| && s[i] == '$' && s[i + 1] == '{'
  }

  predicate HasInterpolation(s: string) {
    exists i | 0 <= i < |s| :: InterpolationAt(s, i)
  }

  predicate FlowAt(s: string, i: nat) {
    i < |s| && s[i] == ':' && SpacesThen(s, i + 1, {'[', '{'})
  }

  predicate HasFlow(s: string) {
    exists i | 0 <= i < |s| :: FlowAt(s, i)
  }

  /** The first forbidden pattern found in the line, in the order the parser tests them. */
  function Forbidden(s: string): Option<Fault> {
    if HasTab(s) then Some(TabUsed)
    else if HasAnchor(s) then Some(AnchorOrAlias)
    else if HasMerge(s) then Some(MergeKey)
    else if HasInterpolation(s) then Some(Interpolation)
    else if HasFlow(s) then Some(FlowCollection)
    else None
  }

  // ----- scalars

  function Unquote(value: string): Result<string, Fault> {
    var v := Trim(value);
    if v == [] then Failure(EmptyValue)
    else if v[0] == v[|v| - 1] && (v[0] == '"' || v[0] == '\'') then
      if |v| < 2 then Failure(UnterminatedQuote) else Success(v[1..|v| - 1])
    else if '"' in v || '\'' in v then Failure(StrayQuote)
    else Success(v)
  }

  /** The number of leading spaces. */
  function Indent(s: string): (n: nat)
    ensures n <= |s| && forall k | 0 <= k < n :: s[k] == ' '
    ensures n < |s| ==> s[n] != ' '
  {
    if s == [] || s[0] != ' ' then 0 else 1 + Indent(s[1..])
  }

  function SplitKeyValue(body: string): Result<(string, string), Fault> {
    var n := IndexOf(body, ':');
    if n == |body| then Failure(ExpectedKeyValue) else Success((Trim(body[..n]), Trim(body[n + 1..])))
  }

  predicate IsNumeral(s: string) {
    s != [] && forall i | 0 <= i < |s| :: '0' <= s[i] <= '9'
  }

  function NumeralValue(s: string): nat
    requires IsNumeral(s)
  {
    var digit := s[|s| - 1] as int - '0' as int;
    if |s| == 1 then digit else 10 * NumeralValue(s[..|s| - 1]) + digit
  }

  function EffectOf(v: string): Option<RuleEffect> {
    if v == "allow" then Some(Allow)
    else if v == "deny" then Some(Deny)
    else if v == "require_approval" then Some(RequireApproval)
    else None
  }

  // ----- one line at a time

  /** A rule under construction, with the indent of its list item. */
  datatype Draft = Draft(tool: Option<string>, effect: RuleEffect, credential: Option<string>, indent: nat)

  datatype Section = Top | Defaults | Rules

  /** The parser's variables. `open` says that the last draft is the current rule. */
  datatype ParseState = ParseState(
    version: Option<nat>,
    defaults: Option<DefaultEffect>,
    drafts: seq<Draft>,
    section: Section,
    open: bool)

  const START := ParseState(None, None, [], Top, false)

  function ApplyRuleField(d: Draft, body: string): Result<Draft, Fault> {
    var (key, value) :- SplitKeyValue(body);
    var v :- Unquote(value);
    if key == "tool" then Success(d.(tool := Some(v)))
    else if key == "effect" then
      match EffectOf(v)
      case None => Failure(BadEffect)
      case Some(e) => Success(d.(effect := e))
    else if key == "credential" then Success(d.(credential := Some(v)))
    else Failure(UnknownRuleKey(key))
  }

  function TopLevelStep(st: ParseState, body: string): Result<ParseState, Fault> {
    var (key, value) :- SplitKeyValue(body);
    if key == "version" then
      if !IsNumeral(value) then Failure(BadVersion)
      else Success(st.(version := Some(NumeralValue(value)), section := Top, open := false))
    else if key == "defaults" then
      if value != [] then Failure(InlineValue(key)) else Success(st.(section := Defaults, open := false))
    else if key == "rules" then
      if value != [] then Failure(InlineValue(key)) else Success(st.(section := Rules, open := false))
    else Failure(UnknownTopLevelKey(key))
  }

  function DefaultsStep(st: ParseState, body: string): Result<ParseState, Fault> {
    var (key, value) :- SplitKeyValue(body);
    if key != "effect" then Failure(UnknownDefaultsKey(key))
    else
      var v :- Unquote(value);
      if v == "allow" then Success(st.(defaults := Some(DefaultAllow)))
      else if v == "deny" then Success(st.(defaults := Some(DefaultDeny)))
      else Failure(BadDefaultEffect)
  }

  predicate IsListItem(body: string) {
    body == "-" || "- " <= body
  }

  function NewRule(st: ParseState, indent: nat, body: string): Result<ParseState, Fault>
    requires body != []
  {
    var item := Draft(None, Deny, None, indent);
    var after := Trim(body[1..]);
    var d :- if after == [] then Success(item) else ApplyRuleField(item, after);
    Success(st.(drafts := st.drafts + [d], open := true))
  }

  function RulesStep(st: ParseState, indent: nat, body: string): Result<ParseState, Fault> {
    if IsListItem(body) then NewRule(st, indent, body)
    else if !st.open || st.drafts == [] then Failure(ExpectedListItem)
    else
      var last := |st.drafts| - 1;
      if indent <= st.drafts[last].indent then Failure(FieldNotIndented)
      else
        var d :- ApplyRuleField(st.drafts[last], body);
        Success(st.(drafts := st.drafts[last := d]))
  }

  /** What one line, its comment already gone, does to the parser's variables. */
  function ContentStep(st: ParseState, raw: string): Result<ParseState, Fault> {
    if AllSpace(raw) then Success(st)
    else
      match Forbidden(raw)
      case Some(fault) => Failure(fault)
      case None =>
        var indent := Indent(raw);
        var body := raw[indent..];
        if indent == 0 then TopLevelStep(st, body)
        else
          match st.section
          case Defaults => DefaultsStep(st, body)
          case Rules => RulesStep(st, indent, body)
          case Top => Failure(UnexpectedIndent)
  }

  function Step(st: ParseState, line: string): Result<ParseState, Fault> {
    ContentStep(st, Uncommented(line))
  }

  // ----- the document

  /** The drafts from number `i` on become rules appended to `rules`; `rules` hold the tools seen. */
  function FinishRules(drafts: seq<Draft>, rules: seq<Rule>): Result<seq<Rule>, Fault>
    requires |rules| <= |drafts|
    decreases |drafts| - |rules|
  {
    var i := |rules|;
    if i == |drafts| then Success(rules)
    else
      match drafts[i].tool
      case None => Failure(MissingTool)
      case Some(tool) =>
        if tool == [] then Failure(MissingTool)
        else if exists k | 0 <= k < i :: rules[k].tool == tool then Failure(DuplicateTool(tool))
        else FinishRules(drafts, rules + [Rule(tool, drafts[i].effect, drafts[i].credential)])
  }

  function Finish(st: ParseState): Result<Doc, Fault> {
    match st.version
    case None => Failure(MissingVersion)
    case Some(version) =>
      if version != 1 then Failure(UnsupportedVersion(version))
      else
        var rules :- FinishRules(st.drafts, []);
        Success(Doc(version, if st.defaults.Some? then st.defaults.value else DefaultDeny, rules))
  }

  function ParseLines(lines: seq<string>): Result<Doc, ParseError> {
    Concluded(Fold(Step, START, lines, 0))
  }

  /** The checks after the last line. */
  function Concluded(read: Result<ParseState, ParseError>): Result<Doc, ParseError> {
    var st :- read;
    match Finish(st)
    case Failure(fault) => Failure(Located(fault, 0))
    case Success(doc) => Success(doc)
  }

  function Parse(source: string): Result<Doc, ParseError> {
    ParseLines(SplitLines(source))
  }

  // ----- the program's parser

  class DraftRule {
    var tool: Option<string>
    var effect: RuleEffect
    var credential: Option<string>
    const indent: nat

    constructor (indent: nat)
      ensures Value() == Draft(None, Deny, None, indent)
    {
      this.indent := indent;
      tool, effect, credential := None, Deny, None;
    }

    function Value(): Draft
      reads this
    {
      Draft(tool, effect, credential, indent)
    }

    /** Writes the one field that `body` names, or reports a fault and writes nothing. */
    method ApplyField(body: string) returns (fault: Option<Fault>)
      modifies this
      ensures var result := ApplyRuleField(old(Value()), body);
              if result.Success? then fault == None && Value() == result.value
              else fault == Some(result.error) && Value() == old(Value())
    {
      var kv := SplitKeyValue(body);
      if kv.Failure? {
        return Some(kv.error);
      }
      var (key, value) := kv.value;
      var v := Unquote(value);
      if v.Failure? {
        return Some(v.error);
      }
      if key == "tool" {
        tool := Some(v.value);
      } else if key == "effect" {
        var e := EffectOf(v.value);
        if e.None? {
          return Some(BadEffect);
        }
        effect := e.value;
      } else if key == "credential" {
        credential := Some(v.value);
      } else {
        return Some(UnknownRuleKey(key));
      }
      return None;
    }
  }

  /** The line up to its first unquoted comment, found with two flags in one pass. */
  method StripComment(raw: string) returns (r: string)
    ensures r <= raw
    ensures |r| < |raw| ==> CommentAt(raw, |r|)
    ensures forall k | 0 <= k < |r| :: !CommentAt(raw, k)
    ensures r == Uncommented(raw)
  {
    var inSingle, inDouble := false, false;
    var i := 0;
    while i < |raw|
      invariant i <= |raw|
      invariant !(inSingle && inDouble)
      invariant QuoteAfter(Unquoted, raw[..i]) == if inSingle then Single else if inDouble then Double else Unquoted
      invariant forall k | 0 <= k < i :: !CommentAt(raw, k)
    {
      QuoteAfterOne(Unquoted, raw[..i], raw[i]);
      assert raw[..i + 1] == raw[..i] + [raw[i]];
      var c := raw[i];
      if c == '\'' && !inDouble {
        inSingle := !inSingle;
      } else if c == '"' && !inSingle {
        inDouble := !inDouble;
      } else if c == '#' && !inSingle && !inDouble {
        if i == 0 || IsSpace(raw[i - 1]) {
          assert CommentAt(raw, i) && CommentStart(raw, 0) == i;
          return raw[..i];
        }
      }
      i := i + 1;
    }
    assert raw == raw[..|raw|];
    return raw;
  }

  lemma {:induction false} QuoteAfterAppend(q: Quoting, a: string, b: string)
    ensures QuoteAfter(q, a + b) == QuoteAfter(QuoteAfter(q, a), b)
    decreases |a|
  {
    if a == [] {
      assert a + b == b;
    } else {
      assert (a + b)[1..] == a[1..] + b;
      QuoteAfterAppend(Toggle(q, a[0]), a[1..], b);
    }
  }

  lemma QuoteAfterOne(q: Quoting, a: string, c: char)
    ensures QuoteAfter(q, a + [c]) == Toggle(QuoteAfter(q, a), c)
  {
    QuoteAfterAppend(q, a, [c]);
  }

  method IndentOf(raw: string) returns (n: nat)
    ensures n == Indent(raw)
  {
    n := 0;
    while n < |raw| && raw[n] == ' '
      invariant n <= |raw|
      invariant Indent(raw) == n + Indent(raw[n..])
    {
      n := n + 1;
    }
  }

  function Values(drafts: seq<DraftRule>): seq<Draft>
    reads drafts
  {
    seq(|drafts|, i requires 0 <= i < |drafts| reads drafts => drafts[i].Value())
  }

  /** The variables of one parser run. Faults stand for the exception that ends the run. */
  class Parser {
    var version: Option<nat>
    var defaults: Option<DefaultEffect>
    var drafts: seq<DraftRule>
    var section: Section
    var current: DraftRule?

    /** Every draft is an object of its own, and the current rule is the last of them. */
    ghost predicate Valid()
      reads this
    {
      && (forall i, j | 0 <= i < j < |drafts| :: drafts[i] != drafts[j])
      && (current != null ==> drafts != [] && current == drafts[|drafts| - 1])
    }

    function State(): ParseState
      reads this, drafts
    {
      ParseState(version, defaults, Values(drafts), section, current != null)
    }

    constructor ()
      ensures Valid() && State() == START && drafts == []
    {
      version, defaults, drafts, section, current := None, None, [], Top, null;
    }

    method TopLevelLine(body: string) returns (fault: Option<Fault>)
      requires Valid()
      modifies this
      ensures Valid() && drafts == old(drafts)
      ensures var result := TopLevelStep(old(State()), body);
              if result.Success? then fault == None && State() == result.value else fault == Some(result.error)
    {
      current := null;
      var kv := SplitKeyValue(body);
      if kv.Failure? {
        return Some(kv.error);
      }
      var (key, value) := kv.value;
      if key == "version" {
        if !IsNumeral(value) {
          return Some(BadVersion);
        }
        version, section := Some(NumeralValue(value)), Top;
      } else if key == "defaults" {
        if value != [] {
          return Some(InlineValue(key));
        }
        section := Defaults;
      } else if key == "rules" {
        if value != [] {
          return Some(InlineValue(key));
        }
        section := Rules;
      } else {
        return Some(UnknownTopLevelKey(key));
      }
      return None;
    }

    method DefaultsLine(body: string) returns (fault: Option<Fault>)
      requires Valid()
      modifies this`defaults
      ensures Valid()
      ensures var result := DefaultsStep(old(State()), body);
              if result.Success? then fault == None && State() == result.value else fault == Some(result.error)
    {
      var kv := SplitKeyValue(body);
      if kv.Failure? {
        return Some(kv.error);
      }
      var (key, value) := kv.value;
      if key != "effect" {
        return Some(UnknownDefaultsKey(key));
      }
      var v := Unquote(value);
      if v.Failure? {
        return Some(v.error);
      }
      if v.value != "allow" && v.value != "deny" {
        return Some(BadDefaultEffect);
      }
      defaults := Some(if v.value == "allow" then DefaultAllow else DefaultDeny);
      return None;
    }

    /** A new rule, and the field that may stand on the same line. */
    method ListItem(indent: nat, body: string) returns (fault: Option<Fault>)
      requires Valid() && body != []
      modifies this`drafts, this`current
      ensures Valid() && (forall d | d in drafts :: d in old(drafts) || fresh(d))
      ensures var result := NewRule(old(State()), indent, body);
              if result.Success? then fault == None && State() == result.value else fault == Some(result.error)
    {
      ghost var before := Values(drafts);
      current := new DraftRule(indent);
      drafts := drafts + [current];
      var after := Trim(body[1..]);
      if after != [] {
        fault := current.ApplyField(after);
        if fault.Some? {
          return;
        }
      }
      assert Values(drafts) == before + [current.Value()];
      return None;
    }

    method RulesLine(indent: nat, body: string) returns (fault: Option<Fault>)
      requires Valid()
      modifies this, drafts
      ensures Valid() && (forall d | d in drafts :: d in old(drafts) || fresh(d))
      ensures var result := RulesStep(old(State()), indent, body);
              if result.Success? then fault == None && State() == result.value else fault == Some(result.error)
    {
      ghost var before := Values(drafts);
      if IsListItem(body) {
        fault := ListItem(indent, body);
        return;
      }
      if current == null {
        return Some(ExpectedListItem);
      }
      if indent <= current.indent {
        return Some(FieldNotIndented);
      }
      fault := current.ApplyField(body);
      assert Values(drafts) == before[|drafts| - 1 := current.Value()];
    }

    /** One line of the file. */
    method Line(line: string) returns (fault: Option<Fault>)
      requires Valid()
      modifies this, drafts
      ensures Valid() && (forall d | d in drafts :: d in old(drafts) || fresh(d))
      ensures var result := Step(old(State()), line);
              if result.Success? then fault == None && State() == result.value else fault == Some(result.error)
    {
      var raw := StripComment(line);
      if AllSpace(raw) {
        return None;
      }
      var forbidden := Forbidden(raw);
      if forbidden.Some? {
        return forbidden;
      }
      var indent := IndentOf(raw);
      var body := raw[indent..];
      if indent == 0 {
        fault := TopLevelLine(body);
      } else if section == Defaults {
        fault := DefaultsLine(body);
      } else if section == Rules {
        fault := RulesLine(indent, body);
      } else {
        return Some(UnexpectedIndent);
      }
    }

    /** The rules of a finished run, in order, none without a tool and no tool twice. */
    method Collect() returns (r: Result<seq<Rule>, Fault>)
      ensures r == FinishRules(Values(drafts), [])
    {
      var rules: seq<Rule> := [];
      var seen: set<string> := {};
      while |rules| < |drafts|
        invariant |rules| <= |drafts|
        invariant forall tool :: tool in seen <==> exists k | 0 <= k < |rules| :: rules[k].tool == tool
        invariant FinishRules(Values(drafts), []) == FinishRules(Values(drafts), rules)
      {
        var d := drafts[|rules|];
        assert Values(drafts)[|rules|] == d.Value();
        if d.tool.None? || d.tool.value == [] {
          return Failure(MissingTool);
        }
        if d.tool.value in seen {
          return Failure(DuplicateTool(d.tool.value));
        }
        seen := seen + {d.tool.value};
        ghost var before := rules;
        rules := rules + [Rule(d.tool.value, d.effect, d.credential)];
        assert forall k | 0 <= k < |before| :: rules[k] == before[k];
        assert rules[|before|].tool == d.tool.value;
      }
      return Success(rules);
    }
  }

  /** All lines in order; stops at the first fault. */
  method ReadLines(parser: Parser, lines: seq<string>) returns (error: Option<ParseError>)
    requires parser.Valid()
    modifies parser, parser.drafts
    ensures parser.Valid()
    ensures var result := Fold(Step, old(parser.State()), lines, 0);
            if result.Success? then error == None && parser.State() == result.value
            else error == Some(result.error)
  {
    for i := 0 to |lines|
      invariant parser.Valid() && forall d | d in parser.drafts :: d in old(parser.drafts) || fresh(d)
      invariant Fold(Step, old(parser.State()), lines, 0) == Fold(Step, parser.State(), lines, i)
    {
      assert forall k | 0 <= k < |parser.drafts| :: parser.drafts[k] in old(parser.drafts) || fresh(parser.drafts[k]);
      var fault := parser.Line(lines[i]);
      if fault.Some? {
        return Some(Located(fault.value, i + 1));
      }
    }
    return None;
  }

  method ParsePolicy(source: string) returns (r: Result<Doc, ParseError>)
    ensures r == Parse(source)
  {
    var parser := new Parser();
    var error := ReadLines(parser, SplitLines(source));
    if error.Some? {
      return Failure(error.value);
    }
    if parser.version.None? {
      return Failure(Located(MissingVersion, 0));
    }
    var version := parser.version.value;
    if version != 1 {
      return Failure(Located(UnsupportedVersion(version), 0));
    }
    var rules := parser.Collect();
    if rules.Failure? {
      return Failure(Located(rules.error, 0));
    }
    r := Success(Doc(version, if parser.defaults.Some? then parser.defaults.value else DefaultDeny, rules.value));
  }
}
