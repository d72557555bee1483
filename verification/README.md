# AgentValet broker, waits and text files: a verified model

This project models the parts of the AgentValet packages that decide whether a tool call may run,
that wait for an owner to decide, and that edit the user's files in place. It proves what those
parts are for. Everything is Dafny; `dafny verify dfyconfig.toml` checks it all.

**From policy text to the handler.** `PolicyYaml` holds the parser of the local policy format as the
program runs it (a class whose methods take one line after the other, updating the section, the
current rule and the drafts) and, beside it, the same parser as a function from lines to a document.
`PolicyLaws`, `PolicyValues` and `PolicyRoundTrip` prove what is accepted, which values a text can
hold, and that writing and reading are inverse on all documents that any text stands for.
`PolicyGrammar` tells the format by characters alone and proves that the parser accepts exactly its
texts, `PolicyFaults` that it refuses the others for the fault and on the line that the grammar
names, and `PolicyDefaults` that nothing unlisted is allowed unless a text says so. `Kernel` is the
evaluator with its loops and early exits; `KernelLaws` proves its declarative meaning, its
monotonicity and what its trace tells, `KernelTargets` what targets and roles name. `FileSource`
compiles a document for the kernel, caches it, and proves that compiling and evaluating say what the
document says. `Pipeline` runs one call through identity, policy, approval, credential, handler,
redaction and audit. Every dependency is a function of the whole log so far to a result or a
failure, so it may keep any state and do anything. `PipelineLaws` proves the order, the audit and
the credential laws, `PipelineTable` that a run is the row of a table that the answers of the
dependencies choose, and `Enforcement` joins it all: over any number of calls and any changes of the
file, from the text that was loaded first to whether the handler runs.

**Canonical argument text.** `CanonicalGraph` is the printer on a graph of objects and arrays with
sharing and cycles and with the mutable set of objects it is inside of. `Canonical` is the printer
on finite trees, in UTF-16 code units, with keys in the order of those units. `CanonicalDecoder`
inverts it, which gives that two values have the same text exactly when they are the same value;
`JsonMeaning` says so of values in two graphs that are JSON, and what the text of every other kind
of value is read back as, and `CanonicalForm` has the escapes, the order of keys and the marks.
`ArgumentCycles` tells from its references which value the printer ends on, and `Fingerprint` ties
that to the pipeline, which computes the fingerprint of a call's arguments outside of any `try`.

**Waiting for the owner.** `LongPoll` has the loops of the TypeScript client, the MCP server and the
Python client; `HostedApproval` the polling of the hosted provider; `CliApproval` the race between
answer and timer at a terminal; `EventStream` and `RegistrationWait` the reading of server-sent
events and the polling that follows it (`Polling` is what the two polls have in common);
`RevocationWait` the reconnecting waiter as a state machine over stream events and timers.
`LongPollLaws`, `RegistrationLaws` and `RevocationLaws` tell the outcome of each by what was
received: codes, fields and lines, and how long it takes. Time is a natural number of milliseconds;
replies, durations and the order of events are arbitrary.

**Text kept in the user's files.** `Blocks` and `BlockLaws` are the marker-delimited block in a
document, with the exact meaning of `$` in the replacement text; `EnvFile` and `EnvLaws` are the
file of keys.

`Wrappers`, `Sequences`, `Text` and `Lines` hold what the others share.

## Where the code does less than it says

Each of these is kept as the code has it, with a lemma that says exactly when the promise holds.

- The header of `packages/mcp-broker/src/pipeline.ts` says that every terminating outcome emits one
  audit event. Three exceptions leave a run without any: that of the identity resolver, that of the
  fingerprint of the arguments, and, after the handler was called, that of the redaction hook
  (`AuditedOnce`, `AuditedUnlessCyclic`; `SelfHoldingArrayIsNotAudited` and `UnauditedCallExists` are
  such runs).
- `packages/mcp-broker/src/fingerprint.ts` says that the fingerprint can never crash a call. On
  arguments whose references lead to a cycle made of arrays only the recursion does not end
  (`EndsIffNoCycleInReach`, `SelfHoldingArrayDoesNotEnd`).
- The kernel tests the id of the guardrail that asks for approval for truth, so an empty id lets the
  call through (`DecisionIsDeclared`, `OrderMattersIffDropped`, `AddGuardrail`;
  `OrderMattersForEmptyIds` and `GuardrailRaises` are such inputs).
- A block is written with `String.replace`, so a content with `$$`, `$&`, `` $` `` or `$'` is not
  written as it is where it replaces a block; where the block is appended it is
  (`VerbatimIffNoPatterns`, `EmbeddedIn`, `PatternIsExpanded`). A content with an end marker is not
  replaced whole by the next (`LastWriteWins`, `LastWriteWinsIffNoPatterns`).
- The MCP server looks at a result before it looks at an execution error, the two clients after. The
  Python client takes statuses of 100 to 399 for success, and reads results without a number for a
  status, and bodies without fields, in its own way; it waits on where a body is lost, which ends the
  other two, and it does not wait on where a token cannot be signed, as the other two do
  (`ClientAndServerAgree`, `ClientAndPythonAgree`, `ThreeWaitsAgree`; `RepliesReadApart` are such
  replies).
- A value that ends in `&` or `*` behind a blank is taken for an anchor when it is quoted, and is not
  when it stands bare at the end of its line (`BareOnly`). So quoting is not always possible;
  `RoundTrip` writes such a value bare.

## Model

| member | source | states |
|---|---|---|
| PolicyYaml.ParsePolicy | packages/mcp-broker/src/policy/yaml.ts:121-215 | The line-by-line parser with its mutable section, current rule and drafts gives, for every text, the document or the fault and line that reading the lines one by one gives |
| PolicyYaml.ReadLines | packages/mcp-broker/src/policy/yaml.ts:133-192 | The loop over the lines leaves the parser in the state that folding the lines leads to, or stops at the first faulty line and reports its number |
| PolicyYaml.Parser.Line | packages/mcp-broker/src/policy/yaml.ts:135-191 | One line takes the parser from its old state to the state the line calls for, with the drafts it has shared with nobody; a faulty line is reported |
| PolicyYaml.Parser.RulesLine | packages/mcp-broker/src/policy/yaml.ts:173-189 | A line under `rules:` opens a new draft or writes one field of the last one, and no other draft changes |
| PolicyYaml.Parser.Collect | packages/mcp-broker/src/policy/yaml.ts:199-208 | The final loop with its set of seen names gives the rules in order, or the fault of the first draft without a tool or with a repeated one |
| PolicyYaml.DraftRule.ApplyField | packages/mcp-broker/src/policy/yaml.ts:104-119 | A field line changes its own field and nothing else; a bad one changes nothing |
| PolicyYaml.StripComment | packages/mcp-broker/src/policy/yaml.ts:58-70 | The result is the longest prefix without a comment start: a `#` outside both kinds of quote that opens the line or follows white space |
| PolicyLaws.AcceptedIsWellFormed | packages/mcp-broker/src/policy/yaml.ts:194-214 | Every accepted text has version 1 and distinct, non-empty tool names |
| PolicyLaws.BlankLineBetween | packages/mcp-broker/src/policy/yaml.ts:133-136 | A blank or comment-only line inserted anywhere between two lines leaves the document as it is, and a fault is the same fault, one line further down if it comes later |
| PolicyLaws.BlankLineFirst | packages/mcp-broker/src/policy/yaml.ts:133-136 | The same for a blank or comment line put before the first line |
| PolicyLaws.BlankLineLast | packages/mcp-broker/src/policy/yaml.ts:133-136 | The same for one put behind the last line |
| PolicyLaws.CarriageReturns | packages/mcp-broker/src/policy/yaml.ts:123 | Writing the line breaks as CR LF changes neither the document nor the line of a fault |
| PolicyRoundTrip.RoundTrip | packages/mcp-broker/src/policy/yaml.ts:11-21 | Rendering a document in the documented grammar and parsing it gives the document back if and only if it has version 1, distinct non-empty tools, and values that can be quoted or stand bare |
| PolicyRoundTrip.RangeOfParse | packages/mcp-broker/src/policy/yaml.ts:121-215 | A document is what some text parses to if and only if it is such a document |
| PolicyValues.AcceptedIsReadable | packages/mcp-broker/src/policy/yaml.ts:57-119 | Every tool and credential of an accepted text can be quoted without opening a comment or holding a forbidden pattern, or else stands bare without either |
| PolicyValues.ValueIsReadable | packages/mcp-broker/src/policy/yaml.ts:57-95 | So can what stands behind the colon of one accepted line |
| PolicyValues.CommentShifts | packages/mcp-broker/src/policy/yaml.ts:57-70 | Whether a line with a value is cut at a comment depends only on the value, quotes inside it included |
| PolicyValues.OneKindOfQuote | packages/mcp-broker/src/policy/yaml.ts:57-70 | In a scalar whose value lacks one kind of quote no `#` opens a comment |
| PolicyValues.BothQuotes | packages/mcp-broker/src/policy/yaml.ts:72-83 | A value with both kinds of quote that can be quoted and read back |
| PolicyValues.BareOnly | packages/mcp-broker/src/policy/yaml.ts:49 | A value that can stand bare and not between quotes |
| PolicyValues.ForbiddenShifts | packages/mcp-broker/src/policy/yaml.ts:47-53 | Whether a line with a value is refused, and for which pattern, depends only on the value |
| PolicyGrammar.FieldIff | packages/mcp-broker/src/policy/yaml.ts:91-95 | A text is a key and a value exactly when these are what stands before and behind its first colon, each without the white space at its ends |
| PolicyGrammar.DenotesIff | packages/mcp-broker/src/policy/yaml.ts:72-83 | A value stands for a text exactly when it is that text between two quotes of one kind, or is that text, not empty and without a quote |
| PolicyGrammar.FieldDoesIff | packages/mcp-broker/src/policy/yaml.ts:104-119 | A field changes a rule exactly as its key says: the tool, the credential, or one of the three effects by its name |
| PolicyGrammar.VersionOneIff | packages/mcp-broker/src/policy/yaml.ts:148-152 | A numeral is the one supported version exactly when it is a one behind any number of zeros |
| PolicyGrammar.HashOpensComment | packages/mcp-broker/src/policy/yaml.ts:57-70 | Behind text without quotes a `#` opens a comment exactly at the start of the line or behind white space |
| PolicyGrammar.HashBehindQuotes | packages/mcp-broker/src/policy/yaml.ts:57-70 | A closed quotation, whatever it holds, does not keep a later `#` from opening a comment |
| PolicyGrammar.StepIff | packages/mcp-broker/src/policy/yaml.ts:133-191 | The parser takes a line from one state to another exactly when the line grammar does, which is told by indents, keys, values and sections without the functions of the parser |
| PolicyGrammar.ParseIff | packages/mcp-broker/src/policy/yaml.ts:121-215 | A text is accepted as a document exactly when the grammar says that it stands for it: its lines read one by one, version 1, named and distinct rules, each denying unless a field says otherwise, and a default that denies unless it was set |
| PolicyFaults.StepFaultsIff | packages/mcp-broker/src/policy/yaml.ts:133-191 | A line is refused in a state, and for which fault, exactly when the grammar refuses it for that |
| PolicyFaults.RefusedIff | packages/mcp-broker/src/policy/yaml.ts:121-214 | A text is refused for a fault on line n exactly when the lines before n can be read and the grammar refuses that line for it; for a fault without a line exactly when all lines can be read and the version or the first unnamed or repeated rule has it |
| PolicyDefaults.AllowsOnlyIfSaid | packages/mcp-broker/src/policy/yaml.ts:164-212 | An accepted text allows what it does not list exactly when a line of a `defaults:` section is an effect that allows and no later such line denies; any other accepted text denies, one without such a section included |
| Kernel.EvaluatePolicyWithTrace | packages/mcp-broker/src/_evaluator.ts:141-264 | The five loops with their early exits give the verdict and event list that the first matching guardrail and rules determine |
| Kernel.PolicyPart | packages/mcp-broker/src/_evaluator.ts:193-263 | The policy's three loops and the combination of the approval signals give the verdict and events of the first matches, after the events before them |
| KernelLaws.DecisionIsDeclared | packages/mcp-broker/src/_evaluator.ts:159-263 | The decision is the declarative one (deny if an applicable deny guardrail matches, there is no policy, no allow rule matches or a deny rule does; else approval if any approval target matches; else allow) if and only if no matched approval guardrail is dropped for its empty id; a dropped one turns approval into allow |
| KernelLaws.NamedGuardrailsCount | packages/mcp-broker/src/_evaluator.ts:247-253 | With non-empty guardrail ids the decision is always the declarative one |
| KernelTargets.OneRuleDecides | packages/mcp-broker/src/_evaluator.ts:125-139 | One rule lets a request through exactly when it allows and its target names the platform, one of the tags, or the scope behind the platform and a colon |
| KernelTargets.OnlyOwnGuardrailsCount | packages/mcp-broker/src/_evaluator.ts:159-191 | The verdict is that on the guardrails for everyone and for the caller's role, taken as guardrails for everyone |
| KernelTargets.VerdictNamesPolicy | packages/mcp-broker/src/_evaluator.ts:193-263 | A verdict of the policy names its id and version, and each verdict comes only from what it names |
| KernelLaws.OrderMattersIffDropped | packages/mcp-broker/src/_evaluator.ts:159-253 | Permuting guardrails, rules and approval rules keeps the decision if and only if an approval guardrail is dropped for its empty id in both orders or in neither |
| KernelLaws.OrderDoesNotMatter | packages/mcp-broker/src/_evaluator.ts:159-243 | So with non-empty guardrail ids no permutation changes the decision |
| KernelLaws.OrderMattersForEmptyIds | packages/mcp-broker/src/_evaluator.ts:247 | With an empty id it can: two guardrails exchanged decide differently |
| KernelLaws.AddGuardrail | packages/mcp-broker/src/_evaluator.ts:159-253 | A guardrail inserted anywhere raises the decision if and only if it matches and asks for approval with an empty id, stands before the first that did, which has an id, and nothing else asks for approval of a request that nothing denies |
| KernelLaws.GuardrailRaises | packages/mcp-broker/src/_evaluator.ts:247 | There is such an input: a second guardrail that asks for approval turns approval into allow |
| KernelLaws.AddRule | packages/mcp-broker/src/_evaluator.ts:200-229 | A deny rule inserted anywhere never raises the decision; an allow rule never lowers it |
| KernelLaws.AddApprovalRule | packages/mcp-broker/src/_evaluator.ts:231-243 | An approval rule inserted anywhere never raises the decision |
| KernelLaws.TraceExplains | packages/mcp-broker/src/_evaluator.ts:141-264 | Decision, reason and guardrail or policy id can be read off the event list alone, without the input |
| KernelLaws.TraceIsTrue | packages/mcp-broker/src/_evaluator.ts:159-243 | Every event is true of the input: a match event names the first matching element of its kind, and a no-allow event carries the number of allow rules |
| KernelLaws.SkipEventsInOrder | packages/mcp-broker/src/_evaluator.ts:160-164 | The role-skip events are, in order and once each, exactly the role-excluded guardrails before the first applicable deny |
| KernelLaws.TraceIsComplete | packages/mcp-broker/src/_evaluator.ts:159-243 | After the skips the trace has one event for each stage that the input calls for, in the order of evaluation, and none else |
| FileSource.ToEvaluationInput | packages/mcp-broker/src/policy/file-source.ts:27-59 | The loop that pushes onto two arrays compiles each rule to its kernel rule and each approval rule to its target, in order, with the catch-all last |
| FileSource.VerdictNamesDocument | packages/mcp-broker/src/policy/file-source.ts:53-59 | The kernel is asked about a member without tags or guardrails, and its verdict names the local policy and the version of the document |
| FileSource.DecisionSays | packages/mcp-broker/src/policy/file-source.ts:27-97 | Compiling a well-formed document, running the kernel and translating its verdict is a plain lookup: the effect of the one rule for the tool or the default, and that rule's credential as the only obligation unless it denies |
| FileSource.TextToDecision | packages/mcp-broker/src/policy/file-source.ts:74-97 | The same from the text: for every text that is accepted and every request |
| FileSource.StrictestRuleDecides | packages/mcp-broker/src/policy/file-source.ts:32-97 | For any document, repeated tools included, the strictest rule for the tool decides, else the default, while the credential is that of the tool's first rule |
| FileSource.SaysIffRulesAgree | packages/mcp-broker/src/policy/file-source.ts:27-97 | Compile and evaluate say what the document says if and only if it has version 1 and its rules for the tool agree in effect and owed credential |
| FileSource.DuplicatesAreMixed | packages/mcp-broker/src/policy/yaml.ts:203 | Without the parser's check for repeated tools a decision could mix two rules: the effect of one with the credential of the other |
| FileSource.FilePolicySource.Load | packages/mcp-broker/src/policy/file-source.ts:74-79 | A cached document is returned whatever the file is now; a failed load leaves nothing cached |
| FileSource.FilePolicySource.Evaluate | packages/mcp-broker/src/policy/file-source.ts:81-98 | One call answers from the cached document or the file, and leaves the cache as the run of calls goes on from |
| FileSource.RunAnswersFirstText | packages/mcp-broker/src/policy/file-source.ts:67-98 | Over any run of calls and any changes of the file: before the first load that succeeds each call fails with its own reason; from then on each answers what that first text says of its tool |
| Canonical.SortedIsKeyOrder | packages/mcp-broker/src/fingerprint.ts:26 | Sorting any listing of a key set gives the one ascending list of those keys by UTF-16 code units |
| CanonicalDecoder.PrintDecodes | packages/mcp-broker/src/fingerprint.ts:11-32 | The text of a plain JSON value decodes to that value, with nothing left over |
| CanonicalDecoder.TreeComesBack | packages/mcp-broker/src/fingerprint.ts:11-32 | The same in front of any text that cannot go on a numeral: the printer is uniquely readable |
| CanonicalDecoder.StringComesBack | packages/mcp-broker/src/fingerprint.ts:16 | Escaping loses nothing: every sequence of code units, lone surrogates included, is read back up to its closing quote |
| CanonicalDecoder.PlainTextIsInjective | packages/mcp-broker/src/fingerprint.ts:11-32 | Two plain JSON values have equal canonical text exactly when they are equal with object keys unordered |
| CanonicalDecoder.SameTextIffSameValue | packages/mcp-broker/src/fingerprint.ts:14-30 | For all values: the texts are equal exactly when the values are, once bigints, non-finite numbers and the other sentinels are read as the strings they print like |
| JsonMeaning.SameTextIffSameJson | packages/mcp-broker/src/fingerprint.ts:11-32 | Two values that are JSON, each in its own graph, have the same canonical text exactly when they are the same JSON: the same booleans, numbers and strings, arrays by item, objects by key |
| JsonMeaning.LeavesReadAs | packages/mcp-broker/src/fingerprint.ts:12-16 | The text of null, of a boolean, of a number and of a string is read back as that value |
| JsonMeaning.OthersReadAs | packages/mcp-broker/src/fingerprint.ts:14-18 | Undefined values, functions and symbols are read back as the unserializable sentinel, non-finite numbers as theirs, bigints as their digits and an n |
| JsonMeaning.CircularReadsAs | packages/mcp-broker/src/fingerprint.ts:23 | An object inside itself is read back as the circular sentinel |
| CanonicalForm.EscapeForms | packages/mcp-broker/src/fingerprint.ts:16 | A code unit is written as two characters if it has a short escape, as six if it is another control character or a lone surrogate, and else as itself |
| CanonicalForm.ShortEscapes | packages/mcp-broker/src/fingerprint.ts:16 | The seven escapes of two characters |
| CanonicalForm.LongEscapes | packages/mcp-broker/src/fingerprint.ts:16 | The four digits of a long escape are the code unit in hexadecimal, its letters small |
| CanonicalForm.EscapedIsWellFormed | packages/mcp-broker/src/fingerprint.ts:16 | Whatever a string holds, its text has no control character and no lone surrogate |
| CanonicalForm.PlainTextStays | packages/mcp-broker/src/fingerprint.ts:16 | Well-formed text without quotes and backslashes is written as it is |
| CanonicalForm.BeforeIsFirstDifference | packages/mcp-broker/src/fingerprint.ts:26 | One key is printed before another exactly when it is a proper prefix of it or has the smaller code unit at the first difference |
| CanonicalForm.NumberIsDigits | packages/mcp-broker/src/fingerprint.ts:14 | A number without a sign is written in digits, without a leading zero and without a minus sign |
| CanonicalForm.NumberMarks | packages/mcp-broker/src/fingerprint.ts:14 | A negative number is its absolute value behind a minus sign |
| CanonicalForm.ArrayMarks | packages/mcp-broker/src/fingerprint.ts:20 | Two items are written between brackets with a comma in between |
| CanonicalForm.ObjectMarks | packages/mcp-broker/src/fingerprint.ts:26-29 | Two fields, however the object lists them, are written between braces in the order of their keys, each key in quotes before a colon, with a comma in between |
| CanonicalGraph.Canonicalize | packages/mcp-broker/src/fingerprint.ts:11-32 | On any value that unfolds to a finite tree, in whatever graph, the recursion ends, leaves `seen` as it found it, and prints that tree |
| CanonicalGraph.CanonicalizeObject | packages/mcp-broker/src/fingerprint.ts:22-30 | An object is marked while its fields are printed in sorted order and unmarked again |
| CanonicalGraph.TerminatesIffNoArrayCycle | packages/mcp-broker/src/fingerprint.ts:19-30 | Every value of a graph has a finite text exactly when the graph has no cycle made of arrays only |
| ArgumentCycles.EndsIffNoCycleInReach | packages/mcp-broker/src/fingerprint.ts:19-30 | One value has a finite text exactly when its references lead, through whatever objects and arrays, to no cycle made of arrays only |
| ArgumentCycles.SelfHoldingArrayDoesNotEnd | packages/mcp-broker/src/fingerprint.ts:19-21 | An array that holds itself has no finite text |
| CanonicalGraph.UnfoldingIsUnique | packages/mcp-broker/src/fingerprint.ts:19-30 | What a value unfolds to, with only true ancestors circular, is determined |
| CanonicalGraph.SharedPartsInFull | packages/mcp-broker/src/fingerprint.ts:23-28 | In a graph without cycles nothing is ever printed as circular, however much is shared |
| ArgumentCycles.CircularIffLoop | packages/mcp-broker/src/fingerprint.ts:23-28 | Something is printed as circular if and only if the value leads to an object that leads back to itself; sharing alone never is |
| CanonicalGraph.ListingDoesNotMatter | packages/mcp-broker/src/fingerprint.ts:7-8 | The order in which objects list their keys does not show in the text |
| CanonicalGraph.ArgsText | packages/mcp-broker/src/fingerprint.ts:34-35 | The text that is hashed is that of the one tree the arguments unfold to, if there is one, missing arguments counting as an empty object |
| Fingerprint.ArgsFingerprint | packages/mcp-broker/src/fingerprint.ts:34-37 | Where the recursion ends, the fingerprint is the digest of the one canonical text of the arguments |
| Fingerprint.FingerprintTellsArguments | packages/mcp-broker/src/fingerprint.ts:34-37 | With a digest that tells texts apart, the fingerprints of two calls are the same exactly when their arguments are the same JSON |
| Fingerprint.NullishArgsAreEmpty | packages/mcp-broker/src/fingerprint.ts:35 | Missing arguments are printed as an empty object |
| Fingerprint.ListingKeepsFingerprint | packages/mcp-broker/src/fingerprint.ts:1-8 | The same arguments have the same fingerprint, or none, in whatever order their objects list their keys |
| Fingerprint.PrintableIffNoCycleInReach | packages/mcp-broker/src/fingerprint.ts:34-35 | Arguments, missing ones included, have a canonical text exactly when they lead to no cycle of arrays only |
| Pipeline.Broker.RunPipeline | packages/mcp-broker/src/pipeline.ts:53-188 | The staged run adds to the log and returns what the stages call for, for every behaviour of the dependencies |
| Pipeline.Broker.Emit | packages/mcp-broker/src/pipeline.ts:75-103 | One audit attempt, and a warning if the sink throws; nothing else |
| PipelineLaws.RunIsLawful | packages/mcp-broker/src/pipeline.ts:105-188 | Every stage is called at most once and in order; the handler is called exactly when the decision allows or the owner, asked, says yes, and the named credential resolves; it gets that credential; the audit event is about the request and decision and tells what the caller saw |
| PipelineTable.CredentialIsFirst | packages/mcp-broker/src/pipeline.ts:47-51 | The credential that is looked up is that of the first credential obligation, wherever it stands, with its scope, and there is none exactly when no obligation is one |
| PipelineTable.HandlerGetsNamedCredential | packages/mcp-broker/src/pipeline.ts:155-163 | If obligation k of the decision is the first credential obligation, the handler is called only with a credential that the secret source gave for its reference and scope; if none is, no secret is asked for and the handler gets none |
| PipelineTable.RunIsTable | packages/mcp-broker/src/pipeline.ts:53-188 | For each way a run can go, the calls it makes and their order, what it returns, and every field of its audit event are those of a table over the answers of the dependencies |
| PipelineTable.FailedAuditIsWarned | packages/mcp-broker/src/pipeline.ts:95-102 | Behind an audit attempt nothing comes, except a warning with the message of a sink that throws |
| PipelineLaws.AuditedOnce | packages/mcp-broker/src/pipeline.ts:5-8 | A run makes exactly one audit attempt, whose outcome matches the result, if and only if identity and fingerprint do not throw and it is not so that the decision permits, the credential resolves, the handler returns and the redaction hook throws on what it returned; otherwise none, and the exception leaves the run |
| Fingerprint.AuditedUnlessCyclic | packages/mcp-broker/src/pipeline.ts:63-65 | The same told by the arguments: there is a request to judge exactly when the identity resolves and the arguments lead to no cycle of arrays only |
| Fingerprint.SelfHoldingArrayIsNotAudited | packages/mcp-broker/src/pipeline.ts:65 | Whatever the dependencies do, a call whose argument is an array that holds itself throws before the policy is asked and leaves no audit event |
| PipelineLaws.ThrowingHookIsNotAudited | packages/mcp-broker/src/pipeline.ts:185-186 | Once there is a request, a run that is cut short has called its handler and leaves no audit event |
| PipelineLaws.UnauditedCallExists | packages/mcp-broker/src/pipeline.ts:185-186 | There is a run whose handler was called and that leaves no audit event |
| PipelineLaws.AuditTells | packages/mcp-broker/src/pipeline.ts:112-181 | The audit event is marked as failing open exactly when an unreachable policy was let through, has a handler's outcome exactly when the handler ran, and carries the scope and the no-expiry warning of the credential that the handler got |
| PipelineLaws.SinkDoesNotMatter | packages/mcp-broker/src/pipeline.ts:95-102 | Whatever the sink does, throwing included, the run returns the same and makes the same calls |
| PipelineLaws.AuditsOverCalls | packages/mcp-broker/src/pipeline.ts:53-188 | Over any sequence of calls, audit attempts equal calls less those that an exception of identity, fingerprint or redaction cut short |
| Enforcement.TextToHandler | packages/mcp-broker/src/pipeline.ts:105-182 | Where the policy source answers what a text says, the handler runs exactly when the text's rule for the tool lets it, or, without a rule, when the default allows, with that rule's credential, and the audit is about that decision |
| Enforcement.FileToHandler | packages/mcp-broker/src/pipeline.ts:105-182 | A broker over a caching file source, at any call after any number of others and any changes of the file: from the first load that succeeds on, the handler runs by the text that was loaded then; until then it runs exactly when the broker fails open |
| LongPoll.ClientWait | packages/client/src/client.ts:199-247 | The client's loop is the wait with its reading of replies: outcome, number of checks and end time |
| LongPoll.ServerWait | packages/mcp-server/src/tools/handlers.ts:170-265 | The same for the MCP server's loop and its test order |
| LongPoll.PythonWait | packages/python-client/src/agentvalet/client.py:165-209 | The same for the Python loop and its shared decision function |
| LongPoll.AuthedFetch | packages/client/src/client.ts:335-358 | A 401 is tried exactly once more, body or no body, and the time of both attempts counts |
| LongPoll.AuthedRequest | packages/python-client/src/agentvalet/client.py:287-309 | The same in Python, where a 401 whose body is lost is not tried again |
| LongPollLaws.RetriedOnce | packages/client/src/client.ts:335-358 | In each program a whole reply with 401 makes the check the reading of the second attempt, in the time of both; any other whole reply, a transport failure or a signing failure leaves the reading and the time of the first |
| LongPollLaws.WaitGoesByAttempts | packages/client/src/client.ts:206-250 | Each program's wait ends with the reading of the attempt it goes by in its last round, the attempts it went by before all being pending; without one the budget is over |
| LongPollLaws.WaitTakes | packages/client/src/client.ts:203-246 | A wait takes exactly the time of its rounds, begins none after its budget, and gives up only when the budget is over |
| LongPollLaws.ReadsDenied | packages/mcp-server/src/tools/handlers.ts:195-252 | A reply is read as denied exactly when it is a success whose body says so, with what it says of it |
| LongPollLaws.ReadsExecutionFailed | packages/mcp-server/src/tools/handlers.ts:195-252 | A reply is read as a failed execution exactly when it is a success with an error text that is neither denied nor expired, and for the server carries no executed result |
| LongPollLaws.ReadsHttpError | packages/python-client/src/agentvalet/_protocol.py:103-129 | A reply is read as an HTTP error exactly when it is whole and its code is no success of the program |
| LongPollLaws.ReadsData | packages/mcp-server/src/tools/handlers.ts:203-243 | A reply is read as data exactly when it was approved and executed with a result whose status is a success, or in TypeScript no number |
| LongPollLaws.ReadsUpstreamError | packages/mcp-server/src/tools/handlers.ts:203-215 | A reply is read as an upstream error exactly when such a result has a status that is no success, null in TypeScript, or missing in Python, where it counts as zero |
| LongPollLaws.ReadsExpired | packages/python-client/src/agentvalet/_protocol.py:103-129 | A reply is read as expired exactly when it is a success whose body says so |
| LongPollLaws.ReadsPending | packages/client/src/client.ts:206-250 | What each program waits on: failures it takes for passing, and successes that nothing has come of yet |
| LongPollLaws.ReadsException | packages/client/src/client.ts:206-250 | The exceptions that end a wait, each exactly on a token that cannot be signed, a body that is lost, cannot be parsed, or lacks what is read |
| LongPoll.WaitMeansFirst | packages/client/src/client.ts:206-250 | A wait returns the meaning of its first decisive reply, skipping transport failures and pending replies, and times out only without one |
| LongPoll.WaitIsBounded | packages/client/src/client.ts:203-246 | At most as many checks as the poll interval fits into the budget, rounded up; the wait ends before budget, interval, lag of one sleep and longest check are over |
| LongPoll.EachWaitIsBounded | packages/client/src/client.ts:203-246 | So each of the three waits ends before budget, interval, lag and two request timeouts are over |
| LongPoll.ResumedIsUninterrupted | packages/client/src/client.ts:194-199 | A wait that times out and is resumed at any later time on the remaining replies ends as one uninterrupted wait: same outcome after the same checks in all, in the time that the two took |
| LongPoll.EachResumes | packages/client/src/client.ts:194-199 | So does each of the three programs' waits |
| LongPoll.ClientAndServerAgree | packages/mcp-server/src/tools/handlers.ts:195-243 | The client and the server make the same of a check if and only if its reply does not carry both an executed result and an execution error |
| LongPoll.ClientAndPythonAgree | packages/python-client/src/agentvalet/client.py:183-199 | The two clients make the same of a check if and only if the token can be signed, no body is lost, the status is 2xx or at least 400, the body is an object or null, and an executed result has a number for a status; a retry by one of them alone does not show only where it takes no time and decides nothing |
| LongPoll.RepliesReadApart | packages/mcp-server/src/tools/handlers.ts:203-243 | Replies that the programs read apart, and as what each reads them |
| LongPoll.WaitAlikeIffAgreeing | packages/client/src/client.ts:206-250 | Two waits, the second never slower on a check, are the same in outcome, checks and time if and only if their programs make the same of every check that the first meets |
| LongPoll.ThreeWaitsAgree | packages/mcp-server/src/tools/handlers.ts:183-252 | All three waits reach the same outcome after the same checks at the same time if and only if the client's wait meets no check that they take apart |
| HostedApproval.Request | packages/mcp-broker/src/hosted/approval-provider.ts:45-67 | The request fails without an id; with one, its loop is the poll from now to the deadline |
| Polling.PollMeansFirst | packages/mcp-broker/src/hosted/approval-provider.ts:57-66 | Any such loop ends with its first decisive answer, else without one not before the deadline, and asks at most as often as the interval fits into the time, rounded up |
| HostedApproval.PollMeansFirst | packages/mcp-broker/src/hosted/approval-provider.ts:57-66 | The answer is the first decisive status, else a timeout not before the deadline, after at most as many requests as the interval fits into the timeout, rounded up |
| HostedApproval.ApprovalNeedsApproved | packages/mcp-broker/src/hosted/approval-provider.ts:59-66 | The provider says yes exactly when the last status was approved: silence and time deny |
| HostedApproval.EndsOnReply | packages/mcp-broker/src/hosted/approval-provider.ts:57-66 | What the last reply says is what the provider returns: approved, declined, expired as a timeout, a failure thrown on; all replies before say none of these, and without one it is a timeout |
| HostedApproval.PollTakes | packages/mcp-broker/src/hosted/approval-provider.ts:57-66 | The provider ends after exactly its requests, intervals and oversleeping |
| CliApproval.SaysYesIsTrimmed | packages/mcp-broker/src/approval/cli-provider.ts:60 | An answer matches the pattern for yes exactly when it is, trimmed, y or yes in any case |
| CliApproval.YesInAnyCase | packages/mcp-broker/src/approval/cli-provider.ts:60 | An answer says yes exactly when what is left of it without white space and case is y or yes |
| CliApproval.Prompt.Handle | packages/mcp-broker/src/approval/cli-provider.ts:43-63 | One callback, answer or timer, takes the prompt from its old state to the state the race calls for |
| CliApproval.FirstCallbackWins | packages/mcp-broker/src/approval/cli-provider.ts:44-62 | In every order of callbacks the promise settles at most once, by the first; it is approved exactly when that is a yes; a timeout is never early; until a callback comes the timer is still to fire, so silence denies |
| CliApproval.SilenceTimesOut | packages/mcp-broker/src/approval/cli-provider.ts:53 | While nothing has come the timer can fire exactly when the timeout has passed, and then refuses for want of time |
| EventStream.LinesGoOn | packages/cli/src/wait.ts:68-70 | Reading on from the kept buffer gives the lines and the rest that the whole text has |
| EventStream.UnfinishedIsUnused | packages/cli/src/wait.ts:69-72 | Text behind the last line feed never changes the verdict |
| EventStream.VerdictStays | packages/cli/src/wait.ts:64-84 | A verdict reached after some chunks is the verdict of the whole stream |
| RegistrationWait.TrySSE | packages/cli/src/wait.ts:43-92 | For every way of cutting the stream into chunks the verdict is that of the first decisive newline-terminated line of the whole text |
| RegistrationWait.Examine | packages/cli/src/wait.ts:72-83 | The inner loop gives the verdict of the first decisive line, skipping heartbeats, other fields, empty data and data that does not parse |
| RegistrationWait.Poll | packages/cli/src/wait.ts:94-113 | The status loop is the poll from now to the deadline |
| RegistrationWait.PollMeansFirst | packages/cli/src/wait.ts:94-113 | Polling gives the first verdict of a status, else a timeout not before the deadline, after at most as many requests as five seconds fit into the time, rounded up |
| RegistrationWait.WaitForApproval | packages/cli/src/wait.ts:16-41 | The stream's verdict comes first, the poll's only without one, and claiming the key changes nothing but the key |
| RegistrationWait.AnswerWasGiven | packages/cli/src/wait.ts:16-29 | The wait answers only what a complete line or a status said; a timeout means that neither any complete line nor any status up to the deadline had a verdict |
| RegistrationLaws.EventSaysIff | packages/cli/src/wait.ts:115-126 | An event approves, for which agent and owner in either spelling, rejects or expires exactly when its fields say so |
| RegistrationLaws.LineSaysIff | packages/cli/src/wait.ts:72-83 | A line has a verdict exactly when it is a data field whose text, without white space around it, reads as an event with that verdict |
| RegistrationLaws.AnswerIsFirstTold | packages/cli/src/wait.ts:16-41 | The wait answers what the first telling line of the stream tells, without one what the first telling status tells, and a timeout only without either up to the deadline; the key is the claimed one |
| RegistrationLaws.PollTakes | packages/cli/src/wait.ts:94-113 | Polling ends after exactly its sleeps of five seconds, their oversleeping, and its requests |
| RevocationWait.Waiter.Handle | packages/cli/src/commands/uninstall.ts:182-251 | Every callback takes the waiter from its old state to the state its event calls for |
| RevocationWait.Waiter.ReceiveChunk | packages/cli/src/commands/uninstall.ts:217-234 | A chunk settles the wait by the first decisive complete line, or leaves the unfinished line in the buffer and the read timer set anew |
| RevocationWait.StepKeepsInv | packages/cli/src/commands/uninstall.ts:187-249 | Every event keeps the waiter's invariant |
| RevocationWait.EveryRunIsSafe | packages/cli/src/commands/uninstall.ts:182-251 | In every run, over all orders of chunks, ends, errors and timers: at most one resolution; while unsettled exactly one connection or pending reconnect and the global timer still to fire; an owner's verdict was heard; a timeout was heard or is due |
| RevocationWait.SettledStays | packages/cli/src/commands/uninstall.ts:189-194 | Once settled the verdict never changes, and no connection is opened and no reconnect scheduled |
| RevocationWait.GlobalTimerSettles | packages/cli/src/commands/uninstall.ts:249 | A run in which the global timer fires ends settled |
| RevocationWait.VerdictIsOfStream | packages/cli/src/commands/uninstall.ts:215-231 | However the streams are cut into chunks and whatever happens in between, an approval or rejection that settles the wait is the verdict of the first decisive complete line of all the text that one connection received |
| RevocationWait.RunIsFramed | packages/cli/src/commands/uninstall.ts:217-223 | In every run each open connection's buffer is the unfinished line of all the text it received, and none of its complete lines was decisive |
| RevocationWait.HeardWasReceived | packages/cli/src/commands/uninstall.ts:224-231 | A verdict that counts as heard was received: some chunk of the run completed a line that says it |
| RevocationLaws.LineSaysIff | packages/cli/src/commands/uninstall.ts:224-231 | A line has a verdict exactly when it is "data: " and JSON whose status is approved, rejected or timeout, and it is that verdict |
| RevocationLaws.OwnerSaidIt | packages/cli/src/commands/uninstall.ts:217-231 | A wait settled as approved received on one connection a complete data line that says approved, with no line before it on that connection that says approved, rejected or timeout; the same for rejected |
| RevocationLaws.SaidSettles | packages/cli/src/commands/uninstall.ts:217-231 | On an unsettled wait, a chunk that completes a line that is the first to say something settles it so and closes the connection |
| RevocationLaws.SilenceGoesOn | packages/cli/src/commands/uninstall.ts:217-234 | Any other chunk changes only its connection: the unfinished line is kept and the read timer set anew |
| RevocationLaws.ReconnectIsScheduled | packages/cli/src/commands/uninstall.ts:207-245 | A reconnect is scheduled exactly when a connection of an unsettled wait ends, one second later, or three after a refusal |
| RevocationLaws.ConnectionIsOpened | packages/cli/src/commands/uninstall.ts:193-201 | A connection is opened exactly when a reconnect comes due on an unsettled wait up to its deadline, with a read timer of 25 seconds |
| RevocationLaws.TimersFireWhenDue | packages/cli/src/commands/uninstall.ts:198-245 | A read timer or a reconnect can fire exactly when its time has passed since it was set |
| RevocationLaws.StartTimersFireWhenDue | packages/cli/src/commands/uninstall.ts:198-249 | The global timer can fire exactly when the time of the wait is over, the first read timer after 25 seconds |
| RevocationLaws.OtherEvents | packages/cli/src/commands/uninstall.ts:198-249 | Time, an answer, a read timer and the global timer each change what they are for and nothing else |
| RevocationLaws.WhatCanCome | packages/cli/src/commands/uninstall.ts:198-245 | An open connection is either waiting for its answer or bringing its stream and can fail either way; an aborted one is not answered any more; timers fire once |
| RevocationLaws.StartIs | packages/cli/src/commands/uninstall.ts:182-249 | The wait starts with one connection and with its deadline and its timer at the end of its time |
| Blocks.Document.EmbedPermissionsBlock | packages/cli/src/commands/refresh.ts:128-147 | The file gets its block embedded, and a missing file is left alone |
| Blocks.Document.StripPermissionsBlock | packages/cli/src/commands/uninstall.ts:16-28 | The file loses its block if it has a start marker and is left alone if not |
| BlockLaws.EmbeddedIn | packages/cli/src/commands/refresh.ts:132-141 | For text of any shape: what stands before and after a complete block is kept, a text without a block gets one behind it whatever its content, a text whose start marker is never closed stays as it is |
| BlockLaws.LastWriteWins | packages/cli/src/commands/refresh.ts:134-141 | Embedding one content and then another equals embedding the other, exactly when the first holds no end marker or the text has a start marker that is never closed; contents are free of patterns only where they replace a block |
| BlockLaws.LastWriteWinsIffNoPatterns | packages/cli/src/commands/refresh.ts:134-141 | After a content without patterns or end marker, the last write wins in every document if and only if its content has no pattern |
| BlockLaws.VerbatimIffNoPatterns | packages/cli/src/commands/refresh.ts:135-138 | A content is written as it is into every document with a block if and only if it has no pattern |
| BlockLaws.PatternIsExpanded | packages/cli/src/commands/refresh.ts:135-138 | A content with one of the four patterns, in any document with a block, is written with the dollar, the old block, or what stands before or after it in the pattern's place |
| BlockLaws.PermissionsBlockIs | packages/cli/src/commands/refresh.ts:132-141 | The block in use is the content without trailing white space, on lines of its own between the two comments |
| BlockLaws.FrameOfBlock | packages/cli/src/commands/refresh.ts:132-138 | A block put into a text is found again in its place unless its content closes it |
| BlockLaws.StripUndoesEmbed | packages/cli/src/commands/uninstall.ts:21-25 | Stripping after embedding into a text without a block gives that text with runs of line breaks collapsed, trailing space gone and one final line break, if and only if the content holds no end marker |
| BlockLaws.PermissionsLastWriteWins | packages/cli/src/commands/refresh.ts:128-147 | The last write wins for the markers in use |
| BlockLaws.PermissionsStripUndoesEmbed | packages/cli/src/commands/uninstall.ts:16-28 | Stripping undoes embedding for the markers in use |
| BlockLaws.CollapseAndTrim | packages/cli/src/commands/uninstall.ts:23-24 | Collapsing line breaks and trimming the end can be exchanged |
| BlockLaws.RunCollapses | packages/cli/src/commands/uninstall.ts:23 | A run of line breaks of either kind, taken as long as it can be, becomes two line feeds if it has three or more and stays as it is if not; the text before and behind it collapses on its own |
| BlockLaws.LineStays | packages/cli/src/commands/uninstall.ts:23 | Text without line breaks stays as it is |
| EnvFile.EnvLocal.WriteKey | packages/cli/src/lib/env-writer.ts:6-26 | The file holds the edited text, a missing file counting as empty |
| EnvFile.LinesAfterWrite | packages/cli/src/lib/env-writer.ts:9-25 | After a write the lines are those that did not assign the variable, in order, then the comment, the assignment and an empty line |
| EnvFile.WriteAssigns | packages/cli/src/lib/env-writer.ts:19-25 | After a write exactly one line assigns the variable, and it holds the written key |
| EnvFile.WriteKeepsOthers | packages/cli/src/lib/env-writer.ts:19-25 | A write leaves the assignments of every other variable alone, one whose name goes on from this one's included |
| EnvFile.LastKeyStands | packages/cli/src/lib/env-writer.ts:6-26 | After any sequence of writes to any text, each written variable has exactly one assignment line, with the last key written |
| EnvFile.OtherLinesSurvive | packages/cli/src/lib/env-writer.ts:20-22 | All lines that assign none of the written variables survive any sequence of writes, in order |
| EnvLaws.NamesCollide | packages/cli/src/lib/env-writer.ts:3-4 | Two agents share a variable exactly when their ids are the same up to case and to dash or underscore |
| EnvLaws.NameIsUpper | packages/cli/src/lib/env-writer.ts:3-4 | A variable is the prefix and an upper-case name without dashes, and an id that is such a name stands behind the prefix as it is |
| EnvLaws.FileEndsWithEntry | packages/cli/src/lib/env-writer.ts:9-25 | For every id and key the file ends with the comment that names the agent and the assignment of the key, and if the variable was not named in it everything before stays |
| EnvLaws.LastKeyIsHeld | packages/cli/src/lib/env-writer.ts:6-26 | After any writes exactly one line starts with a written variable and its equals sign, and the last key written to it stands behind that |

## Left out

- Policy text is a sequence of Unicode characters, not of UTF-16 code units; no rule of the format tells the two apart.
- PolicyYaml.ParsePolicy: faults carry their kind and line, not the wording of the message; a version is a number without an upper bound, where the program has a double.
- PolicyRoundTrip.RoundTrip: a value that holds a line feed, or opens a comment or holds a forbidden pattern however it is written, has no text; that is part of the theorem. The writer is the model's own: the repository has none.
- CanonicalGraph.Canonicalize: numbers are integers (no fractions, exponents or negative zero), arrays have no holes, and objects have neither getters nor `toJSON`; key sorting is an insertion sort, whose result any sort of distinct keys has.
- CanonicalGraph.TerminatesIffNoArrayCycle: that the recursion ends is stated as the existence of a finite unfolding; the size of the stack is not modelled.
- Fingerprint.AuditedUnlessCyclic: an exception of the fingerprint for another reason, such as arguments too deep for the stack; `AuditedOnce` covers any.
- SHA-256 over the canonical text is not part of this model; the theorems are about the text that is fed to it.
- Pipeline.Broker.RunPipeline: timestamps, latency, schema version and the action name of audit events; clocks and the warn hook do not throw.
- Pipeline: the warnings are constructors that carry the reason, not the program's strings, and what is written to the console is shortened to its kind and its reason.
- FileSource.FilePolicySource.Load: reading the file is an input of each call; concurrent first loads are not modelled.
- Enforcement.FileToHandler: calls come one after the other; two calls that both find nothing cached are not modelled.
- LongPoll.ClientWait: progress callbacks and progress messages; redirects that `fetch` follows, of which a reply is the last; the asynchronous Python client, which has the same loop.
- LongPoll.ThreeWaitsAgree: outcomes are compared by kind and detail, not by the type of exception or the text each client wraps them in; an attempt takes as long in one program as in another.
- LongPoll.ResumedIsUninterrupted: if the resumed wait times out too, for the uninterrupted budget that ends when it does; with a larger one the uninterrupted wait may go on.
- LongPoll.ClientAndPythonAgree: a status is a number, null, missing or text that is no numeral; numerals in text, booleans, fractions and arrays as a status are not modelled.
- HostedApproval.Request: the HTTP client below it; opening a request takes no time.
- CliApproval.Prompt.Handle: an input that closes without an answer, and a process that exits because nothing else holds it open.
- RegistrationWait.WaitForApproval: granted platforms; the JSON parser is an arbitrary function that may fail; decoding bytes to characters.
- RevocationWait.Waiter.Handle: callbacks are steps that happen one at a time, each only when its timer is due or its connection open.
- RevocationWait.GlobalTimerSettles: that a due timer is fired at some time is left to the event loop.
- Blocks.Document.EmbedPermissionsBlock: read and write errors; the variant for CLAUDE.md, which also removes an old import line.
- BlockLaws.StripUndoesEmbed: a carriage return that is not part of a line break can leave a longer run of line breaks, which `Collapse` has as the program does.
- PolicyGrammar.ParseIff: the grammar shares with the parser where a comment starts and what the forbidden patterns are; `HashOpensComment`, `HashBehindQuotes` and `ForbiddenShifts` speak of those.
- EnvLaws.NamesCollide: only ASCII letters have a case.
- EnvFile.EnvLocal.WriteKey: base64 encoding; upper case only for ASCII letters; read and write errors.
- Credential gating, tool schemas, access requests, IDE configuration files, login, prompts and output: each is one branch chain or user interface.
- The hosted proxy, the vault and the server-side approval store are not part of this repository.
