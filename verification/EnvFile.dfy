/** The file of environment variables in which the command line tool keeps agents' keys. */
module EnvFile {
  import opened Wrappers
  import opened Sequences
  import opened Text
  import opened Blocks

  function Upper(c: char): char {
    if 'a' <= c <= 'z' then c - 'a' + 'A' else if c == '-' then '_' else c
  }

  /** The variable of an agent: dashes become underscores, letters upper case. */
  function VarName(agentId: string): string {
    "AGENTVALET_PRIVATE_KEY_" + seq(|agentId|, i requires 0 <= i < |agentId| => Upper(agentId[i]))
  }

  predicate Assigns(name: string, line: string) {
    name + "=" <= line
  }

  function Others(name: string): string -> bool {
    line => !Assigns(name, line)
  }

  function Comment(agentId: string): string {
    "# AgentValet private key for " + agentId + " (base64-encoded PEM)"
  }

  function Assignment(agentId: string, key: string): string {
    VarName(agentId) + "=" + key
  }

  function JoinLines(lines: seq<string>): string {
    if lines == [] then []
    else if |lines| == 1 then lines[0]
    else lines[0] + "\n" + JoinLines(lines[1..])
  }

  /** The text of the file after a key is written; `key` is the encoded key. */
  function Written(existing: string, agentId: string, key: string): string {
    var entry := "\n" + Comment(agentId) + "\n" + Assignment(agentId, key) + "\n";
    if Contains(existing, VarName(agentId)) then
      JoinLines(Filter(SplitOn(existing, '\n'), Others(VarName(agentId)))) + entry
    else existing + entry
  }

  class EnvLocal {
    var text: Option<string>

    constructor (text: Option<string>)
      ensures this.text == text
    {
      this.text := text;
    }

    method WriteKey(agentId: string, key: string)
      modifies this
      ensures text == Some(Written(if old(text).Some? then old(text).value else "", agentId, key))
    {
      var varName := VarName(agentId);
      var line := "\n" + Comment(agentId) + "\n" + Assignment(agentId, key) + "\n";
      var existing := "";
      if text.Some? {
        existing := text.value;
      }
      if Contains(existing, varName) {
        var lines := SplitOn(existing, '\n');
        var filtered := Filter(lines, Others(varName));
        text := Some(JoinLines(filtered) + line);
      } else {
        text := Some(existing + line);
      }
    }
  }

  // ----- lines

  function LinesOf(text: string): seq<string> {
    SplitOn(text, '\n')
  }

  /** The lines of a text that assign a variable, in order. */
  function Assignments(text: string, name: string): seq<string> {
    Filter(LinesOf(text), Own(name))
  }

  predicate NoBreak(line: string) {
    '\n' !in line
  }

  lemma {:induction false} LinesComeBack(lines: seq<string>)
    requires lines != [] && forall i | 0 <= i < |lines| :: NoBreak(lines[i])
    ensures SplitOn(JoinLines(lines), '\n') == lines
    decreases |lines|
  {
    if |lines| == 1 {
      SplitOnClear(lines[0], '\n');
    } else {
      LinesComeBack(lines[1..]);
      SplitOnFirst(lines[0], JoinLines(lines[1..]));
    }
  }

  lemma SplitOnFirst(line: string, rest: string)
    requires NoBreak(line)
    ensures SplitOn(line + "\n" + rest, '\n') == [line] + SplitOn(rest, '\n')
  {
    var s := line + "\n" + rest;
    IndexOfIs(s, '\n', |line|);
    assert s[..|line|] == line && s[|line| + 1..] == rest;
  }

  /** Text behind a line break starts a new line. */
  lemma SplitBehindBreak(s: string, rest: string)
    ensures SplitOn(s + "\n" + rest, '\n') == SplitOn(s, '\n') + SplitOn(rest, '\n')
  {
    var pieces := SplitOn(s, '\n');
    LastIsClear(s);
    SplitOnAppend(s, "\n" + rest, '\n');
    SplitOnFirst(Last(pieces), rest);
    ConcatAssoc(s, "\n", rest);
    ConcatAssoc(Last(pieces), "\n", rest);
    Regroup(pieces, SplitOn(rest, '\n'));
  }

  lemma LastIsClear(s: string)
    ensures NoBreak(Last(SplitOn(s, '\n')))
  {
    PiecesAreClear(s, '\n');
  }

  lemma Regroup(pieces: seq<string>, more: seq<string>)
    requires pieces != []
    ensures Front(pieces) + ([Last(pieces)] + more) == pieces + more
  {
  }

  // ----- what one write does to the lines

  /** The values that can be written: no line breaks, and no '=' in the agent's id. */
  predicate Writable(agentId: string, key: string) {
    NoBreak(agentId) && '=' !in agentId && NoBreak(key)
  }

  lemma {:induction false} FilterKeeps<T>(s: seq<T>, p: T -> bool, q: T -> bool)
    requires forall x :: q(x) ==> p(x)
    ensures Filter(Filter(s, p), q) == Filter(s, q)
    decreases |s|
  {
    if s != [] {
      var most, last := s[..|s| - 1], s[|s| - 1];
      FilterKeeps(most, p, q);
      FilterAppend(Filter(most, p), if p(last) then [last] else [], q);
      FilterOne(last, q);
    }
  }

  lemma {:induction false} FilterMembers<T>(s: seq<T>, p: T -> bool)
    ensures forall x | x in Filter(s, p) :: x in s && p(x)
    decreases |s|
  {
    if s != [] {
      FilterMembers(s[..|s| - 1], p);
    }
  }

  /** A text with a line that assigns a variable contains its name. */
  lemma {:induction false} AssignedIsNamed(s: string, name: string, line: string)
    requires line in LinesOf(s) && Assigns(name, line)
    ensures Contains(s, name)
    decreases |s|
  {
    var n := IndexOf(s, '\n');
    if line == s[..n] {
      assert s[0..0 + |name|] == line[..|name|] == (name + "=")[..|name|] == name;
      assert OccursAt(s, name, 0);
    } else {
      var rest := s[n + 1..];
      AssignedIsNamed(rest, name, line);
      var k: nat :| k <= |rest| && OccursAt(rest, name, k);
      assert rest[k..k + |name|] == s[n + 1 + k..n + 1 + k + |name|];
      assert OccursAt(s, name, n + 1 + k);
    }
  }

  /** The lines that a write leaves in place. */
  function Kept(existing: string, name: string): seq<string> {
    Filter(LinesOf(existing), Others(name))
  }

  /**
   After a write the lines are those that did not assign the variable, in order, a comment, the
   assignment and an empty line; a file of nothing else than assignments leaves an empty line.
   */
  lemma LinesAfterWrite(existing: string, agentId: string, key: string)
    requires Writable(agentId, key)
    ensures var kept := Kept(existing, VarName(agentId));
      LinesOf(Written(existing, agentId, key))
      == (if kept == [] then [""] else kept) + [Comment(agentId), Assignment(agentId, key), ""]
  {
    var name := VarName(agentId);
    var kept := Kept(existing, name);
    var tail := Comment(agentId) + "\n" + (Assignment(agentId, key) + "\n" + "");
    var left := if Contains(existing, name) then JoinLines(kept) else existing;
    EntryLines(agentId, key);
    EntryIs(left, Comment(agentId), Assignment(agentId, key));
    assert Written(existing, agentId, key) == left + "\n" + tail;
    SplitBehindBreak(left, tail);
    LeftLines(existing, name);
  }

  lemma EntryIs(left: string, comment: string, assignment: string)
    ensures left + ("\n" + comment + "\n" + assignment + "\n")
         == left + "\n" + (comment + "\n" + (assignment + "\n" + ""))
  {
  }

  lemma EntryLines(agentId: string, key: string)
    requires Writable(agentId, key)
    ensures SplitOn(Comment(agentId) + "\n" + (Assignment(agentId, key) + "\n" + ""), '\n')
         == [Comment(agentId), Assignment(agentId, key), ""]
  {
    NameIsClean(agentId);
    CommentIsClean(agentId);
    SplitOnFirst(Comment(agentId), Assignment(agentId, key) + "\n" + "");
    SplitOnFirst(Assignment(agentId, key), "");
    SplitOnClear("", '\n');
  }

  lemma LeftLines(existing: string, name: string)
    ensures var kept := Kept(existing, name);
      LinesOf(if Contains(existing, name) then JoinLines(kept) else existing) == if kept == [] then [""] else kept
  {
    var kept := Kept(existing, name);
    if Contains(existing, name) {
      PiecesAreClear(existing, '\n');
      FilterMembers(LinesOf(existing), Others(name));
      if kept == [] {
        SplitOnClear("", '\n');
      } else {
        assert forall i | 0 <= i < |kept| :: kept[i] in kept && kept[i] in LinesOf(existing);
        assert forall line | line in LinesOf(existing) :: NoBreak(line);
        LinesComeBack(kept);
      }
    } else {
      forall line | line in LinesOf(existing) ensures Others(name)(line) {
        if Assigns(name, line) {
          AssignedIsNamed(existing, name, line);
        }
      }
      FilterAll(LinesOf(existing), Others(name));
    }
  }

  lemma NameIsClean(agentId: string)
    requires NoBreak(agentId) && '=' !in agentId
    ensures NoBreak(VarName(agentId)) && '=' !in VarName(agentId)
  {
    assert forall i | 0 <= i < |agentId| ::
        agentId[i] in agentId && Upper(agentId[i]) != '\n' && Upper(agentId[i]) != '=';
  }

  lemma CommentIsClean(agentId: string)
    requires NoBreak(agentId) && '=' !in agentId
    ensures NoBreak(Comment(agentId)) && '=' !in Comment(agentId)
  {
  }

  // ----- variables

  /** The lines that assign this variable. */
  function Own(name: string): string -> bool {
    line => Assigns(name, line)
  }

  /** An assigned variable is what stands before the first '=' of the line. */
  lemma AssignedPart(name: string, line: string)
    requires '=' !in name && Assigns(name, line)
    ensures IndexOf(line, '=') == |name| < |line| && line[..|name|] == name && line[|name|] == '='
  {
    assert line[..|name| + 1] == name + "=";
    assert forall k | 0 <= k < |name| :: line[k] == name[k];
    IndexOfIs(line, '=', |name|);
  }

  lemma AssignsOne(name: string, other: string, line: string)
    requires '=' !in name && '=' !in other && Assigns(name, line) && Assigns(other, line)
    ensures name == other
  {
    AssignedPart(name, line);
    AssignedPart(other, line);
  }

  lemma AssignsNothing(name: string, line: string)
    requires '=' !in name && '=' !in line
    ensures !Assigns(name, line)
  {
    if Assigns(name, line) {
      AssignedPart(name, line);
    }
  }

  lemma EntryFiltered(agentId: string, key: string, p: string -> bool)
    ensures Filter([Comment(agentId), Assignment(agentId, key), ""], p)
         == (if p(Comment(agentId)) then [Comment(agentId)] else [])
            + (if p(Assignment(agentId, key)) then [Assignment(agentId, key)] else [])
            + (if p("") then [""] else [])
  {
    var a, b, c := [Comment(agentId)], [Assignment(agentId, key)], [""];
    assert [Comment(agentId), Assignment(agentId, key), ""] == a + b + c;
    FilterAppend(a + b, c, p);
    FilterAppend(a, b, p);
    FilterOne(a[0], p);
    FilterOne(b[0], p);
    FilterOne(c[0], p);
  }

  /** After a write exactly one line assigns the agent's variable, and it holds the written key. */
  lemma WriteAssigns(existing: string, agentId: string, key: string)
    requires Writable(agentId, key)
    ensures Assignments(Written(existing, agentId, key), VarName(agentId)) == [Assignment(agentId, key)]
  {
    var name := VarName(agentId);
    var kept := Kept(existing, name);
    var left := if kept == [] then [""] else kept;
    LinesAfterWrite(existing, agentId, key);
    FilterAppend(left, [Comment(agentId), Assignment(agentId, key), ""], Own(name));
    NameIsClean(agentId);
    CommentIsClean(agentId);
    AssignsNothing(name, Comment(agentId));
    AssignsNothing(name, "");
    FilterMembers(LinesOf(existing), Others(name));
    FilterNone(left, Own(name));
    EntryFiltered(agentId, key, Own(name));
  }

  /** A write leaves the assignments of every other variable alone. */
  lemma WriteKeepsOthers(existing: string, agentId: string, key: string, other: string)
    requires Writable(agentId, key) && '=' !in other && other != VarName(agentId)
    ensures Assignments(Written(existing, agentId, key), other) == Assignments(existing, other)
  {
    var name := VarName(agentId);
    var kept := Kept(existing, name);
    var left := if kept == [] then [""] else kept;
    LinesAfterWrite(existing, agentId, key);
    FilterAppend(left, [Comment(agentId), Assignment(agentId, key), ""], Own(other));
    NameIsClean(agentId);
    CommentIsClean(agentId);
    AssignsNothing(other, Comment(agentId));
    AssignsNothing(other, "");
    if Assigns(other, Assignment(agentId, key)) {
      AssignsOne(name, other, Assignment(agentId, key));
    }
    EntryFiltered(agentId, key, Own(other));
    OwnIsOther(name, other);
    FilterKeeps(LinesOf(existing), Others(name), Own(other));
    FilterOne("", Own(other));
  }

  lemma OwnIsOther(name: string, other: string)
    requires '=' !in name && '=' !in other && other != name
    ensures forall line :: Own(other)(line) ==> Others(name)(line)
  {
    forall line | Own(other)(line) ensures Others(name)(line) {
      if Assigns(name, line) {
        AssignsOne(name, other, line);
      }
    }
  }

  /** Lines that do not assign the variable survive a write in order. */
  lemma WriteKeepsLines(existing: string, agentId: string, key: string, p: string -> bool)
    requires Writable(agentId, key) && forall line :: p(line) ==> !Assigns(VarName(agentId), line)
    ensures Filter(LinesOf(existing), p) <= Filter(LinesOf(Written(existing, agentId, key)), p)
  {
    var name := VarName(agentId);
    var kept := Kept(existing, name);
    var left := if kept == [] then [""] else kept;
    LinesAfterWrite(existing, agentId, key);
    FilterAppend(left, [Comment(agentId), Assignment(agentId, key), ""], p);
    FilterKeeps(LinesOf(existing), Others(name), p);
  }

  // ----- many writes

  datatype Write = Write(agentId: string, key: string)

  /** The text after these writes. */
  function AfterWrites(text: string, writes: seq<Write>): string {
    if writes == [] then text
    else
      var last := writes[|writes| - 1];
      Written(AfterWrites(text, writes[..|writes| - 1]), last.agentId, last.key)
  }

  /**
   After any writes to any text, each written variable has exactly one assignment line, which
   holds the last key written to it.
   */
  lemma {:induction false} LastKeyStands(text: string, writes: seq<Write>, k: nat)
    requires k < |writes| && forall i | 0 <= i < |writes| :: Writable(writes[i].agentId, writes[i].key)
    requires forall i | k < i < |writes| :: VarName(writes[i].agentId) != VarName(writes[k].agentId)
    ensures Assignments(AfterWrites(text, writes), VarName(writes[k].agentId))
         == [Assignment(writes[k].agentId, writes[k].key)]
    decreases |writes|
  {
    var n := |writes| - 1;
    var before := AfterWrites(text, writes[..n]);
    if k == n {
      WriteAssigns(before, writes[n].agentId, writes[n].key);
    } else {
      LastKeyStands(text, writes[..n], k);
      NameIsClean(writes[k].agentId);
      WriteKeepsOthers(before, writes[n].agentId, writes[n].key, VarName(writes[k].agentId));
    }
  }

  /** Lines that assign none of the written variables survive in order, and their assignments too. */
  lemma {:induction false} OtherLinesSurvive(text: string, writes: seq<Write>, p: string -> bool)
    requires forall i | 0 <= i < |writes| :: Writable(writes[i].agentId, writes[i].key)
    requires forall i, line | 0 <= i < |writes| && p(line) :: !Assigns(VarName(writes[i].agentId), line)
    ensures Filter(LinesOf(text), p) <= Filter(LinesOf(AfterWrites(text, writes)), p)
    decreases |writes|
  {
    if writes != [] {
      var n := |writes| - 1;
      OtherLinesSurvive(text, writes[..n], p);
      WriteKeepsLines(AfterWrites(text, writes[..n]), writes[n].agentId, writes[n].key, p);
    }
  }
}
