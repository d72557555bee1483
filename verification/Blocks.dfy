/**
 The block that the command line tool keeps inside a document of the user: written between two
 marker comments, replaced in place when the markers are there, and taken out on uninstall.
 */
module Blocks {
  import opened Wrappers
  import opened Text

  /** The two comments around a block. */
  datatype Markers = Markers(start: string, end: string)

  const PERMISSIONS := Markers("<!-- agentvalet:permissions:start -->", "<!-- agentvalet:permissions:end -->")

  // ----- searching

  predicate OccursAt(s: string, m: string, i: nat) {
    i + |m| <= |s| && s[i..i + |m|] == m
  }

  predicate Contains(s: string, m: string) {
    exists i | 0 <= i <= |s| :: OccursAt(s, m, i)
  }

  /** The first position from `i` on at which `m` occurs. */
  function Find(s: string, m: string, i: nat): (r: Option<nat>)
    requires i <= |s|
    ensures r.Some? ==> i <= r.value && r.value + |m| <= |s|
    decreases |s| - i
  {
    if OccursAt(s, m, i) then Some(i) else if i == |s| then None else Find(s, m, i + 1)
  }

  // ----- the replacement of the first block

  /** A text around its first complete block, which lies between the two markers. */
  datatype Parts = Parts(before: string, inside: string, after: string)

  /** What comes before the first occurrence of `m` and what comes behind it. */
  function Cut(s: string, m: string): Option<(string, string)> {
    match Find(s, m, 0)
    case None => None
    case Some(i) => Some((s[..i], s[i + |m|..]))
  }

  /** The first match of the pattern that runs from a start marker to the next end marker. */
  function FirstBlock(m: Markers, s: string): Option<Parts> {
    match Cut(s, m.start)
    case None => None
    case Some((before, rest)) =>
      match Cut(rest, m.end)
      case None => None
      case Some((inside, after)) => Some(Parts(before, inside, after))
  }

  /** What `String.replace` makes of a replacement text (ECMA-262, GetSubstitution, no captures). */
  function Expand(m: Markers, r: string, p: Parts): string {
    if |r| < 2 then r
    else if r[0] == '$' && r[1] == '$' then "$" + Expand(m, r[2..], p)
    else if r[0] == '$' && r[1] == '&' then m.start + p.inside + m.end + Expand(m, r[2..], p)
    else if r[0] == '$' && r[1] == '`' then p.before + Expand(m, r[2..], p)
    else if r[0] == '$' && r[1] == '\'' then p.after + Expand(m, r[2..], p)
    else [r[0]] + Expand(m, r[1..], p)
  }

  function ReplaceBlock(m: Markers, s: string, r: string): string {
    match FirstBlock(m, s)
    case None => s
    case Some(p) => p.before + Expand(m, r, p) + p.after
  }

  // ----- embedding and stripping

  function Block(m: Markers, content: string): string {
    m.start + "\n" + TrimEnd(content) + "\n" + m.end
  }

  function Embedded(m: Markers, existing: string, content: string): string {
    if Contains(existing, m.start) then ReplaceBlock(m, existing, Block(m, content))
    else TrimEnd(existing) + "\n\n" + Block(m, content) + "\n"
  }

  /** The line breaks, "\n" or "\r\n", that a text starts with: how many, and how long they are. */
  function BreakRun(s: string): (r: (nat, nat))
    ensures r.1 <= |s| && (r.0 > 0 ==> r.1 > 0)
    decreases |s|
  {
    if s != [] && s[0] == '\n' then
      var (n, length) := BreakRun(s[1..]);
      (n + 1, length + 1)
    else if |s| > 1 && s[0] == '\r' && s[1] == '\n' then
      var (n, length) := BreakRun(s[2..]);
      (n + 1, length + 2)
    else (0, 0)
  }

  /** Every run of three or more line breaks becomes two. */
  function Collapse(s: string): string
    decreases |s|
  {
    if s == [] then []
    else
      var (n, length) := BreakRun(s);
      if n >= 3 then "\n\n" + Collapse(s[length..]) else [s[0]] + Collapse(s[1..])
  }

  function Stripped(m: Markers, content: string): string {
    if Contains(content, m.start) then TrimEnd(Collapse(ReplaceBlock(m, content, ""))) + "\n" else content
  }

  // ----- the program

  class Document {
    /** The text of the file, if there is one. */
    var text: Option<string>

    constructor (text: Option<string>)
      ensures this.text == text
    {
      this.text := text;
    }

    method EmbedPermissionsBlock(content: string) returns (updated: bool)
      modifies this
      ensures updated == old(text).Some?
      ensures text == if old(text).Some? then Some(Embedded(PERMISSIONS, old(text).value, content)) else None
    {
      if text.None? {
        return false;
      }
      var existing := text.value;
      var m := PERMISSIONS;
      var block := m.start + "\n" + TrimEnd(content) + "\n" + m.end;
      if Contains(existing, m.start) {
        text := Some(ReplaceBlock(m, existing, block));
      } else {
        text := Some(TrimEnd(existing) + "\n\n" + block + "\n");
      }
      return true;
    }

    method StripPermissionsBlock() returns (stripped: bool)
      modifies this
      ensures stripped == (old(text).Some? && Contains(old(text).value, PERMISSIONS.start))
      ensures text == if old(text).Some? then Some(Stripped(PERMISSIONS, old(text).value)) else None
    {
      if text.None? || !Contains(text.value, PERMISSIONS.start) {
        return false;
      }
      text := Some(TrimEnd(Collapse(ReplaceBlock(PERMISSIONS, text.value, ""))) + "\n");
      return true;
    }
  }
}
