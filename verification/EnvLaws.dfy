/** What the key file holds after writes, character by character. */
module EnvLaws {
  import opened Sequences
  import opened Blocks
  import opened EnvFile

  // ----- names of variables

  /** Two letters that differ in case only; every other character is alike only to itself. */
  predicate SameLetter(a: char, b: char) {
    || a == b
    || ('a' <= a <= 'z' && b as int == a as int - 32)
    || ('a' <= b <= 'z' && a as int == b as int - 32)
  }

  predicate IsDash(c: char) {
    c == '-' || c == '_'
  }

  predicate SameId(a: string, b: string) {
    |a| == |b| && forall i | 0 <= i < |a| :: SameLetter(a[i], b[i]) || (IsDash(a[i]) && IsDash(b[i]))
  }

  /** No small letter and no dash. */
  predicate IsUpper(s: string) {
    forall i | 0 <= i < |s| :: s[i] != '-' && !('a' <= s[i] <= 'z')
  }

  /** Two agents share a variable exactly when their ids are the same up to case and to dash or underscore. */
  lemma NamesCollide(a: string, b: string)
    ensures VarName(a) == VarName(b) <==> SameId(a, b)
  {
    var p := "AGENTVALET_PRIVATE_KEY_";
    UpperAlike(a, b);
    assert VarName(a)[|p|..] == Uppered(a) && VarName(b)[|p|..] == Uppered(b);
    assert VarName(a) == p + Uppered(a) && VarName(b) == p + Uppered(b);
  }

  function Uppered(s: string): string {
    seq(|s|, i requires 0 <= i < |s| => Upper(s[i]))
  }

  lemma UpperAlike(a: string, b: string)
    ensures Uppered(a) == Uppered(b) <==> SameId(a, b)
  {
    assert forall c, d :: Upper(c) == Upper(d) <==> SameLetter(c, d) || (IsDash(c) && IsDash(d));
    if Uppered(a) == Uppered(b) {
      assert forall i | 0 <= i < |a| :: Upper(a[i]) == Uppered(a)[i] && Uppered(b)[i] == Upper(b[i]);
    }
    if SameId(a, b) {
      assert forall i | 0 <= i < |a| :: Upper(a[i]) == Upper(b[i]);
    }
  }

  /** A variable is the prefix and an upper-case name, and an id that is one already stands as it is. */
  lemma NameIsUpper(agentId: string)
    ensures exists upper ::
      IsUpper(upper) && SameId(agentId, upper) && VarName(agentId) == "AGENTVALET_PRIVATE_KEY_" + upper
    ensures IsUpper(agentId) ==> VarName(agentId) == "AGENTVALET_PRIVATE_KEY_" + agentId
  {
    var upper := Uppered(agentId);
    assert forall i | 0 <= i < |agentId| :: upper[i] == Upper(agentId[i]);
    assert IsUpper(upper) && SameId(agentId, upper);
    if IsUpper(agentId) {
      assert upper == agentId;
    }
  }

  // ----- the entry

  /**
   A write ends the file with a comment that names the agent and the assignment of the key; without
   the variable's name in the file everything in front of that stays as it was.
   */
  lemma FileEndsWithEntry(existing: string, agentId: string, key: string)
    ensures exists left ::
      && Written(existing, agentId, key)
         == left + "\n# AgentValet private key for " + agentId + " (base64-encoded PEM)\n"
            + VarName(agentId) + "=" + key + "\n"
      && (!Contains(existing, VarName(agentId)) ==> left == existing)
  {
    var left := if Contains(existing, VarName(agentId)) then JoinLines(Kept(existing, VarName(agentId))) else existing;
    EntryText(left, agentId, VarName(agentId), key, "\n# AgentValet private key for ", " (base64-encoded PEM)\n");
  }

  lemma EntryText(left: string, agentId: string, name: string, key: string, head: string, tail: string)
    requires head == "\n# AgentValet private key for " && tail == " (base64-encoded PEM)\n"
    ensures left + ("\n" + ("# AgentValet private key for " + agentId + " (base64-encoded PEM)") + "\n"
                    + (name + "=" + key) + "\n")
         == left + head + agentId + tail + name + "=" + key + "\n"
  {
  }

  /** The line and no other starts with the variable and an equals sign, and the key stands behind that. */
  predicate HoldsKey(text: string, name: string, key: string) {
    exists i | 0 <= i < |LinesOf(text)| ::
      && LinesOf(text)[i] == name + "=" + key
      && forall j | 0 <= j < |LinesOf(text)| && j != i :: !(name + "=" <= LinesOf(text)[j])
  }

  /** After any writes the file holds, for each variable, the last key written to it. */
  lemma LastKeyIsHeld(text: string, writes: seq<Write>, k: nat)
    requires k < |writes| && forall i | 0 <= i < |writes| :: Writable(writes[i].agentId, writes[i].key)
    requires forall i | k < i < |writes| :: !SameId(writes[i].agentId, writes[k].agentId)
    ensures HoldsKey(AfterWrites(text, writes), VarName(writes[k].agentId), writes[k].key)
  {
    forall i | k < i < |writes|
      ensures VarName(writes[i].agentId) != VarName(writes[k].agentId)
    {
      NamesCollide(writes[i].agentId, writes[k].agentId);
    }
    LastKeyStands(text, writes, k);
    var name := VarName(writes[k].agentId);
    var lines := LinesOf(AfterWrites(text, writes));
    var i := OnlyMember(lines, Own(name), Assignment(writes[k].agentId, writes[k].key));
    assert forall j | 0 <= j < |lines| && j != i :: !Own(name)(lines[j]);
  }

  /** What alone satisfies a predicate stands in one place. */
  lemma {:induction false} OnlyMember<T>(s: seq<T>, p: T -> bool, x: T) returns (i: nat)
    requires Filter(s, p) == [x]
    ensures i < |s| && s[i] == x
    ensures forall j | 0 <= j < |s| && j != i :: !p(s[j])
    decreases |s|
  {
    var most, last := s[..|s| - 1], s[|s| - 1];
    if p(last) {
      assert (Filter(most, p) + [last])[|Filter(most, p)|] == last;
      i := |s| - 1;
      NoMember(most, p);
      assert forall j | 0 <= j < i :: s[j] == most[j];
    } else {
      i := OnlyMember(most, p, x);
      assert forall j | 0 <= j < |most| :: s[j] == most[j];
    }
  }

  lemma {:induction false} NoMember<T>(s: seq<T>, p: T -> bool)
    requires Filter(s, p) == []
    ensures forall j | 0 <= j < |s| :: !p(s[j])
    decreases |s|
  {
    if s != [] {
      NoMember(s[..|s| - 1], p);
    }
  }
}
