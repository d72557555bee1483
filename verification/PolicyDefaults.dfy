/** When a policy text allows what it does not list: only if it says so, and else never. */
module PolicyDefaults {
  import opened Wrappers
  import opened Text
  import opened Lines
  import opened PolicyYaml
  import opened PolicyGrammar

  // ----- what a line says

  /** What a line says about the default: that a section starts, which effect it holds, or nothing. */
  datatype Saying = OpensDefaults | OpensOther | SaysAllow | SaysDeny | SaysNothing

  ghost function SayingOf(line: string): Saying {
    var raw := Uncommented(line);
    if AllSpace(raw) then SaysNothing
    else if raw[0] != ' ' then if FieldIs(raw, "defaults", "") then OpensDefaults else OpensOther
    else if HoldsEffect(raw, "allow") then SaysAllow
    else if HoldsEffect(raw, "deny") then SaysDeny
    else SaysNothing
  }

  /** Behind its blanks the line is an `effect` field with this value. */
  ghost predicate HoldsEffect(raw: string, word: string) {
    exists n: nat, value :: EffectAt(raw, n, value) && Denotes(value, word)
  }

  ghost predicate EffectAt(raw: string, n: nat, value: string) {
    IndentedBy(raw, n) && n < |raw| && FieldIs(raw[n..], "effect", value)
  }

  ghost function Sayings(lines: seq<string>): (says: seq<Saying>)
    ensures |says| == |lines| && forall i | 0 <= i < |lines| :: says[i] == SayingOf(lines[i])
  {
    seq(|lines|, i requires 0 <= i < |lines| => SayingOf(lines[i]))
  }

  /** The last section that starts before line `k` is `defaults:`. */
  predicate InDefaults(says: seq<Saying>, k: nat)
    requires k <= |says|
  {
    exists j | 0 <= j < k ::
      says[j] == OpensDefaults && forall m | j < m < k :: says[m] != OpensDefaults && says[m] != OpensOther
  }

  predicate Sets(says: seq<Saying>, k: nat, saying: Saying) {
    k < |says| && says[k] == saying && InDefaults(says, k)
  }

  /** Among the first `n` lines one of a `defaults:` section allows, and none behind it denies. */
  predicate LastAllows(says: seq<Saying>, n: nat)
    requires n <= |says|
  {
    exists k | 0 <= k < n :: Sets(says, k, SaysAllow) && forall m | k < m < n :: !Sets(says, m, SaysDeny)
  }

  // ----- what a line does to the default

  /** What such a line does to section and default. */
  predicate Moves(st: ParseState, saying: Saying, next: ParseState) {
    && (saying == OpensDefaults ==> next.section == Defaults)
    && (saying == OpensOther ==> next.section != Defaults)
    && (saying != OpensDefaults && saying != OpensOther ==> next.section == st.section)
    && next.defaults == if st.section == Defaults && saying == SaysAllow then Some(DefaultAllow)
                        else if st.section == Defaults && saying == SaysDeny then Some(DefaultDeny)
                        else st.defaults
  }

  lemma SayingMoves(st: ParseState, line: string, next: ParseState)
    requires LineDoes(st, Uncommented(line), next)
    ensures Moves(st, SayingOf(line), next)
  {
    var raw := Uncommented(line);
    if !AllSpace(raw) {
      var n: nat :| IndentedBy(raw, n) && ContentDoes(st, raw, n, next);
      if n == 0 {
        TopSetsSection(st, raw, next);
      } else if st.section == Defaults {
        EffectSetsDefault(st, raw, n, next);
      }
    }
  }

  lemma TopSetsSection(st: ParseState, body: string, next: ParseState)
    requires TopDoes(st, body, next)
    ensures next.section == Defaults <==> FieldIs(body, "defaults", "")
    ensures next.defaults == st.defaults
  {
    KeysDiffer();
    if FieldIs(body, "defaults", "") {
      FieldIff(body, "defaults", "");
      forall key, value | FieldIs(body, key, value)
        ensures key == "defaults"
      {
        FieldIff(body, key, value);
      }
    }
  }

  lemma EffectSetsDefault(st: ParseState, raw: string, n: nat, next: ParseState)
    requires IndentedBy(raw, n) && n < |raw| && DefaultDoes(st, raw[n..], next)
    ensures next.section == st.section
    ensures if HoldsEffect(raw, "allow") then next.defaults == Some(DefaultAllow)
            else HoldsEffect(raw, "deny") && next.defaults == Some(DefaultDeny)
  {
    var value :| FieldIs(raw[n..], "effect", value) &&
      (|| (Denotes(value, "allow") && next == st.(defaults := Some(DefaultAllow)))
       || (Denotes(value, "deny") && next == st.(defaults := Some(DefaultDeny))));
    assert EffectAt(raw, n, value);
    if Denotes(value, "deny") && HoldsEffect(raw, "allow") {
      var k: nat, other :| EffectAt(raw, k, other) && Denotes(other, "allow");
      OneEffect(raw, n, value, k, other);
      OneWord(raw[n..], value);
    }
  }

  lemma OneEffect(raw: string, n: nat, value: string, k: nat, other: string)
    requires EffectAt(raw, n, value) && EffectAt(raw, k, other)
    ensures k == n && other == value
  {
    IndentIff(raw, n);
    IndentIff(raw, k);
    FieldIff(raw[n..], "effect", value);
    FieldIff(raw[n..], "effect", other);
  }

  lemma OneWord(body: string, value: string)
    requires FieldIs(body, "effect", value)
    ensures !(Denotes(value, "allow") && Denotes(value, "deny"))
  {
    KeysDiffer();
    FieldIff(body, "effect", value);
    SplitIsTrimmed(body);
    DenotesIff(value, "allow");
    DenotesIff(value, "deny");
  }

  // ----- whole texts

  lemma InDefaultsNext(says: seq<Saying>, i: nat)
    requires 0 < i <= |says|
    ensures InDefaults(says, i)
       <==> says[i - 1] == OpensDefaults || (says[i - 1] != OpensOther && InDefaults(says, i - 1))
  {
    if j :| 0 <= j < i - 1 && says[j] == OpensDefaults
            && forall m | j < m < i - 1 :: says[m] != OpensDefaults && says[m] != OpensOther {
      if says[i - 1] != OpensDefaults && says[i - 1] != OpensOther {
        assert forall m | j < m < i :: says[m] != OpensDefaults && says[m] != OpensOther;
      }
    }
  }

  lemma LastAllowsNext(says: seq<Saying>, i: nat)
    requires 0 < i <= |says|
    ensures LastAllows(says, i)
       <==> Sets(says, i - 1, SaysAllow) || (!Sets(says, i - 1, SaysDeny) && LastAllows(says, i - 1))
  {
    if LastAllows(says, i) {
      var k :| 0 <= k < i && Sets(says, k, SaysAllow) && forall m | k < m < i :: !Sets(says, m, SaysDeny);
      if k < i - 1 {
        assert forall m | k < m < i - 1 :: !Sets(says, m, SaysDeny);
      }
    }
    if !Sets(says, i - 1, SaysDeny) && LastAllows(says, i - 1) {
      var k :| 0 <= k < i - 1 && Sets(says, k, SaysAllow) && forall m | k < m < i - 1 :: !Sets(says, m, SaysDeny);
      assert forall m | k < m < i :: !Sets(says, m, SaysDeny);
    }
  }

  lemma {:induction false} DefaultIs(says: seq<Saying>, states: seq<ParseState>, i: nat)
    requires |states| == |says| + 1 && i <= |says| && states[0] == START
    requires forall k | 0 <= k < |says| :: Moves(states[k], says[k], states[k + 1])
    ensures states[i].section == Defaults <==> InDefaults(says, i)
    ensures states[i].defaults == Some(DefaultAllow) <==> LastAllows(says, i)
  {
    if i > 0 {
      DefaultIs(says, states, i - 1);
      assert Moves(states[i - 1], says[i - 1], states[i]);
      InDefaultsNext(says, i);
      LastAllowsNext(says, i);
    }
  }

  lemma ReadsMoves(lines: seq<string>, states: seq<ParseState>)
    requires Reads(lines, states)
    ensures forall k | 0 <= k < |lines| :: Moves(states[k], Sayings(lines)[k], states[k + 1])
  {
    forall k | 0 <= k < |lines|
      ensures Moves(states[k], SayingOf(lines[k]), states[k + 1])
    {
      SayingMoves(states[k], lines[k], states[k + 1]);
    }
  }

  lemma ReadsDefault(lines: seq<string>, states: seq<ParseState>)
    requires Reads(lines, states)
    ensures states[|lines|].defaults == Some(DefaultAllow) <==> LastAllows(Sayings(lines), |lines|)
  {
    ReadsMoves(lines, states);
    DefaultIs(Sayings(lines), states, |lines|);
  }

  lemma DefaultOfEnd(st: ParseState, doc: Doc)
    requires EndsWith(st, doc)
    ensures doc.defaults == if st.defaults == Some(DefaultAllow) then DefaultAllow else DefaultDeny
  {
  }

  /**
   An accepted text allows what it does not list exactly when some line of a `defaults:` section is an
   effect that allows and no later one denies; in every other text, one without such a section
   included, the default denies.
   */
  lemma AllowsOnlyIfSaid(source: string)
    requires Parse(source).Success?
    ensures Parse(source).value.defaults
         == if LastAllows(Sayings(SplitLines(source)), |SplitLines(source)|) then DefaultAllow else DefaultDeny
  {
    var lines, doc := SplitLines(source), Parse(source).value;
    ParseIff(source, doc);
    var states :| Reads(lines, states) && EndsWith(states[|states| - 1], doc);
    ReadsDefault(lines, states);
    DefaultOfEnd(states[|lines|], doc);
  }
}
