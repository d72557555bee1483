/** What embedding and stripping a block do to the text around it. */
module BlockLaws {
  import opened Wrappers
  import opened Text
  import opened Blocks

  // ----- markers

  /** A marker starts with its only '<', ends in '>', and has no line break and no '$'. */
  predicate IsMarker(m: string) {
    && m != [] && m[0] == '<' && m[|m| - 1] == '>'
    && forall i | 1 <= i < |m| :: m[i] !in {'<', '\n', '$'}
  }

  predicate Usable(m: Markers) {
    IsMarker(m.start) && IsMarker(m.end)
  }

  lemma StartIsMarker()
    ensures IsMarker(PERMISSIONS.start)
  {
  }

  lemma EndIsMarker()
    ensures IsMarker(PERMISSIONS.end)
  {
  }

  /** The laws below are stated for any usable markers; these are the ones in use. */
  lemma PermissionsAreUsable()
    ensures Usable(PERMISSIONS)
  {
    StartIsMarker();
    EndIsMarker();
  }

  /** A marker put behind a text without it is where the text is cut, no matter what follows. */
  lemma CutAtMarker(before: string, m: string, after: string)
    requires IsMarker(m) && !Contains(before, m)
    ensures Cut(before + m + after, m) == Some((before, after))
  {
    var s := before + m + after;
    assert s[|before|..|before| + |m|] == m;
    assert OccursAt(s, m, |before|) && s[|before|] == '<';
    OccurrenceReads(s, m);
    forall k: nat | k < |before|
      ensures !OccursAt(s, m, k)
    {
      if k + |m| <= |before| {
        assert before[k..k + |m|] == s[k..k + |m|];
        assert !OccursAt(before, m, k);
      }
    }
    FindIs(s, m, 0, |before|);
    assert s[..|before|] == before && s[|before| + |m|..] == after;
  }

  lemma OccurrenceReads(s: string, m: string)
    ensures forall k: nat, n: nat | OccursAt(s, m, k) && k <= n < k + |m| :: s[n] == m[n - k]
  {
    forall k: nat, n: nat | OccursAt(s, m, k) && k <= n < k + |m|
      ensures s[n] == m[n - k]
    {
      assert s[k..k + |m|][n - k] == s[n];
    }
  }

  /** What the search finds is the first occurrence. */
  lemma {:induction false} FindIsFirst(s: string, m: string, i: nat)
    requires i <= |s|
    ensures match Find(s, m, i)
            case None => forall k: nat | i <= k <= |s| :: !OccursAt(s, m, k)
            case Some(n) => OccursAt(s, m, n) && forall k: nat | i <= k < n :: !OccursAt(s, m, k)
    decreases |s| - i
  {
    if !OccursAt(s, m, i) && i < |s| {
      FindIsFirst(s, m, i + 1);
    }
  }

  lemma {:induction false} FindIs(s: string, m: string, from: nat, i: nat)
    requires from <= i <= |s| && OccursAt(s, m, i) && forall k: nat | from <= k < i :: !OccursAt(s, m, k)
    ensures Find(s, m, from) == Some(i)
    decreases i - from
  {
    if from < i {
      FindIs(s, m, from + 1, i);
    }
  }

  lemma CutFails(s: string, m: string)
    ensures Cut(s, m).None? <==> !Contains(s, m)
  {
    FindIsFirst(s, m, 0);
  }

  lemma CutIsFirst(s: string, m: string)
    requires m != [] && Cut(s, m).Some?
    ensures var (before, after) := Cut(s, m).value; s == before + m + after && !Contains(before, m)
  {
    var i := Find(s, m, 0).value;
    var before := s[..i];
    FindIsFirst(s, m, 0);
    forall k: nat | k <= i
      ensures !OccursAt(before, m, k)
    {
      if k + |m| <= i {
        assert before[k..k + |m|] == s[k..k + |m|];
        assert !OccursAt(s, m, k);
      }
    }
  }

  // ----- blocks

  function Whole(m: Markers, p: Parts): string {
    p.before + m.start + (p.inside + m.end + p.after)
  }

  /** Parts as the search for the first block finds them. */
  predicate IsFirst(m: Markers, p: Parts) {
    !Contains(p.before, m.start) && !Contains(p.inside, m.end)
  }

  lemma FirstBlockOf(m: Markers, p: Parts)
    requires Usable(m) && IsFirst(m, p)
    ensures FirstBlock(m, Whole(m, p)) == Some(p)
  {
    CutAtMarker(p.before, m.start, p.inside + m.end + p.after);
    CutAtMarker(p.inside, m.end, p.after);
  }

  lemma FirstBlockIsFirst(m: Markers, s: string)
    requires Usable(m) && FirstBlock(m, s).Some?
    ensures s == Whole(m, FirstBlock(m, s).value) && IsFirst(m, FirstBlock(m, s).value)
  {
    CutIsFirst(s, m.start);
    CutIsFirst(Cut(s, m.start).value.1, m.end);
  }

  // ----- replacement texts

  predicate SpecialAt(r: string, i: nat) {
    i + 1 < |r| && r[i] == '$' && r[i + 1] in {'$', '&', '`', '\''}
  }

  predicate NoSpecials(r: string) {
    forall i | 0 <= i < |r| :: !SpecialAt(r, i)
  }

  lemma {:induction false} ExpandIs(m: Markers, r: string, p: Parts)
    requires NoSpecials(r)
    ensures Expand(m, r, p) == r
    decreases |r|
  {
    if |r| >= 2 {
      assert !SpecialAt(r, 0);
      forall i | 0 <= i < |r| - 1 ensures !SpecialAt(r[1..], i) {
        assert !SpecialAt(r, i + 1);
      }
      ExpandIs(m, r[1..], p);
    }
  }

  /** The markers add no pattern and hide none. */
  lemma SpecialsOfBlock(m: Markers, content: string)
    requires Usable(m)
    ensures NoSpecials(Block(m, content)) <==> NoSpecials(TrimEnd(content))
  {
    var t, b := TrimEnd(content), Block(m, content);
    var n := |m.start| + 1;
    assert b[n..n + |t|] == t;
    if NoSpecials(b) {
      forall i: nat | i < |t|
        ensures !SpecialAt(t, i)
      {
        assert !SpecialAt(b, n + i);
      }
    } else if NoSpecials(t) {
      BlockHasNoSpecials(m, content);
    }
  }

  lemma BlockHasNoSpecials(m: Markers, content: string)
    requires Usable(m) && NoSpecials(TrimEnd(content))
    ensures NoSpecials(Block(m, content))
  {
    var t, b := TrimEnd(content), Block(m, content);
    var n := |m.start| + 1;
    forall i: nat | i < |b|
      ensures !SpecialAt(b, i)
    {
      if n <= i < n + |t| {
        assert !SpecialAt(t, i - n);
        assert b[i] == t[i - n];
        assert i + 1 < n + |t| ==> b[i + 1] == t[i + 1 - n];
      }
    }
  }

  // ----- embedding

  /** What embedding leaves around the block: `None` for a start marker that is never closed. */
  function Frame(m: Markers, s: string): Option<(string, string)> {
    if !Contains(s, m.start) then Some((TrimEnd(s) + "\n\n", "\n"))
    else
      match FirstBlock(m, s)
      case None => None
      case Some(p) => Some((p.before, p.after))
  }

  /** A marker does not occur in white space behind a text without it. */
  lemma SpacesHideNoMarker(s: string, spaces: string, m: string)
    requires IsMarker(m) && !Contains(s, m) && AllSpace(spaces)
    ensures !Contains(s + spaces, m)
  {
    var t := s + spaces;
    OccurrenceReads(t, m);
    forall k: nat | k <= |t|
      ensures !OccursAt(t, m, k)
    {
      if k + |m| <= |s| {
        assert s[k..k + |m|] == t[k..k + |m|];
        assert !OccursAt(s, m, k);
      } else if k + |m| <= |t| {
        assert IsSpace(t[k + |m| - 1]);
      }
    }
  }

  lemma PrefixHidesNoMarker(s: string, n: nat, m: string)
    requires n <= |s| && !Contains(s, m)
    ensures !Contains(s[..n], m)
  {
    forall k: nat | k <= n
      ensures !OccursAt(s[..n], m, k)
    {
      if k + |m| <= n {
        assert s[..n][k..k + |m|] == s[k..k + |m|];
        assert !OccursAt(s, m, k);
      }
    }
  }

  lemma FrameHasNoStart(m: Markers, s: string)
    requires Usable(m) && Frame(m, s).Some?
    ensures !Contains(Frame(m, s).value.0, m.start)
  {
    if Contains(s, m.start) {
      FirstBlockIsFirst(m, s);
    } else {
      TrimEndIs(s);
      PrefixHidesNoMarker(s, |TrimEnd(s)|, m.start);
      assert s[..|TrimEnd(s)|] == TrimEnd(s);
      SpacesHideNoMarker(TrimEnd(s), "\n\n", m.start);
    }
  }

  /**
   Embedding writes the block into its frame: the text before and after a complete block is kept
   as it is, a document without a block gets one behind its text, and a document whose start
   marker is never closed stays as it is. Patterns in the content matter only where a block is
   replaced.
   */
  lemma EmbeddedIn(m: Markers, s: string, content: string)
    requires Usable(m) && (FirstBlock(m, s).Some? ==> NoSpecials(TrimEnd(content)))
    ensures Embedded(m, s, content)
         == match Frame(m, s) case None => s case Some((before, after)) => before + Block(m, content) + after
  {
    CutFails(s, m.start);
    if FirstBlock(m, s).Some? {
      SpecialsOfBlock(m, content);
      ExpandIs(m, Block(m, content), FirstBlock(m, s).value);
    }
  }

  predicate NoEnd(m: Markers, content: string) {
    !Contains(TrimEnd(content), m.end)
  }

  lemma BlockInFrame(m: Markers, before: string, content: string, after: string)
    ensures before + Block(m, content) + after
         == Whole(m, Parts(before, "\n" + TrimEnd(content) + "\n", after))
  {
  }

  /** A block put into a frame is found again in that frame, unless its content closes it. */
  lemma FrameOfBlock(m: Markers, before: string, content: string, after: string)
    requires Usable(m) && !Contains(before, m.start) && NoEnd(m, content)
    ensures Contains(before + Block(m, content) + after, m.start)
    ensures FirstBlock(m, before + Block(m, content) + after)
         == Some(Parts(before, "\n" + TrimEnd(content) + "\n", after))
  {
    var t := TrimEnd(content);
    BlockInFrame(m, before, content, after);
    NewlineHidesNoMarker(t, m.end);
    SpacesHideNoMarker("\n" + t, "\n", m.end);
    FirstBlockOf(m, Parts(before, "\n" + t + "\n", after));
    CutFails(before + Block(m, content) + after, m.start);
  }

  lemma NewlineHidesNoMarker(s: string, m: string)
    requires IsMarker(m) && !Contains(s, m)
    ensures !Contains("\n" + s, m)
  {
    var t := "\n" + s;
    forall k: nat | k <= |t|
      ensures !OccursAt(t, m, k)
    {
      if k > 0 && k + |m| <= |t| {
        assert s[k - 1..k - 1 + |m|] == t[k..k + |m|];
        assert !OccursAt(s, m, k - 1);
      } else if k == 0 && |m| <= |t| {
        assert t[0..|m|][0] == '\n';
      }
    }
  }

  lemma Regrouped(nl: string, inside: string, end: string, tail: string, after: string)
    ensures nl + (inside + end + tail) + nl + end + after == nl + inside + end + (tail + nl + end + after)
  {
  }

  /** Content that holds an end marker leaves its tail behind in the frame. */
  lemma FrameOfClosedBlock(m: Markers, before: string, content: string, after: string)
    requires Usable(m) && !Contains(before, m.start) && !NoEnd(m, content)
    ensures var s := before + Block(m, content) + after;
      && Contains(s, m.start) && FirstBlock(m, s).Some?
      && FirstBlock(m, s).value.before == before && |FirstBlock(m, s).value.after| > |after|
  {
    var rest := RestOfClosedBlock(m, before, content, after);
    CutFails(before + Block(m, content) + after, m.start);
  }

  /** Embedding one content and then another is embedding the other. */
  predicate Wins(m: Markers, s: string, first: string, second: string) {
    Embedded(m, Embedded(m, s, first), second) == Embedded(m, s, second)
  }

  /**
   The last write wins exactly when the first content holds no end marker or the document has a
   start marker that is never closed. A content has to be free of patterns only where it replaces a
   block: the first if the document has one, the second unless the document takes none at all.
   */
  lemma LastWriteWins(m: Markers, s: string, first: string, second: string)
    requires Usable(m)
    requires FirstBlock(m, s).Some? ==> NoSpecials(TrimEnd(first))
    requires Frame(m, s).Some? ==> NoSpecials(TrimEnd(second))
    ensures Wins(m, s, first, second) <==> Frame(m, s).None? || NoEnd(m, first)
  {
    CutFails(s, m.start);
    EmbeddedIn(m, s, first);
    EmbeddedIn(m, s, second);
    if Frame(m, s).Some? {
      var (before, after) := Frame(m, s).value;
      var once := before + Block(m, first) + after;
      FrameHasNoStart(m, s);
      EmbeddedIn(m, once, second);
      if NoEnd(m, first) {
        FrameOfBlock(m, before, first, after);
      } else {
        FrameOfClosedBlock(m, before, first, after);
      }
    }
  }

  // ----- contents with patterns

  /** What a pattern of the replacement text stands for. */
  function Meaning(m: Markers, c: char, p: Parts): string {
    if c == '&' then m.start + p.inside + m.end
    else if c == '`' then p.before
    else if c == '\'' then p.after
    else "$"
  }

  /** A content with one pattern is written with the pattern's meaning in its place. */
  lemma PatternIsExpanded(m: Markers, p: Parts, content: string, head: string, c: char, tail: string)
    requires Usable(m) && IsFirst(m, p)
    requires TrimEnd(content) == head + (['$', c] + tail) && c in {'$', '&', '`', '\''}
    requires '$' !in head && '$' !in tail
    ensures Embedded(m, Whole(m, p), content)
         == p.before + (m.start + "\n" + head + (Meaning(m, c, p) + (tail + ("\n" + m.end)))) + p.after
  {
    FirstBlockOf(m, p);
    EmbeddedReplaces(m, Whole(m, p), content, p);
    BlockParts(m, content);
    NoDollar(m.start);
    NoDollar(m.end);
    ConcatAssoc(m.start + "\n", head, ['$', c] + tail + ("\n" + m.end));
    ConcatAssoc(head, ['$', c] + tail, "\n" + m.end);
    ConcatAssoc(['$', c], tail, "\n" + m.end);
    ExpandOne(m, m.start + "\n" + head, c, tail + ("\n" + m.end), p);
  }

  lemma ExpandOne(m: Markers, head: string, c: char, tail: string, p: Parts)
    requires '$' !in head && '$' !in tail && c in {'$', '&', '`', '\''}
    ensures Expand(m, head + (['$', c] + tail), p) == head + (Meaning(m, c, p) + tail)
  {
    ExpandPlainPrefix(m, head, ['$', c] + tail, p);
    assert (['$', c] + tail)[2..] == tail;
    assert NoSpecials(tail);
    ExpandIs(m, tail, p);
  }

  /** The second characters of the patterns that the replacement meets from left to right. */
  function Patterns(r: string): set<char> {
    if |r| < 2 then {}
    else if SpecialAt(r, 0) then {r[1]} + Patterns(r[2..])
    else Patterns(r[1..])
  }

  lemma {:induction false} NoPatterns(r: string)
    ensures Patterns(r) <= {'$', '&', '`', '\''}
    ensures Patterns(r) == {} <==> NoSpecials(r)
    decreases |r|
  {
    if |r| >= 2 {
      if SpecialAt(r, 0) {
        NoPatterns(r[2..]);
        assert r[1] in Patterns(r);
      } else {
        NoPatterns(r[1..]);
        SpecialsOfTail(r);
      }
    }
  }

  lemma SpecialsOfTail(r: string)
    requires r != [] && !SpecialAt(r, 0)
    ensures NoSpecials(r[1..]) <==> NoSpecials(r)
  {
    if NoSpecials(r) {
      forall i: nat | i < |r| - 1
        ensures !SpecialAt(r[1..], i)
      {
        assert !SpecialAt(r, i + 1);
      }
    } else {
      var i: nat :| i < |r| && SpecialAt(r, i);
      assert SpecialAt(r[1..], i - 1);
    }
  }

  /**
   How long a text with patterns becomes: at least as long as the old block or as what is before it
   if it asks for them, and shorter than it was if it asks for neither and little comes after.
   */
  lemma {:induction false} ExpandedLength(m: Markers, r: string, p: Parts)
    ensures '&' in Patterns(r) ==> |Expand(m, r, p)| >= |p.inside|
    ensures '`' in Patterns(r) ==> |Expand(m, r, p)| >= |p.before|
    ensures '&' !in Patterns(r) && '`' !in Patterns(r) && |p.after| <= 1 ==>
      |Expand(m, r, p)| <= |r| && (Patterns(r) != {} ==> |Expand(m, r, p)| < |r|)
    decreases |r|
  {
    if |r| >= 2 {
      if SpecialAt(r, 0) {
        ExpandedLength(m, r[2..], p);
        assert r[1] in Patterns(r);
      } else {
        ExpandedLength(m, r[1..], p);
      }
    }
  }

  /** The content stands in the place of the block of this document, as it is. */
  predicate WrittenAsItIs(m: Markers, p: Parts, content: string) {
    Embedded(m, Whole(m, p), content) == p.before + Block(m, content) + p.after
  }

  /** A content is written as it is into every document with a block exactly when it has no pattern. */
  lemma VerbatimIffNoPatterns(m: Markers, content: string)
    requires Usable(m)
    ensures NoSpecials(TrimEnd(content)) <==> forall p | IsFirst(m, p) :: WrittenAsItIs(m, p, content)
  {
    if NoSpecials(TrimEnd(content)) {
      forall p | IsFirst(m, p)
        ensures WrittenAsItIs(m, p, content)
      {
        FirstBlockOf(m, p);
        CutFails(Whole(m, p), m.start);
        EmbeddedIn(m, Whole(m, p), content);
      }
    } else {
      var r := Block(m, content);
      var blanks := Blanks(m, |r| + 1);
      var p := Parts(blanks, blanks, []);
      SpecialsOfBlock(m, content);
      NoPatterns(r);
      ExpandedLength(m, r, p);
      FirstBlockOf(m, p);
      EmbeddedReplaces(m, Whole(m, p), content, p);
      assert !WrittenAsItIs(m, p, content);
    }
  }

  /** Blanks, which hold no marker. */
  lemma Blanks(m: Markers, n: nat) returns (blanks: string)
    requires Usable(m)
    ensures |blanks| == n && !Contains(blanks, m.start) && !Contains(blanks, m.end)
  {
    blanks := seq(n, _ => ' ');
    SpacesHideNoMarker([], blanks, m.start);
    SpacesHideNoMarker([], blanks, m.end);
    assert [] + blanks == blanks;
  }

  /**
   After a content without patterns or end marker, the last write wins in every document exactly
   when its content has no pattern.
   */
  lemma LastWriteWinsIffNoPatterns(m: Markers, first: string, second: string)
    requires Usable(m) && NoSpecials(TrimEnd(first)) && NoEnd(m, first)
    ensures NoSpecials(TrimEnd(second)) <==> forall s :: Wins(m, s, first, second)
  {
    if NoSpecials(TrimEnd(second)) {
      forall s ensures Wins(m, s, first, second) {
        LastWriteWins(m, s, first, second);
      }
    } else {
      SpecialsOfBlock(m, second);
      NoPatterns(Block(m, second));
      if '&' in Patterns(Block(m, second)) {
        OldBlockShows(m, first, second);
      } else {
        PatternShows(m, first, second);
      }
    }
  }

  /** A content that asks for the old block tells apart which block it replaced. */
  lemma OldBlockShows(m: Markers, first: string, second: string)
    requires Usable(m) && NoSpecials(TrimEnd(first)) && NoEnd(m, first) && '&' in Patterns(Block(m, second))
    ensures exists s :: !Wins(m, s, first, second)
  {
    var r := Block(m, second);
    var written := Parts([], "\n" + TrimEnd(first) + "\n", []);
    var blanks := Blanks(m, |Expand(m, r, written)| + 1);
    var p := Parts([], blanks, []);
    var s := Whole(m, p);
    FirstBlockOf(m, p);
    CutFails(s, m.start);
    EmbeddedIn(m, s, first);
    FrameOfBlock(m, [], first, []);
    EmbeddedReplaces(m, [] + Block(m, first) + [], second, written);
    EmbeddedReplaces(m, s, second, p);
    ExpandedLength(m, r, p);
    assert !Wins(m, s, first, second);
  }

  /** Any other pattern tells an appended block from one that is replaced. */
  lemma PatternShows(m: Markers, first: string, second: string)
    requires Usable(m) && NoEnd(m, first)
    requires Patterns(Block(m, second)) != {} && '&' !in Patterns(Block(m, second))
    ensures exists s :: !Wins(m, s, first, second)
  {
    var r := Block(m, second);
    var s: string := seq(|r|, _ => 'x');
    var before := TrimEnd(s) + "\n\n";
    NoMarkerInText(m, s);
    CutFails(s, m.start);
    EmbeddedIn(m, s, first);
    EmbeddedIn(m, s, second);
    FrameHasNoStart(m, s);
    FrameOfBlock(m, before, first, "\n");
    var written := Parts(before, "\n" + TrimEnd(first) + "\n", "\n");
    EmbeddedReplaces(m, before + Block(m, first) + "\n", second, written);
    ExpandedLength(m, r, written);
    assert |before + Expand(m, r, written) + "\n"| != |before + r + "\n"|;
    assert !Wins(m, s, first, second);
  }

  lemma NoMarkerInText(m: Markers, s: string)
    requires Usable(m) && '<' !in s
    ensures !Contains(s, m.start)
  {
    OccurrenceReads(s, m.start);
    forall k: nat | k <= |s|
      ensures !OccursAt(s, m.start, k)
    {
      assert k < |s| ==> s[k] in s;
    }
  }

  lemma NoDollar(m: string)
    requires IsMarker(m)
    ensures '$' !in m + "\n" && '$' !in "\n" + m
  {
    assert forall i | 0 <= i < |m| :: m[i] != '$';
  }

  lemma EmbeddedReplaces(m: Markers, s: string, content: string, p: Parts)
    requires FirstBlock(m, s) == Some(p)
    ensures Embedded(m, s, content) == p.before + Expand(m, Block(m, content), p) + p.after
  {
    CutFails(s, m.start);
  }

  lemma BlockParts(m: Markers, content: string)
    ensures Block(m, content) == m.start + "\n" + (TrimEnd(content) + ("\n" + m.end))
  {
  }

  lemma {:induction false} ExpandPlainPrefix(m: Markers, plain: string, r: string, p: Parts)
    requires |r| > 1 && '$' !in plain
    ensures Expand(m, plain + r, p) == plain + Expand(m, r, p)
    decreases |plain|
  {
    if plain == [] {
      assert plain + r == r;
    } else {
      assert (plain + r)[1..] == plain[1..] + r;
      assert (plain + r)[0] == plain[0] && plain[0] in plain;
      ExpandPlainPrefix(m, plain[1..], r, p);
    }
  }

  // ----- stripping

  /** Text that ends in something other than white space collapses apart from what follows. */
  predicate Solid(s: string) {
    s == [] || !IsSpace(s[|s| - 1])
  }

  /** This many line breaks and nothing else. */
  predicate IsBreaks(s: string, n: nat)
    decreases n
  {
    if n == 0 then s == ""
    else || (FeedFirst(s) && IsBreaks(s[1..], n - 1))
         || (ReturnFirst(s) && IsBreaks(s[2..], n - 1))
  }

  predicate FeedFirst(s: string) {
    s != [] && s[0] == '\n'
  }

  predicate ReturnFirst(s: string) {
    |s| > 1 && s[0] == '\r' && s[1] == '\n'
  }

  predicate StartsWithBreak(s: string) {
    FeedFirst(s) || ReturnFirst(s)
  }

  /** No break ends in front of `run`, and none is cut in two. */
  predicate BreaksApart(before: string, run: string) {
    before == "" || (before[|before| - 1] != '\n' && !(before[|before| - 1] == '\r' && FeedFirst(run)))
  }

  /** A text without line breaks is left as it is. */
  lemma {:induction false} LineStays(s: string)
    requires '\n' !in s
    ensures Collapse(s) == s
    decreases |s|
  {
    if s != [] {
      LineStays(s[1..]);
    }
  }

  /** A run of line breaks that is as long as it can be becomes two if it has more, and else stays. */
  lemma RunCollapses(before: string, run: string, n: nat, after: string)
    requires IsBreaks(run, n) && n > 0
    requires BreaksApart(before, run) && !StartsWithBreak(after)
    ensures Collapse(before + run + after) == Collapse(before) + (if n >= 3 then "\n\n" else run) + Collapse(after)
  {
    RunOfBreaks(run, n, after);
    CollapseBehind(before, run + after);
    ConcatAssoc(before, run, after);
    ConcatAssoc(Collapse(before), if n >= 3 then "\n\n" else run, Collapse(after));
    if n >= 3 {
      assert (run + after)[|run|..] == after;
    } else {
      ShortRunStays(run, n, after);
    }
  }

  lemma {:induction false} RunOfBreaks(run: string, n: nat, after: string)
    requires IsBreaks(run, n) && !StartsWithBreak(after)
    ensures BreakRun(run + after) == (n, |run|)
    decreases n
  {
    if n == 0 {
      assert run + after == after;
    } else {
      var k := if FeedFirst(run) then 1 else 2;
      assert (run + after)[k..] == run[k..] + after;
      RunOfBreaks(run[k..], n - 1, after);
    }
  }

  lemma BreakStays(b: string, rest: string)
    requires b == "\n" || b == "\r\n"
    requires BreakRun(rest).0 < 2
    ensures Collapse(b + rest) == b + Collapse(rest)
  {
    var s := b + rest;
    assert ("\n" + rest)[1..] == rest && s[|b|..] == rest;
    assert Collapse("\n" + rest) == "\n" + Collapse(rest);
    if b == "\r\n" {
      assert s[1..] == "\n" + rest;
    }
  }

  lemma {:induction false} ShortRunStays(run: string, n: nat, after: string)
    requires IsBreaks(run, n) && n < 3 && !StartsWithBreak(after)
    ensures Collapse(run + after) == run + Collapse(after)
    decreases n
  {
    if n == 0 {
      assert run + after == after && run + Collapse(after) == Collapse(after);
    } else {
      var k := if FeedFirst(run) then 1 else 2;
      var b, rest := run[..k], run[k..];
      RunOfBreaks(rest, n - 1, after);
      BreakStays(b, rest + after);
      ShortRunStays(rest, n - 1, after);
      assert run == b + rest;
      ConcatAssoc(b, rest, after);
      ConcatAssoc(b, rest, Collapse(after));
    }
  }

  lemma {:induction false} BreakRunEnds(s: string, rest: string)
    requires s != [] && BreaksApart(s, rest)
    ensures BreakRun(s + rest) == BreakRun(s) && BreakRun(s).1 < |s|
    decreases |s|
  {
    assert (s + rest)[1..] == s[1..] + rest;
    assert |s| > 1 ==> (s + rest)[2..] == s[2..] + rest;
    if s[0] == '\n' {
      BreakRunEnds(s[1..], rest);
    } else if |s| > 1 && s[0] == '\r' && s[1] == '\n' {
      BreakRunEnds(s[2..], rest);
    }
  }

  lemma SkipInFront(s: string, rest: string, skip: nat)
    requires skip <= |s| && BreaksApart(s, rest)
    ensures (s + rest)[skip..] == s[skip..] + rest && BreaksApart(s[skip..], rest)
    ensures s != [] ==> (s + rest)[0] == s[0]
  {
  }

  lemma {:induction false} CollapseBehind(s: string, rest: string)
    requires BreaksApart(s, rest)
    ensures Collapse(s + rest) == Collapse(s) + Collapse(rest)
    decreases |s|
  {
    if s == [] {
      assert s + rest == rest;
    } else {
      BreakRunEnds(s, rest);
      var (n, length) := BreakRun(s);
      var skip := if n >= 3 then length else 1;
      SkipInFront(s, rest, skip);
      CollapseBehind(s[skip..], rest);
      ConcatAssoc(if n >= 3 then "\n\n" else [s[0]], Collapse(s[skip..]), Collapse(rest));
    }
  }

  lemma {:induction false} CollapseKeepsSpace(s: string)
    requires AllSpace(s)
    ensures AllSpace(Collapse(s))
    decreases |s|
  {
    if s != [] {
      var (n, length) := BreakRun(s);
      CollapseKeepsSpace(s[if n >= 3 then length else 1..]);
    }
  }

  lemma {:induction false} CollapseKeepsSolid(s: string)
    requires Solid(s)
    ensures Solid(Collapse(s)) && (s != [] ==> Collapse(s) != [])
    decreases |s|
  {
    if s != [] {
      BreakRunEnds(s, []);
      assert s + [] == s;
      var (n, length) := BreakRun(s);
      var skip := if n >= 3 then length else 1;
      CollapseKeepsSolid(s[skip..]);
    }
  }

  /** Collapsing and then trimming is trimming and then collapsing. */
  lemma CollapseAndTrim(s: string)
    ensures TrimEnd(Collapse(s)) == Collapse(TrimEnd(s))
  {
    var t := TrimEnd(s);
    TrimEndIs(s);
    assert s == t + s[|t|..];
    CollapseBehind(t, s[|t|..]);
    CollapseKeepsSpace(s[|t|..]);
    CollapseKeepsSolid(t);
    TrimEndPadded(Collapse(t), Collapse(s[|t|..]));
  }

  /**
   Stripping after embedding into a document without a block gives the document back, with runs of
   line breaks collapsed, trailing white space gone and one final line break, exactly when the content
   holds no end marker; of a content that does its tail stays behind.
   */
  lemma StripUndoesEmbed(m: Markers, s: string, content: string)
    requires Usable(m) && !Contains(s, m.start)
    ensures Stripped(m, Embedded(m, s, content)) == TrimEnd(Collapse(s)) + "\n" <==> NoEnd(m, content)
  {
    FrameHasNoStart(m, s);
    if NoEnd(m, content) {
      StripBlock(m, s, "\n\n", content, "\n");
    } else {
      TailStaysBehind(m, s, "\n\n", content, "\n");
    }
  }

  /** A content with an end marker: what comes behind the first one is not stripped. */
  lemma TailStaysBehind(m: Markers, s: string, gap: string, content: string, tail: string)
    requires Usable(m) && AllSpace(gap) && AllSpace(tail)
    requires !Contains(TrimEnd(s) + gap, m.start) && !NoEnd(m, content)
    ensures |Stripped(m, TrimEnd(s) + gap + Block(m, content) + tail)| > |TrimEnd(Collapse(s)) + "\n"|
  {
    var before := TrimEnd(s) + gap;
    var rest := RestOfClosedBlock(m, before, content, tail);
    StrippedIs(m, before + Block(m, content) + tail, before, rest + tail);
    BehindGap(s, gap, rest, tail);
  }

  lemma BehindGap(s: string, gap: string, rest: string, tail: string)
    requires AllSpace(gap) && AllSpace(tail) && Solid(rest) && rest != []
    ensures |TrimEnd(Collapse(TrimEnd(s) + gap + (rest + tail)))| > |TrimEnd(Collapse(s))|
  {
    TrimEndIs(s);
    CollapseAndTrim(s);
    ConcatAssoc(TrimEnd(s) + gap, rest, tail);
    ConcatAssoc(TrimEnd(s), gap, rest);
    assert (gap + rest)[|gap + rest| - 1] == rest[|rest| - 1];
    BehindSolid(TrimEnd(s), gap + rest, tail);
  }

  /** What comes behind the first end marker of a content, up to the end marker of its block. */
  lemma RestOfClosedBlock(m: Markers, before: string, content: string, tail: string) returns (rest: string)
    requires Usable(m) && !Contains(before, m.start) && !NoEnd(m, content)
    ensures rest != [] && Solid(rest)
    ensures var s := before + Block(m, content) + tail;
      FirstBlock(m, s).Some? && FirstBlock(m, s).value.before == before && FirstBlock(m, s).value.after == rest + tail
  {
    var t := TrimEnd(content);
    CutFails(t, m.end);
    CutIsFirst(t, m.end);
    var (inside, left) := Cut(t, m.end).value;
    rest := left + "\n" + m.end;
    NewlineHidesNoMarker(inside, m.end);
    FirstBlockOf(m, Parts(before, "\n" + inside, rest + tail));
    BlockInFrame(m, before, content, tail);
    Regrouped("\n", inside, m.end, left, tail);
    assert rest[|rest| - 1] == '>';
  }

  /** More text that does not end in white space is longer, collapsed and trimmed, and so is what it follows. */
  lemma BehindSolid(s: string, rest: string, spaces: string)
    requires Solid(s) && Solid(rest) && rest != [] && AllSpace(spaces)
    ensures |TrimEnd(Collapse(s + rest + spaces))| > |Collapse(s)|
  {
    var all := s + rest;
    assert all[|all| - 1] == rest[|rest| - 1];
    CollapseAndTrim(all + spaces);
    TrimEndPadded(all, spaces);
    CollapseBehind(s, rest);
    CollapseKeepsSolid(rest);
  }

  lemma StripBlock(m: Markers, s: string, gap: string, content: string, tail: string)
    requires Usable(m) && AllSpace(gap) && AllSpace(tail)
    requires !Contains(TrimEnd(s) + gap, m.start) && NoEnd(m, content)
    ensures Stripped(m, TrimEnd(s) + gap + Block(m, content) + tail) == TrimEnd(Collapse(s)) + "\n"
  {
    var before := TrimEnd(s) + gap;
    FrameOfBlock(m, before, content, tail);
    StrippedIs(m, before + Block(m, content) + tail, before, tail);
    ConcatAssoc(TrimEnd(s), gap, tail);
    BehindTrimmed(s, gap + tail);
  }

  lemma StrippedIs(m: Markers, s: string, before: string, after: string)
    requires FirstBlock(m, s).Some? && FirstBlock(m, s).value.before == before && FirstBlock(m, s).value.after == after
    ensures Stripped(m, s) == TrimEnd(Collapse(before + after)) + "\n"
  {
    CutFails(s, m.start);
    assert before + [] == before;
  }

  lemma BehindTrimmed(s: string, spaces: string)
    requires AllSpace(spaces)
    ensures TrimEnd(Collapse(TrimEnd(s) + spaces)) == TrimEnd(Collapse(s))
  {
    TrimEndIs(s);
    TrimEndPadded(TrimEnd(s), spaces);
    CollapseAndTrim(TrimEnd(s) + spaces);
    CollapseAndTrim(s);
  }

  // ----- the markers in use

  /** The laws for the documents that the tool keeps its permissions in. */
  lemma PermissionsLastWriteWins(s: string, first: string, second: string)
    requires FirstBlock(PERMISSIONS, s).Some? ==> NoSpecials(TrimEnd(first))
    requires Frame(PERMISSIONS, s).Some? ==> NoSpecials(TrimEnd(second))
    ensures Wins(PERMISSIONS, s, first, second) <==> Frame(PERMISSIONS, s).None? || NoEnd(PERMISSIONS, first)
  {
    PermissionsAreUsable();
    LastWriteWins(PERMISSIONS, s, first, second);
  }

  lemma PermissionsStripUndoesEmbed(s: string, content: string)
    requires !Contains(s, PERMISSIONS.start)
    ensures Stripped(PERMISSIONS, Embedded(PERMISSIONS, s, content)) == TrimEnd(Collapse(s)) + "\n"
       <==> NoEnd(PERMISSIONS, content)
  {
    PermissionsAreUsable();
    StripUndoesEmbed(PERMISSIONS, s, content);
  }

  /** The block in use is the content, its trailing white space gone, on lines of its own between two comments. */
  lemma PermissionsBlockIs(content: string, kept: string, spaces: string)
    requires content == kept + spaces && AllSpace(spaces) && (kept == "" || !IsSpace(kept[|kept| - 1]))
    ensures Block(PERMISSIONS, content)
         == "<!-- agentvalet:permissions:start -->" + "\n" + kept + "\n" + "<!-- agentvalet:permissions:end -->"
  {
    TrimEndPadded(kept, spaces);
  }
}
