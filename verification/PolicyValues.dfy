/** The tool names and credentials that a policy text can hold, and how they are written. */
module PolicyValues {
  import opened Wrappers
  import opened Text
  import opened Lines
  import opened PolicyYaml

  // ----- how a value is written

  /** Nothing of the text is a comment. */
  predicate Uncut(s: string) {
    Uncommented(s) == s
  }

  function Quoted(quote: char, v: string): string {
    [quote] + v + [quote]
  }

  /** Double quotes, unless they would let a part of the value be a comment. */
  function QuoteFor(v: string): char {
    if Uncut(Quoted('"', v)) then '"' else '\''
  }

  /** A value between quotes; quotes inside it need not match. */
  function Scalar(v: string): string {
    Quoted(QuoteFor(v), v)
  }

  predicate NoOuterSpace(s: string) {
    s != [] && !IsSpace(s[0]) && !IsSpace(s[|s| - 1])
  }

  predicate NoQuotes(s: string) {
    '"' !in s && '\'' !in s
  }

  /** A value that can stand between quotes: it opens no comment there and holds no forbidden pattern. */
  predicate Quotable(v: string) {
    Uncut(Scalar(v)) && Forbidden(Scalar(v)) == None
  }

  /** A value that can stand behind the colon as it is. */
  predicate Bare(v: string) {
    NoOuterSpace(v) && NoQuotes(v) && Uncut(":" + v) && Forbidden(":" + v) == None
  }

  predicate Readable(v: string) {
    '\n' !in v && (Quotable(v) || Bare(v))
  }

  /** What is written behind the colon: the value between quotes if it can be quoted. */
  function Shown(v: string): string {
    if Quotable(v) then " " + Scalar(v) else v
  }

  function Field(key: string, v: string): string {
    key + ":" + Shown(v)
  }

  // ----- comments in a line with a value

  lemma UncutMeans(s: string)
    ensures Uncut(s) <==> forall k | 0 <= k < |s| :: !CommentAt(s, k)
  {
    assert s[..|s|] == s;
  }

  lemma {:induction false} QuoteStays(q: Quoting, v: string)
    requires q == Double ==> '"' !in v
    requires q == Single ==> '\'' !in v
    requires q == Unquoted ==> NoQuotes(v)
    ensures QuoteAfter(q, v) == q
    decreases |v|
  {
    if v != [] {
      QuoteStays(q, v[1..]);
    }
  }

  /** Text without quotes in front does not change what is a comment. */
  lemma CommentAtShifts(pre: string, s: string, k: nat)
    requires NoQuotes(pre) && 0 < k < |s|
    ensures CommentAt(pre + s, |pre| + k) <==> CommentAt(s, k)
  {
    assert (pre + s)[..|pre| + k] == pre + s[..k];
    QuoteAfterAppend(Unquoted, pre, s[..k]);
    QuoteStays(Unquoted, pre);
  }

  /** Text behind does not either. */
  lemma CommentAtInFront(s: string, post: string, k: nat)
    requires k < |s|
    ensures CommentAt(s + post, k) <==> CommentAt(s, k)
  {
    assert (s + post)[..k] == s[..k];
  }

  /** A line without '#' has no comment. */
  lemma NoComment(s: string)
    requires '#' !in s
    ensures Uncut(s)
  {
    UncutMeans(s);
  }

  /** Text that can stand before a value: no character that means something to the parser but colons. */
  predicate Plain(pre: string) {
    forall i | 0 <= i < |pre| :: pre[i] !in {'#', '"', '\'', '\t', '&', '*', '<', '$', '[', '{'}
  }

  /** A value between quotes, or one behind its colon. */
  predicate Starts(s: string) {
    s != [] && s[0] in {'"', '\'', ':'}
  }

  /** Whether a line with a value is cut at a comment depends only on the value. */
  lemma CommentShifts(pre: string, s: string)
    requires Plain(pre) && Starts(s)
    ensures Uncut(pre + s) <==> Uncut(s)
  {
    var t, n := pre + s, |pre|;
    UncutMeans(s);
    UncutMeans(t);
    forall k: nat | 0 < k < |s|
      ensures CommentAt(t, n + k) <==> CommentAt(s, k)
    {
      CommentAtShifts(pre, s, k);
    }
    assert forall k | 0 <= k <= n :: t[k] != '#';
    assert forall k | n < k < |t| :: CommentAt(t, k) <==> CommentAt(s, k - n);
  }

  /** A value without one of the two quotes opens no comment between quotes, whatever '#' it holds. */
  lemma OneKindOfQuote(v: string)
    requires '"' !in v || '\'' !in v
    ensures Uncut(Scalar(v))
  {
    if '"' !in v {
      ClosedQuotes('"', v);
    } else if QuoteFor(v) == '\'' {
      ClosedQuotes('\'', v);
    }
  }

  lemma ClosedQuotes(quote: char, v: string)
    requires quote == '"' || quote == '\''
    requires quote !in v
    ensures Uncut(Quoted(quote, v))
  {
    var s := Quoted(quote, v);
    var inside := if quote == '"' then Double else Single;
    UncutMeans(s);
    forall k | 0 <= k < |s|
      ensures !CommentAt(s, k)
    {
      if 0 < k < |s| - 1 {
        assert s[..k] == [quote] + v[..k - 1];
        QuoteAfterAppend(Unquoted, [quote], v[..k - 1]);
        QuoteStays(inside, v[..k - 1]);
      }
    }
  }

  // ----- forbidden patterns in a line with a value

  lemma SpacesThenShifts(pre: string, s: string, i: nat, stop: set<char>)
    requires i <= |s|
    ensures SpacesThen(pre + s, |pre| + i, stop) <==> SpacesThen(s, i, stop)
  {
    var t, n := pre + s, |pre|;
    if SpacesThen(s, i, stop) {
      var j :| i <= j < |s| && s[j] in stop && forall k | i <= k < j :: IsSpace(s[k]);
      assert t[n + j] in stop;
      assert forall k | n + i <= k < n + j :: t[k] == s[k - n];
    }
    if SpacesThen(t, n + i, stop) {
      var j :| n + i <= j < |t| && t[j] in stop && forall k | n + i <= k < j :: IsSpace(t[k]);
      assert s[j - n] in stop;
      assert forall k | i <= k < j - n :: s[k] == t[n + k];
    }
  }

  lemma AnchorShifts(pre: string, s: string)
    requires Plain(pre) && Starts(s)
    ensures HasAnchor(pre + s) <==> HasAnchor(s)
  {
    var t, n := pre + s, |pre|;
    if HasAnchor(s) {
      var i :| 0 <= i < |s| && AnchorAt(s, i);
      assert AnchorAt(t, n + i);
    }
    if HasAnchor(t) {
      var i :| 0 <= i < |t| && AnchorAt(t, i);
      assert i >= n ==> AnchorAt(s, i - n);
    }
  }

  lemma MergeShifts(pre: string, s: string)
    requires Plain(pre)
    ensures HasMerge(pre + s) <==> HasMerge(s)
  {
    var t, n := pre + s, |pre|;
    if HasMerge(s) {
      var i :| 0 <= i < |s| && MergeAt(s, i);
      SpacesThenShifts(pre, s, i + 2, {':'});
      assert MergeAt(t, n + i);
    }
    if HasMerge(t) {
      var i :| 0 <= i < |t| && MergeAt(t, i);
      if i >= n {
        SpacesThenShifts(pre, s, i - n + 2, {':'});
        assert MergeAt(s, i - n);
      }
    }
  }

  lemma InterpolationShifts(pre: string, s: string)
    requires Plain(pre)
    ensures HasInterpolation(pre + s) <==> HasInterpolation(s)
  {
    var t, n := pre + s, |pre|;
    if HasInterpolation(s) {
      var i :| 0 <= i < |s| && InterpolationAt(s, i);
      assert InterpolationAt(t, n + i);
    }
    if HasInterpolation(t) {
      var i :| 0 <= i < |t| && InterpolationAt(t, i);
      assert i >= n ==> InterpolationAt(s, i - n);
    }
  }

  lemma FlowShifts(pre: string, s: string)
    requires Plain(pre) && Starts(s)
    ensures HasFlow(pre + s) <==> HasFlow(s)
  {
    var t, n := pre + s, |pre|;
    if HasFlow(s) {
      var i :| 0 <= i < |s| && FlowAt(s, i);
      SpacesThenShifts(pre, s, i + 1, {'[', '{'});
      assert FlowAt(t, n + i);
    }
    if HasFlow(t) {
      var i :| 0 <= i < |t| && FlowAt(t, i);
      assert t[n] == s[0] && !IsSpace(t[n]);
      if i >= n {
        SpacesThenShifts(pre, s, i - n + 1, {'[', '{'});
        assert FlowAt(s, i - n);
      }
    }
  }

  /** Whether a line with a value is refused, and for which pattern, depends only on the value. */
  lemma ForbiddenShifts(pre: string, s: string)
    requires Plain(pre) && Starts(s)
    ensures Forbidden(pre + s) == Forbidden(s)
  {
    assert HasTab(pre + s) <==> HasTab(s);
    AnchorShifts(pre, s);
    MergeShifts(pre, s);
    InterpolationShifts(pre, s);
    FlowShifts(pre, s);
  }

  /** A readable value can be written behind any plain text and a colon. */
  lemma ShownIsClear(pre: string, v: string)
    requires Plain(pre) && Readable(v)
    ensures Uncut(pre + (":" + Shown(v))) && Forbidden(pre + (":" + Shown(v))) == None
  {
    if Quotable(v) {
      ConcatAssoc(pre, ":", " " + Scalar(v));
      ConcatAssoc(pre + ":", " ", Scalar(v));
      CommentShifts(pre + ":" + " ", Scalar(v));
      ForbiddenShifts(pre + ":" + " ", Scalar(v));
    } else {
      CommentShifts(pre, ":" + v);
      ForbiddenShifts(pre, ":" + v);
    }
  }

  // ----- reading a value back

  lemma UnquoteQuoted(quote: char, v: string)
    requires quote == '"' || quote == '\''
    ensures Unquote(Quoted(quote, v)) == Success(v)
  {
    var s := Quoted(quote, v);
    TrimPadded("", s, "");
    assert "" + s + "" == s;
    assert s[1..|s| - 1] == v;
  }

  lemma UnquoteBare(v: string)
    requires NoOuterSpace(v) && NoQuotes(v)
    ensures Unquote(v) == Success(v)
  {
    TrimPadded("", v, "");
    assert "" + v + "" == v;
  }

  lemma SplitField(key: string, left: string, value: string)
    requires NoOuterSpace(key) && ':' !in key && AllSpace(left) && NoOuterSpace(value)
    ensures SplitKeyValue(key + ":" + (left + value)) == Success((key, value))
  {
    var body := key + ":" + (left + value);
    IndexOfIs(body, ':', |key|);
    assert body[..|key|] == "" + key + "" && body[|key| + 1..] == left + value + "";
    TrimPadded("", key, "");
    TrimPadded(left, value, "");
  }

  /** A field with a readable value is read as its key and its value. */
  lemma ShownIsRead(key: string, v: string)
    requires NoOuterSpace(key) && ':' !in key && Readable(v)
    ensures SplitKeyValue(Field(key, v)).Success?
    ensures var (k, value) := SplitKeyValue(Field(key, v)).value; k == key && Unquote(value) == Success(v)
  {
    if Quotable(v) {
      SplitField(key, " ", Scalar(v));
      UnquoteQuoted(QuoteFor(v), v);
    } else {
      assert "" + v == v;
      SplitField(key, "", v);
      UnquoteBare(v);
    }
  }

  // ----- examples

  /** A value with both kinds of quote that can be quoted. */
  lemma BothQuotes()
    ensures Quotable("a\"b'c")
  {
    var s := Quoted('"', "a\"b'c");
    NoComment(s);
    assert forall i | 0 <= i < |s| :: s[i] !in {'\t', '&', '*', '<', '$', ':'};
  }

  /** A value that is taken for an anchor when it is quoted, and is not when it is the end of its line. */
  lemma BareOnly()
    ensures !Quotable("a &") && Bare("a &")
  {
    assert AnchorAt(Scalar("a &"), 3);
    EndsInAmpersand();
  }

  lemma EndsInAmpersand()
    ensures Bare("a &")
  {
    var s := ":a &";
    assert s == ":" + "a &";
    NoComment(s);
    assert forall i | 0 <= i < |s| :: s[i] !in {'\t', '*', '<', '$', '[', '{'};
    assert forall i | 0 <= i < |s| && s[i] == '&' :: i == 3;
  }

  // ----- what an accepted line holds

  /** No pattern in a text, but for an anchor at its very start, which what is before it may spoil. */
  predicate PatternFree(w: string) {
    && !HasTab(w) && !HasMerge(w) && !HasInterpolation(w) && !HasFlow(w)
    && forall i | 0 < i < |w| :: !AnchorAt(w, i)
  }

  lemma SpacesThenWithin(pre: string, w: string, post: string, i: nat, stop: set<char>)
    requires i <= |w| && SpacesThen(w, i, stop)
    ensures SpacesThen(pre + w + post, |pre| + i, stop)
  {
    var t, n := pre + w + post, |pre|;
    var j :| i <= j < |w| && w[j] in stop && forall k | i <= k < j :: IsSpace(w[k]);
    assert t[n + j] in stop;
    assert forall k | n + i <= k < n + j :: t[k] == w[k - n];
  }

  lemma MergeOfPart(pre: string, w: string, post: string)
    ensures HasMerge(w) ==> HasMerge(pre + w + post)
  {
    if i :| 0 <= i < |w| && MergeAt(w, i) {
      SpacesThenWithin(pre, w, post, i + 2, {':'});
      assert MergeAt(pre + w + post, |pre| + i);
    }
  }

  lemma FlowOfPart(pre: string, w: string, post: string)
    ensures HasFlow(w) ==> HasFlow(pre + w + post)
  {
    if i :| 0 <= i < |w| && FlowAt(w, i) {
      SpacesThenWithin(pre, w, post, i + 1, {'[', '{'});
      assert FlowAt(pre + w + post, |pre| + i);
    }
  }

  lemma InterpolationOfPart(pre: string, w: string, post: string)
    ensures HasInterpolation(w) ==> HasInterpolation(pre + w + post)
  {
    if i :| 0 <= i < |w| && InterpolationAt(w, i) {
      assert InterpolationAt(pre + w + post, |pre| + i);
    }
  }

  lemma AnchorOfPart(pre: string, w: string, post: string, i: nat)
    requires 0 < i && AnchorAt(w, i)
    ensures HasAnchor(pre + w + post)
  {
    assert AnchorAt(pre + w + post, |pre| + i);
  }

  /** A part of a text without patterns has none. */
  lemma PartIsPatternFree(pre: string, w: string, post: string)
    requires Forbidden(pre + w + post) == None
    ensures PatternFree(w)
  {
    MergeOfPart(pre, w, post);
    FlowOfPart(pre, w, post);
    InterpolationOfPart(pre, w, post);
    forall i | 0 < i < |w|
      ensures !AnchorAt(w, i)
    {
      if AnchorAt(w, i) {
        AnchorOfPart(pre, w, post, i);
      }
    }
  }

  /** Behind a colon there is no collection in brackets. */
  lemma NoBracketBehindColon(p: string, left: string, w: string, post: string)
    requires AllSpace(left) && w != [] && Forbidden(p + ":" + left + w + post) == None
    ensures w[0] != '[' && w[0] != '{'
  {
    var t, n := p + ":" + left + w + post, |p|;
    if w[0] == '[' || w[0] == '{' {
      assert t[n + 1 + |left|] in {'[', '{'};
      assert forall k | n + 1 <= k < n + 1 + |left| :: t[k] == left[k - n - 1];
      assert SpacesThen(t, n + 1, {'[', '{'});
      assert FlowAt(t, n);
    }
  }

  /** Behind text without quotes, a part of a line without a comment has none but at its very start. */
  lemma PartIsUncut(pre: string, w: string, post: string)
    requires NoQuotes(pre) && Uncut(pre + w + post)
    ensures forall k | 0 < k < |w| :: !CommentAt(w, k)
  {
    UncutMeans(pre + w + post);
    forall k: nat | 0 < k < |w|
      ensures !CommentAt(w, k)
    {
      CommentAtShifts(pre, w, k);
      CommentAtInFront(pre + w, post, |pre| + k);
    }
  }

  lemma QuotedIsQuotable(quote: char, v: string)
    requires quote == '"' || quote == '\''
    requires PatternFree(Quoted(quote, v)) && forall k | 0 < k < |Quoted(quote, v)| :: !CommentAt(Quoted(quote, v), k)
    ensures Quotable(v)
  {
    var s := Quoted(quote, v);
    UncutMeans(s);
    assert Forbidden(s) == None;
    if QuoteFor(v) != quote {
      OtherQuote(v);
    }
  }

  /** Which quotes are used makes no difference to the patterns. */
  lemma OtherQuote(v: string)
    requires Forbidden(Quoted('\'', v)) == None
    ensures Forbidden(Quoted('"', v)) == None
  {
    PartIsPatternFree(['\''], v, ['\'']);
    var s, t := Quoted('"', v), Quoted('\'', v);
    assert forall i | 0 < i < |s| - 1 :: s[i] == v[i - 1] && t[i] == v[i - 1];
    assert forall i | 0 <= i < |s| :: AnchorAt(s, i) ==> AnchorAt(t, i);
    assert forall i | 0 <= i < |s| :: InterpolationAt(s, i) ==> InterpolationAt(t, i);
    forall i: nat | i < |s| && MergeAt(s, i)
      ensures false
    {
      OtherQuoteSpaces(v, i + 2, {':'});
      assert MergeAt(t, i);
    }
    forall i: nat | i < |s| && FlowAt(s, i)
      ensures false
    {
      OtherQuoteSpaces(v, i + 1, {'[', '{'});
      assert FlowAt(t, i);
    }
  }

  lemma OtherQuoteSpaces(v: string, i: nat, stop: set<char>)
    requires 0 < i <= |v| + 2 && SpacesThen(Quoted('"', v), i, stop) && '"' !in stop
    ensures SpacesThen(Quoted('\'', v), i, stop)
  {
    var s, t := Quoted('"', v), Quoted('\'', v);
    var j :| i <= j < |s| && s[j] in stop && forall k | i <= k < j :: IsSpace(s[k]);
    assert forall k | 0 < k < |s| - 1 :: s[k] == v[k - 1] && t[k] == v[k - 1];
    assert t[j] in stop;
  }

  lemma BareIsBare(v: string)
    requires NoOuterSpace(v) && NoQuotes(v) && v[0] != '[' && v[0] != '{'
    requires PatternFree(v) && forall k | 0 < k < |v| :: !CommentAt(v, k)
    ensures Bare(v)
  {
    var s := ":" + v;
    UncutMeans(s);
    forall k: nat | 0 < k < |s|
      ensures !CommentAt(s, k)
    {
      if k > 1 {
        CommentAtShifts(":", v, k - 1);
      }
    }
    BehindColon(v);
  }

  lemma BehindColon(v: string)
    requires v != [] && !IsSpace(v[0]) && v[0] != '[' && v[0] != '{' && PatternFree(v)
    ensures Forbidden(":" + v) == None
  {
    var s := ":" + v;
    assert !HasTab(s);
    assert !HasAnchor(s) by {
      assert forall i | 1 < i < |s| :: AnchorAt(s, i) ==> AnchorAt(v, i - 1);
    }
    MergeShifts(":", v);
    InterpolationShifts(":", v);
    assert !HasFlow(s) by {
      forall i: nat | i < |s|
        ensures !FlowAt(s, i)
      {
        SpacesThenShifts(":", v, i, {'[', '{'});
        assert i > 0 ==> !FlowAt(v, i - 1);
        assert i == 0 ==> s[1] == v[0];
      }
    }
  }

  /** What an accepted line holds behind the colon of a key without quotes is a readable value. */
  lemma ValueIsReadable(p: string, left: string, w: string, right: string)
    requires NoQuotes(p) && AllSpace(left) && NoOuterSpace(w)
    requires var line := p + ":" + left + w + right; Uncut(line) && Forbidden(line) == None && '\n' !in line
    requires Unquote(w).Success?
    ensures Readable(Unquote(w).value)
  {
    var v := Unquote(w).value;
    TrimPadded("", w, "");
    assert "" + w + "" == w;
    PartIsPatternFree(p + ":" + left, w, right);
    PartIsUncut(p + ":" + left, w, right);
    NoBracketBehindColon(p, left, w, right);
    assert forall c | c in v :: c in w;
    ClearValueIsReadable(w);
  }

  /** A value that its line leaves clear of comments and patterns. */
  lemma ClearValueIsReadable(w: string)
    requires NoOuterSpace(w) && w[0] != '[' && w[0] != '{' && PatternFree(w) && Trim(w) == w
    requires Unquote(w).Success? && '\n' !in Unquote(w).value && forall k | 0 < k < |w| :: !CommentAt(w, k)
    ensures Readable(Unquote(w).value)
  {
    var v := Unquote(w).value;
    if w[0] == '"' || w[0] == '\'' {
      assert w == Quoted(w[0], v);
      QuotedIsQuotable(w[0], v);
    } else {
      BareIsBare(w);
    }
  }

  // ----- what an accepted text holds

  predicate ReadableDraft(d: Draft) {
    (d.tool.Some? ==> Readable(d.tool.value)) && (d.credential.Some? ==> Readable(d.credential.value))
  }

  predicate ReadableState(st: ParseState) {
    forall i | 0 <= i < |st.drafts| :: ReadableDraft(st.drafts[i])
  }

  predicate ReadableRule(rule: Rule) {
    Readable(rule.tool) && (rule.credential.Some? ==> Readable(rule.credential.value))
  }

  /** A known key has no quotes around it. */
  lemma KeyHasNoQuotes(text: string)
    requires NoQuotes(Trim(text))
    ensures NoQuotes(text)
  {
    var i, j := TrimmedPart(text);
    assert text == text[..i] + text[i..j] + text[j..];
  }

  lemma TrimTwice(s: string)
    ensures Trim(Trim(s)) == Trim(s)
  {
    var i, j := TrimmedPart(s);
    if i < j {
      TrimPadded("", Trim(s), "");
      assert "" + Trim(s) + "" == Trim(s);
    }
  }

  /** The value of a field, cut out of its line. */
  lemma FieldIsReadable(head: string, body: string, tail: string)
    requires NoQuotes(head) && AllSpace(tail) && SplitKeyValue(body).Success?
    requires var line := head + body + tail; Uncut(line) && Forbidden(line) == None && '\n' !in line
    ensures var (key, value) := SplitKeyValue(body).value;
      NoQuotes(key) && Unquote(value).Success? ==> Readable(Unquote(value).value)
  {
    var n := IndexOf(body, ':');
    var (key, value) := SplitKeyValue(body).value;
    if NoQuotes(key) && Unquote(value).Success? {
      IndexOfIsFirst(body, ':');
      KeyHasNoQuotes(body[..n]);
      TrimTwice(body[n + 1..]);
      var i, j := TrimmedPart(body[n + 1..]);
      var p, rest := head + body[..n], body[n + 1..];
      LineOfField(head, body, tail, n, i, j);
      ValueIsReadable(p, rest[..i], value, rest[j..] + tail);
    }
  }

  lemma LineOfField(head: string, body: string, tail: string, n: nat, i: nat, j: nat)
    requires n < |body| && body[n] == ':' && i <= j <= |body| - n - 1
    ensures var rest := body[n + 1..];
      head + body + tail == head + body[..n] + ":" + rest[..i] + rest[i..j] + (rest[j..] + tail)
  {
  }

  /** A field leaves each of the two values as it was or writes the one it holds, under a key without quotes. */
  lemma FieldWrites(d: Draft, body: string)
    requires ApplyRuleField(d, body).Success?
    ensures SplitKeyValue(body).Success? && Unquote(SplitKeyValue(body).value.1).Success?
    ensures var e := ApplyRuleField(d, body).value; var (key, value) := SplitKeyValue(body).value;
      var written := Some(Unquote(value).value);
      && (e.tool == d.tool || (e.tool == written && NoQuotes(key)))
      && (e.credential == d.credential || (e.credential == written && NoQuotes(key)))
  {
    assert NoQuotes("tool") && NoQuotes("credential");
  }

  lemma FieldKeepsReadable(head: string, body: string, tail: string, d: Draft)
    requires NoQuotes(head) && AllSpace(tail) && ReadableDraft(d) && ApplyRuleField(d, body).Success?
    requires var line := head + body + tail; Uncut(line) && Forbidden(line) == None && '\n' !in line
    ensures ReadableDraft(ApplyRuleField(d, body).value)
  {
    FieldIsReadable(head, body, tail);
    FieldWrites(d, body);
  }

  lemma UncommentedIsUncut(s: string)
    ensures Uncut(Uncommented(s))
  {
    var n := CommentStart(s, 0);
    UncutMeans(s[..n]);
    forall k | 0 <= k < n
      ensures !CommentAt(s[..n], k)
    {
      assert s[..n][..k] == s[..k];
      assert !CommentAt(s, k);
    }
  }

  lemma LineOfItem(raw: string, indent: nat, i: nat, j: nat)
    requires indent < |raw| && i <= j <= |raw| - indent - 1
    ensures var rest := raw[indent + 1..];
      raw == raw[..indent + 1] + rest[..i] + rest[i..j] + rest[j..] && raw[indent..][1..] == rest
  {
  }

  lemma {:induction false} ItemKeepsReadable(st: ParseState, raw: string, indent: nat)
    requires Uncut(raw) && Forbidden(raw) == None && '\n' !in raw && ReadableState(st)
    requires indent < |raw| && (forall k | 0 <= k < indent :: raw[k] == ' ') && raw[indent] == '-'
    requires NewRule(st, indent, raw[indent..]).Success?
    ensures ReadableState(NewRule(st, indent, raw[indent..]).value)
  {
    var rest := raw[indent + 1..];
    var i, j := TrimmedPart(rest);
    LineOfItem(raw, indent, i, j);
    if i < j {
      BlanksAndDash(raw, indent, rest[..i]);
      FieldKeepsReadable(raw[..indent + 1] + rest[..i], rest[i..j], rest[j..], Draft(None, Deny, None, indent));
    }
    NewRuleAdds(st, indent, raw[indent..], rest[i..j]);
  }

  lemma BlanksAndDash(raw: string, indent: nat, gap: string)
    requires indent < |raw| && (forall k | 0 <= k < indent :: raw[k] == ' ') && raw[indent] == '-' && AllSpace(gap)
    ensures NoQuotes(raw[..indent + 1] + gap)
  {
    assert NoQuotes(gap) && NoQuotes(raw[..indent + 1]);
  }

  lemma {:induction false} NewRuleAdds(st: ParseState, indent: nat, body: string, rest: string)
    requires body != [] && Trim(body[1..]) == rest && NewRule(st, indent, body).Success? && ReadableState(st)
    requires rest == [] || ReadableDraft(ApplyRuleField(Draft(None, Deny, None, indent), rest).value)
    ensures ReadableState(NewRule(st, indent, body).value)
  {
    var drafts := NewRule(st, indent, body).value.drafts;
    assert forall k | 0 <= k < |st.drafts| :: drafts[k] == st.drafts[k];
  }

  lemma RulesLineKeepsReadable(st: ParseState, raw: string, indent: nat)
    requires Uncut(raw) && Forbidden(raw) == None && '\n' !in raw && ReadableState(st)
    requires indent < |raw| && forall k | 0 <= k < indent :: raw[k] == ' '
    requires RulesStep(st, indent, raw[indent..]).Success?
    ensures ReadableState(RulesStep(st, indent, raw[indent..]).value)
  {
    var body := raw[indent..];
    if IsListItem(body) {
      assert body[0] == raw[indent];
      ItemKeepsReadable(st, raw, indent);
    } else {
      assert raw == raw[..indent] + body + [];
      FieldKeepsReadable(raw[..indent], body, [], st.drafts[|st.drafts| - 1]);
    }
  }

  /** A line that is not one of a rule leaves the drafts as they are. */
  lemma OtherLineKeepsDrafts(st: ParseState, body: string)
    ensures TopLevelStep(st, body).Success? ==> TopLevelStep(st, body).value.drafts == st.drafts
    ensures DefaultsStep(st, body).Success? ==> DefaultsStep(st, body).value.drafts == st.drafts
  {
  }

  lemma LineKeepsReadable(st: ParseState, line: string)
    requires ReadableState(st) && '\n' !in line && Step(st, line).Success?
    ensures ReadableState(Step(st, line).value)
  {
    var raw := Uncommented(line);
    UncommentedIsUncut(line);
    if !AllSpace(raw) {
      var indent := Indent(raw);
      OtherLineKeepsDrafts(st, raw[indent..]);
      if indent > 0 && st.section == Rules {
        RulesLineKeepsReadable(st, raw, indent);
      }
    }
  }

  lemma {:induction false} FinishedAreReadable(drafts: seq<Draft>, rules: seq<Rule>)
    requires |rules| <= |drafts| && FinishRules(drafts, rules).Success?
    requires forall i | 0 <= i < |drafts| :: ReadableDraft(drafts[i])
    requires forall i | 0 <= i < |rules| :: ReadableRule(rules[i])
    ensures var all := FinishRules(drafts, rules).value; forall i | 0 <= i < |all| :: ReadableRule(all[i])
    decreases |drafts| - |rules|
  {
    if |rules| < |drafts| {
      var d := drafts[|rules|];
      FinishedAreReadable(drafts, rules + [Rule(d.tool.value, d.effect, d.credential)]);
    }
  }

  /** Every tool and credential of an accepted text is a readable value. */
  lemma AcceptedIsReadable(source: string)
    requires Parse(source).Success?
    ensures var rules := Parse(source).value.rules; forall i | 0 <= i < |rules| :: ReadableRule(rules[i])
  {
    var lines := SplitLines(source);
    LinesAreClear(source);
    forall st, line | ReadableState(st) && '\n' !in line && Step(st, line).Success?
      ensures ReadableState(Step(st, line).value)
    {
      LineKeepsReadable(st, line);
    }
    FoldKeeps(Step, ReadableState, START, lines, 0);
    FinishedAreReadable(Fold(Step, START, lines, 0).value.drafts, []);
  }
}
