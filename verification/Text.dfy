/** Characters and strings as the programs of the repository see them. */
module Text {

  /** White space: what `\s` matches and what `trim` removes (ECMA-262, sections 22.2 and 12.2). */
  predicate IsSpace(c: char) {
    var u := c as int;
    || 0x09 <= u <= 0x0D || u == 0x20 || u == 0xA0 || u == 0x1680
    || 0x2000 <= u <= 0x200A || u == 0x2028 || u == 0x2029
    || u == 0x202F || u == 0x205F || u == 0x3000 || u == 0xFEFF
  }

  predicate AllSpace(s: string) {
    forall i | 0 <= i < |s| :: IsSpace(s[i])
  }

  /** The string without its trailing white space. */
  function TrimEnd(s: string): string {
    if s != [] && IsSpace(s[|s| - 1]) then TrimEnd(s[..|s| - 1]) else s
  }

  /** The string without its leading white space. */
  function TrimStart(s: string): string {
    if s != [] && IsSpace(s[0]) then TrimStart(s[1..]) else s
  }

  function Trim(s: string): string {
    TrimEnd(TrimStart(s))
  }

  /** The position of the first `c`, or the length of `s` when there is none. */
  function IndexOf(s: string, c: char): (n: nat)
    ensures n <= |s|
  {
    if s == [] || s[0] == c then 0 else 1 + IndexOf(s[1..], c)
  }

  lemma {:induction false} IndexOfIsFirst(s: string, c: char)
    ensures var n := IndexOf(s, c); (n < |s| ==> s[n] == c) && forall k | 0 <= k < n :: s[k] != c
  {
    if s != [] && s[0] != c {
      IndexOfIsFirst(s[1..], c);
    }
  }

  /** The result of `indexOf` is the one position that holds `c` with no `c` before it. */
  lemma IndexOfIs(s: string, c: char, n: nat)
    requires n <= |s| && (n < |s| ==> s[n] == c) && forall k | 0 <= k < n :: s[k] != c
    ensures IndexOf(s, c) == n
  {
    IndexOfIsFirst(s, c);
  }

  /** A number in decimal. */
  function Numeral(n: nat): string {
    if n < 10 then ['0' + n as char] else Numeral(n / 10) + ['0' + (n % 10) as char]
  }

  lemma ConcatAssoc<T>(a: seq<T>, b: seq<T>, c: seq<T>)
    ensures a + b + c == a + (b + c)
  {
  }

  lemma {:induction false} TrimEndIs(s: string)
    ensures TrimEnd(s) <= s && AllSpace(s[|TrimEnd(s)|..])
    ensures TrimEnd(s) != [] ==> !IsSpace(TrimEnd(s)[|TrimEnd(s)| - 1])
    decreases |s|
  {
    if s != [] && IsSpace(s[|s| - 1]) {
      TrimEndIs(s[..|s| - 1]);
    }
  }

  lemma {:induction false} TrimStartIs(s: string)
    ensures var t := TrimStart(s); |t| <= |s| && s[|s| - |t|..] == t && AllSpace(s[..|s| - |t|])
    ensures TrimStart(s) != [] ==> !IsSpace(TrimStart(s)[0])
  {
    if s != [] && IsSpace(s[0]) {
      TrimStartIs(s[1..]);
      var n := |s| - |TrimStart(s)|;
      assert s[..n] == [s[0]] + s[1..][..n - 1];
      assert s[n..] == s[1..][n - 1..];
    } else {
      assert s[0..] == s && s[..0] == [];
    }
  }

  /** What trimming leaves is a part of the text with nothing but white space around it. */
  lemma TrimmedPart(s: string) returns (i: nat, j: nat)
    ensures i <= j <= |s| && s[i..j] == Trim(s)
    ensures AllSpace(s[..i]) && AllSpace(s[j..])
    ensures i < j ==> !IsSpace(s[i]) && !IsSpace(s[j - 1])
  {
    var t := TrimStart(s);
    TrimStartIs(s);
    TrimEndIs(t);
    i := |s| - |t|;
    j := i + |Trim(s)|;
    assert t[..|Trim(s)|] == Trim(s);
    assert s[i..j] == t[..|Trim(s)|] && s[j..] == t[|Trim(s)|..];
    assert i < j ==> s[i] == t[0] && s[j - 1] == Trim(s)[|Trim(s)| - 1];
  }

  /** Trimming is determined by its result: padding on both sides goes, nothing else does. */
  lemma TrimPadded(left: string, s: string, right: string)
    requires AllSpace(left) && AllSpace(right)
    requires s != [] ==> !IsSpace(s[0]) && !IsSpace(s[|s| - 1])
    ensures Trim(left + s + right) == s
  {
    if s == [] {
      TrimStartPadded(left + right, []);
      assert left + right + [] == left + s + right;
    } else {
      TrimStartPadded(left, s + right);
      assert left + s + right == left + (s + right);
      TrimEndPadded(s, right);
    }
  }

  lemma {:induction false} TrimEndPadded(s: string, right: string)
    requires AllSpace(right)
    requires s != [] ==> !IsSpace(s[|s| - 1])
    ensures TrimEnd(s + right) == s
  {
    if right == [] {
      assert s + right == s;
    } else {
      var t := s + right;
      assert t[|t| - 1] == right[|right| - 1];
      assert t[..|t| - 1] == s + right[..|right| - 1];
      TrimEndPadded(s, right[..|right| - 1]);
    }
  }

  lemma {:induction false} TrimStartPadded(left: string, s: string)
    requires AllSpace(left)
    requires s != [] ==> !IsSpace(s[0])
    ensures TrimStart(left + s) == s
  {
    if left == [] {
      assert left + s == s;
    } else {
      assert (left + s)[0] == left[0];
      assert (left + s)[1..] == left[1..] + s;
      TrimStartPadded(left[1..], s);
    }
  }

  /** `t` is what lies between the white space at both ends of `s`. */
  ghost predicate Trims(s: string, t: string) {
    && (t != [] ==> !IsSpace(t[0]) && !IsSpace(t[|t| - 1]))
    && exists left, right :: s == left + t + right && AllSpace(left) && AllSpace(right)
  }

  lemma TrimsIff(s: string, t: string)
    ensures Trims(s, t) <==> t == Trim(s)
  {
    var i, j := TrimmedPart(s);
    assert s == s[..i] + s[i..j] + s[j..];
    if Trims(s, t) {
      var left, right :| s == left + t + right && AllSpace(left) && AllSpace(right);
      TrimPadded(left, t, right);
    }
  }

  // ----- splitting at a character

  /** The pieces between the occurrences of `c`; there is always one more piece than occurrences. */
  function SplitOn(s: string, c: char): (pieces: seq<string>)
    ensures pieces != []
    decreases |s|
  {
    var n := IndexOf(s, c);
    if n == |s| then [s] else [s[..n]] + SplitOn(s[n + 1..], c)
  }

  function Last<T>(s: seq<T>): T
    requires s != []
  {
    s[|s| - 1]
  }

  function Front<T>(s: seq<T>): seq<T>
    requires s != []
  {
    s[..|s| - 1]
  }

  /** Splitting a text after splitting what comes before it: only the last piece is taken further. */
  lemma {:induction false} SplitOnAppend(a: string, b: string, c: char)
    ensures SplitOn(a + b, c) == Front(SplitOn(a, c)) + SplitOn(Last(SplitOn(a, c)) + b, c)
    decreases |a|
  {
    var n := IndexOf(a, c);
    IndexOfIsFirst(a, c);
    if n == |a| {
      assert Front(SplitOn(a, c)) == [];
    } else {
      var piece, rest := a[..n], a[n + 1..];
      var s := a + b;
      IndexOfIs(s, c, n);
      assert s[..n] == piece && s[n + 1..] == rest + b;
      SplitOnAppend(rest, b, c);
      FrontAndLast(piece, SplitOn(rest, c));
      ConcatAssoc([piece], Front(SplitOn(rest, c)), SplitOn(Last(SplitOn(rest, c)) + b, c));
    }
  }

  lemma FrontAndLast<T>(x: T, s: seq<T>)
    requires s != []
    ensures Front([x] + s) == [x] + Front(s) && Last([x] + s) == Last(s)
  {
  }

  /** Pieces never hold the character they were split at. */
  lemma {:induction false} PiecesAreClear(s: string, c: char)
    ensures forall i | 0 <= i < |SplitOn(s, c)| :: c !in SplitOn(s, c)[i]
    decreases |s|
  {
    IndexOfIsFirst(s, c);
    var n := IndexOf(s, c);
    if n < |s| {
      PiecesAreClear(s[n + 1..], c);
    }
  }

  lemma SplitOnClear(s: string, c: char)
    requires c !in s
    ensures SplitOn(s, c) == [s]
  {
    IndexOfIsFirst(s, c);
  }
}
