/** First positions in and sub-sequences of sequences. */
module Sequences {

  /** The first position from `i` on whose element satisfies `p`, or the length of `s`. */
  function First<T>(s: seq<T>, p: T -> bool, i: nat := 0): (n: nat)
    requires i <= |s|
    ensures i <= n <= |s|
    ensures n < |s| ==> p(s[n])
    ensures forall k | i <= k < n :: !p(s[k])
    decreases |s| - i
  {
    if i == |s| || p(s[i]) then i else First(s, p, i + 1)
  }

  lemma FirstIs<T>(s: seq<T>, p: T -> bool, n: nat)
    requires n <= |s| && (n < |s| ==> p(s[n])) && forall k | 0 <= k < n :: !p(s[k])
    ensures First(s, p) == n
  {
  }

  lemma FirstFinds<T>(s: seq<T>, p: T -> bool)
    ensures First(s, p) < |s| <==> exists x | x in s :: p(x)
  {
    var n := First(s, p);
    if n < |s| {
      assert s[n] in s;
    }
    if exists x | x in s :: p(x) {
      var x :| x in s && p(x);
      var k :| 0 <= k < |s| && s[k] == x;
    }
  }

  function Filter<T>(s: seq<T>, p: T -> bool): seq<T> {
    if s == [] then [] else Filter(s[..|s| - 1], p) + (if p(s[|s| - 1]) then [s[|s| - 1]] else [])
  }

  lemma {:induction false} FilterAppend<T>(a: seq<T>, b: seq<T>, p: T -> bool)
    ensures Filter(a + b, p) == Filter(a, p) + Filter(b, p)
    decreases |b|
  {
    if b == [] {
      assert a + b == a;
    } else {
      var n := |b| - 1;
      assert (a + b)[..|a| + n] == a + b[..n];
      FilterAppend(a, b[..n], p);
    }
  }

  lemma {:induction false} FilterAll<T>(s: seq<T>, p: T -> bool)
    requires forall x | x in s :: p(x)
    ensures Filter(s, p) == s
    decreases |s|
  {
    if s != [] {
      FilterAll(s[..|s| - 1], p);
      assert s == s[..|s| - 1] + [s[|s| - 1]];
    }
  }

  lemma {:induction false} FilterNone<T>(s: seq<T>, p: T -> bool)
    requires forall x | x in s :: !p(x)
    ensures Filter(s, p) == []
    decreases |s|
  {
    if s != [] {
      FilterNone(s[..|s| - 1], p);
    }
  }

  lemma FilterOne<T>(x: T, p: T -> bool)
    ensures Filter([x], p) == if p(x) then [x] else []
  {
    assert [x][..0] == [];
  }
}
