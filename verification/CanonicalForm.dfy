/** The form of the canonical text: which characters are escaped and how, and in what order keys stand. */
module CanonicalForm {
  import opened Canonical

  // ----- escapes

  /** The characters with an escape of their own: backspace, tab, line feed, form feed, return, quote, backslash. */
  predicate HasShortEscape(u: CodeUnit) {
    u in {0x08, 0x09, 0x0A, 0x0C, 0x0D, 0x22, 0x5C}
  }

  predicate IsSurrogate(u: CodeUnit) {
    0xD800 <= u <= 0xDFFF
  }

  /**
   A unit outside a surrogate pair is written as two characters if it has an escape of its own, as
   "\u" and four digits if it is another control character or a lone surrogate, and else as itself.
   */
  lemma EscapeForms(u: CodeUnit)
    ensures |EscapeUnit(u)| == if HasShortEscape(u) then 2 else if u < 0x20 || IsSurrogate(u) then 6 else 1
    ensures |EscapeUnit(u)| == 1 ==> EscapeUnit(u) == [u]
    ensures |EscapeUnit(u)| == 6 ==> EscapeUnit(u)[..2] == Ascii("\\u")
  {
    assert Ascii("\\u") == [0x5C, 0x75];
  }

  /** The escapes of two characters. */
  lemma ShortEscapes()
    ensures EscapeUnit(0x08) == Ascii("\\b") && EscapeUnit(0x09) == Ascii("\\t") && EscapeUnit(0x0A) == Ascii("\\n")
    ensures EscapeUnit(0x0C) == Ascii("\\f") && EscapeUnit(0x0D) == Ascii("\\r")
    ensures EscapeUnit(0x22) == Ascii("\\\"") && EscapeUnit(0x5C) == Ascii("\\\\")
  {
  }

  /** The value of a hexadecimal digit, its letters small; 16 for what is none. */
  function NibbleOf(u: CodeUnit): nat {
    if 0x30 <= u <= 0x39 then u - 0x30 else if 0x61 <= u <= 0x66 then u - 0x61 + 10 else 16
  }

  /** The four digits of a long escape are the code unit in hexadecimal. */
  lemma LongEscapes(u: CodeUnit)
    requires |EscapeUnit(u)| == 6
    ensures var e := EscapeUnit(u);
      && NibbleOf(e[2]) < 16 && NibbleOf(e[3]) < 16 && NibbleOf(e[4]) < 16 && NibbleOf(e[5]) < 16
      && ((NibbleOf(e[2]) * 16 + NibbleOf(e[3])) * 16 + NibbleOf(e[4])) * 16 + NibbleOf(e[5]) == u
  {
    assert forall d | 0 <= d < 16 :: NibbleOf(HexDigit(d)) == d;
  }

  /** A text of well-formed UTF-16 without control characters, read from the left. */
  predicate WellFormed(s: Units) {
    || s == []
    || (|s| > 1 && 0xD800 <= s[0] <= 0xDBFF && 0xDC00 <= s[1] <= 0xDFFF && WellFormed(s[2..]))
    || (s[0] >= 0x20 && !IsSurrogate(s[0]) && WellFormed(s[1..]))
  }

  lemma {:induction false} WellFormedAppend(a: Units, b: Units)
    requires WellFormed(a) && WellFormed(b)
    ensures WellFormed(a + b)
    decreases |a|
  {
    if a == [] {
      assert a + b == b;
    } else if IsSurrogate(a[0]) {
      assert (a + b)[2..] == a[2..] + b;
      WellFormedAppend(a[2..], b);
    } else {
      assert (a + b)[1..] == a[1..] + b;
      WellFormedAppend(a[1..], b);
    }
  }

  lemma WellFormedUnit(u: CodeUnit)
    ensures WellFormed(EscapeUnit(u))
  {
    var e := EscapeUnit(u);
    if |e| == 6 {
      AsciiIsWellFormed(e);
    } else if |e| == 2 {
      AsciiIsWellFormed(e);
    }
  }

  lemma {:induction false} AsciiIsWellFormed(s: Units)
    requires forall i | 0 <= i < |s| :: 0x20 <= s[i] < 0x80
    ensures WellFormed(s)
    decreases |s|
  {
    if s != [] {
      AsciiIsWellFormed(s[1..]);
    }
  }

  /** Whatever a string holds, its text has no control character and no lone surrogate. */
  lemma {:induction false} EscapedIsWellFormed(s: Units)
    ensures WellFormed(Escape(s))
    decreases |s|
  {
    if |s| > 1 && IsLead(s[0]) && IsTrail(s[1]) {
      EscapedIsWellFormed(s[2..]);
      assert (s[..2] + Escape(s[2..]))[2..] == Escape(s[2..]);
    } else if s != [] {
      EscapedIsWellFormed(s[1..]);
      WellFormedUnit(s[0]);
      WellFormedAppend(EscapeUnit(s[0]), Escape(s[1..]));
    }
  }

  /** Well-formed text without quotes and backslashes is written as it is. */
  lemma {:induction false} PlainTextStays(s: Units)
    requires WellFormed(s) && 0x22 !in s && 0x5C !in s
    ensures Escape(s) == s
    decreases |s|
  {
    if s == [] {
    } else if IsSurrogate(s[0]) {
      assert s == s[..2] + s[2..];
      PlainTextStays(s[2..]);
    } else {
      assert s == [s[0]] + s[1..];
      assert s[0] in s;
      PlainTextStays(s[1..]);
    }
  }

  // ----- the order of keys

  /** The keys are alike up to here, where one ends or has the smaller code unit. */
  predicate DiffersAt(a: Units, b: Units, n: nat) {
    n <= |a| && n < |b| && a[..n] == b[..n] && (n == |a| || a[n] < b[n])
  }

  /** One key is before another exactly when it is a proper prefix of it or smaller at the first difference. */
  lemma {:induction false} BeforeIsFirstDifference(a: Units, b: Units)
    ensures Before(a, b) <==> exists n: nat :: DiffersAt(a, b, n)
    decreases |a|
  {
    if a != [] && b != [] && a[0] == b[0] {
      BeforeIsFirstDifference(a[1..], b[1..]);
      if n: nat :| DiffersAt(a[1..], b[1..], n) {
        assert a[..n + 1] == [a[0]] + a[1..][..n] && b[..n + 1] == [b[0]] + b[1..][..n];
        assert DiffersAt(a, b, n + 1);
      }
      if n: nat :| DiffersAt(a, b, n) {
        assert a[1..][..n - 1] == a[..n][1..] && b[1..][..n - 1] == b[..n][1..];
        assert DiffersAt(a[1..], b[1..], n - 1);
      }
    } else if b != [] {
      if Before(a, b) {
        assert DiffersAt(a, b, 0);
      }
      forall n: nat | DiffersAt(a, b, n)
        ensures n == 0 || (a != [] && a[0] == b[0])
      {
        SameStart(a, b, n);
      }
    }
  }

  lemma SameStart(a: Units, b: Units, n: nat)
    requires n <= |a| && n <= |b| && a[..n] == b[..n]
    ensures n == 0 || a[0] == b[0]
  {
    assert n == 0 || (a[..n][0] == a[0] && b[..n][0] == b[0]);
  }

  // ----- the marks

  lemma ArrayMarks(t: Tree, u: Tree)
    ensures Print(Arr([t, u])) == Ascii("[") + (Print(t) + Ascii(",") + Print(u)) + Ascii("]")
  {
    assert ItemTexts(Arr([t, u])) == [Print(t), Print(u)];
    JoinTwo(Print(t), Print(u));
    MarksAre();
  }

  lemma JoinTwo(x: Units, y: Units)
    ensures JoinComma([x, y]) == x + [COMMA] + y
  {
    assert [x, y][1..] == [y];
  }

  lemma MarksAre()
    ensures Ascii("[") == [LEFT_BRACKET] && Ascii("]") == [RIGHT_BRACKET]
    ensures Ascii("{") == [LEFT_BRACE] && Ascii("}") == [RIGHT_BRACE]
    ensures Ascii(",") == [COMMA] && Ascii(":") == [COLON] && Ascii("\"") == [QUOTE] && Ascii("-") == [MINUS]
  {
  }

  /** Two fields, whichever the object lists first: keys in quotes, a colon, and a comma in between. */
  lemma ObjectMarks(key: Units, t: Tree, other: Units, u: Tree, n: nat)
    requires DiffersAt(key, other, n)
    ensures Print(Obj(map[key := t, other := u]))
         == Ascii("{") + (FieldMarks(key, t) + Ascii(",") + FieldMarks(other, u)) + Ascii("}")
  {
    var pair := Obj(map[key := t, other := u]);
    TwoKeys(key, other, n);
    assert pair.fields.Keys == {key, other};
    FieldIs(pair, key, other);
    JoinTwo(FieldMarks(key, t), FieldMarks(other, u));
    MarksAre();
  }

  lemma TwoKeys(key: Units, other: Units, n: nat)
    requires DiffersAt(key, other, n)
    ensures key != other && KeyOrder({key, other}) == [key, other]
  {
    BeforeIsFirstDifference(key, other);
    BeforeIsStrict(key, other);
    AscendingIsUnique(KeyOrder({key, other}), [key, other]);
  }

  lemma FieldIs(t: Tree, key: Units, other: Units)
    requires t.Obj? && key in t.fields && other in t.fields
    ensures FieldTexts(t, [key, other]) == [FieldMarks(key, t.fields[key]), FieldMarks(other, t.fields[other])]
  {
    MarksAre();
  }

  ghost function FieldMarks(key: Units, t: Tree): Units {
    Ascii("\"") + Escape(key) + Ascii("\"") + Ascii(":") + Print(t)
  }

  /** A number without a sign is digits, the first of them no zero unless it is alone. */
  lemma {:induction false} NumberIsDigits(n: nat)
    ensures Print(Num(n)) != [] && forall i | 0 <= i < |Print(Num(n))| :: 0x30 <= Print(Num(n))[i] <= 0x39
    ensures Print(Num(n))[0] == 0x30 ==> n == 0 && |Print(Num(n))| == 1
  {
    if n >= 10 {
      NumberIsDigits(n / 10);
      assert Print(Num(n)) == Print(Num(n / 10)) + [0x30 + n % 10];
    }
  }

  /** A negative number is its absolute value behind a minus sign. */
  lemma NumberMarks(n: nat)
    requires n > 0
    ensures Print(Num(0 - n)) == Ascii("-") + Print(Num(n))
  {
    MarksAre();
  }
}
