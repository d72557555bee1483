/**
 Canonical argument text: JSON with object keys in sorted order, as a function of finite trees.
 Strings are sequences of UTF-16 code units; they are quoted as section 25.5.2 of ECMA-262 and
 section 7 of RFC 8259 have it.
 */
module Canonical {

  type CodeUnit = u: int | 0 <= u < 0x1_0000

  type Units = seq<CodeUnit>

  const QUOTE: CodeUnit := 0x22
  const BACKSLASH: CodeUnit := 0x5C
  const COMMA: CodeUnit := 0x2C
  const COLON: CodeUnit := 0x3A
  const MINUS: CodeUnit := 0x2D
  const LEFT_BRACKET: CodeUnit := 0x5B
  const RIGHT_BRACKET: CodeUnit := 0x5D
  const LEFT_BRACE: CodeUnit := 0x7B
  const RIGHT_BRACE: CodeUnit := 0x7D

  /**
   A value as the printer meets it. `Circular` stands for an object inside itself; the other
   constructors from `BigInt` on are values that JSON does not have.
   */
  datatype Tree =
    | Null
    | Bool(b: bool)
    | Num(n: int)
    | Str(s: Units)
    | Arr(items: seq<Tree>)
    | Obj(fields: map<Units, Tree>)
    | BigInt(n: int)
    | NonFinite
    | Unserializable
    | Circular

  /** The code units of a text of ASCII characters. */
  function Ascii(s: string): Units {
    seq(|s|, i requires 0 <= i < |s| => s[i] as int % 0x1_0000)
  }

  // ----- key order

  predicate Before(a: Units, b: Units) {
    b != [] && (a == [] || a[0] < b[0] || (a[0] == b[0] && Before(a[1..], b[1..])))
  }

  lemma {:induction false} BeforeIsTotal(a: Units, b: Units)
    ensures a == b || Before(a, b) || Before(b, a)
  {
    if a != [] && b != [] && a[0] == b[0] {
      BeforeIsTotal(a[1..], b[1..]);
      assert a == [a[0]] + a[1..] && b == [b[0]] + b[1..];
    }
  }

  lemma {:induction false} BeforeIsStrict(a: Units, b: Units)
    ensures !(Before(a, b) && (a == b || Before(b, a)))
  {
    if a != [] && b != [] {
      BeforeIsStrict(a[1..], b[1..]);
    }
  }

  lemma {:induction false} BeforeIsTransitive(a: Units, b: Units, c: Units)
    requires Before(a, b) && Before(b, c)
    ensures Before(a, c)
  {
    if a != [] && a[0] == b[0] == c[0] {
      BeforeIsTransitive(a[1..], b[1..], c[1..]);
    }
  }

  predicate Ascending(keys: seq<Units>) {
    forall i, j | 0 <= i < j < |keys| :: Before(keys[i], keys[j])
  }

  /** A key put where it belongs in a list in ascending order. */
  function Insert(key: Units, keys: seq<Units>): seq<Units> {
    if keys == [] || Before(key, keys[0]) then [key] + keys else [keys[0]] + Insert(key, keys[1..])
  }

  lemma {:induction false} InsertAscends(key: Units, keys: seq<Units>)
    requires Ascending(keys) && key !in keys
    ensures Ascending(Insert(key, keys)) && forall k :: k in Insert(key, keys) <==> k == key || k in keys
  {
    if keys != [] {
      BeforeIsTotal(key, keys[0]);
      if Before(key, keys[0]) {
        forall j | 0 < j < |keys| ensures Before(key, keys[j]) {
          BeforeIsTransitive(key, keys[0], keys[j]);
        }
      } else {
        var rest := Insert(key, keys[1..]);
        InsertAscends(key, keys[1..]);
        forall j | 0 <= j < |rest| ensures Before(keys[0], rest[j]) {
          assert rest[j] in rest;
          if rest[j] != key {
            var i :| 0 <= i < |keys[1..]| && keys[1..][i] == rest[j];
            assert keys[i + 1] == rest[j];
          }
        }
        assert keys == [keys[0]] + keys[1..];
      }
    }
  }

  /** What sorting makes of a list of distinct keys. */
  function Sorted(keys: seq<Units>): seq<Units> {
    if keys == [] then [] else Insert(keys[0], Sorted(keys[1..]))
  }

  predicate Distinct(keys: seq<Units>) {
    forall i, j | 0 <= i < j < |keys| :: keys[i] != keys[j]
  }

  lemma {:induction false} SortedAscends(keys: seq<Units>)
    requires Distinct(keys)
    ensures Ascending(Sorted(keys)) && forall k :: k in Sorted(keys) <==> k in keys
  {
    if keys != [] {
      SortedAscends(keys[1..]);
      assert keys == [keys[0]] + keys[1..];
      assert keys[0] !in keys[1..];
      InsertAscends(keys[0], Sorted(keys[1..]));
    }
  }

  /** There is one ascending list of a set of keys. */
  lemma {:induction false} AscendingIsUnique(a: seq<Units>, b: seq<Units>)
    requires Ascending(a) && Ascending(b) && forall k :: k in a <==> k in b
    ensures a == b
    decreases |a|
  {
    HasMember(a);
    HasMember(b);
    if a != [] {
      assert a[0] in a && a[0] in b;
      assert b[0] in b && b[0] in a;
      var i :| 0 <= i < |b| && b[i] == a[0];
      var j :| 0 <= j < |a| && a[j] == b[0];
      BeforeIsStrict(a[0], b[0]);
      assert a[0] == b[0];
      forall k ensures k in a[1..] <==> k in b[1..] {
        TailMembers(a, k);
        TailMembers(b, k);
      }
      AscendingIsUnique(a[1..], b[1..]);
    }
  }

  lemma HasMember(a: seq<Units>)
    ensures a == [] || exists k :: k in a
  {
    assert a == [] || a[0] in a;
  }

  lemma TailMembers(a: seq<Units>, k: Units)
    requires a != [] && Ascending(a)
    ensures k in a[1..] <==> k in a && k != a[0]
  {
    BeforeIsStrict(a[0], a[0]);
    if k in a && k != a[0] {
      var i :| 0 <= i < |a| && a[i] == k;
      assert a[1..][i - 1] == k;
    }
    if k in a[1..] {
      var i :| 0 <= i < |a| - 1 && a[1..][i] == k;
      assert a[i + 1] == k && Before(a[0], a[i + 1]);
    }
  }

  /** The keys of an object in the order in which they are printed. */
  ghost function KeyOrder(keys: set<Units>): (order: seq<Units>)
    ensures Ascending(order) && forall k :: k in order <==> k in keys
  {
    if keys == {} then []
    else
      var k :| k in keys;
      var rest := KeyOrder(keys - {k});
      InsertAscends(k, rest);
      Insert(k, rest)
  }

  lemma SortedIsKeyOrder(keys: seq<Units>, all: set<Units>)
    requires Distinct(keys) && forall k :: k in keys <==> k in all
    ensures Sorted(keys) == KeyOrder(all)
  {
    SortedAscends(keys);
    AscendingIsUnique(Sorted(keys), KeyOrder(all));
  }

  // ----- numbers and strings

  function Digits(n: nat): Units {
    if n < 10 then [0x30 + n] else Digits(n / 10) + [0x30 + n % 10]
  }

  function Decimal(n: int): Units {
    if n < 0 then [MINUS] + Digits(-n) else Digits(n)
  }

  function HexDigit(d: int): CodeUnit
    requires 0 <= d < 16
  {
    if d < 10 then 0x30 + d else 0x61 + d - 10
  }

  function UnicodeEscape(u: CodeUnit): Units {
    [BACKSLASH, 0x75, HexDigit(u / 16 / 16 / 16), HexDigit(u / 16 / 16 % 16), HexDigit(u / 16 % 16), HexDigit(u % 16)]
  }

  predicate IsLead(u: CodeUnit) {
    0xD800 <= u <= 0xDBFF
  }

  predicate IsTrail(u: CodeUnit) {
    0xDC00 <= u <= 0xDFFF
  }

  /** One code unit that is not part of a surrogate pair. */
  function EscapeUnit(u: CodeUnit): Units {
    if u == 0x08 then [BACKSLASH, 0x62]
    else if u == 0x09 then [BACKSLASH, 0x74]
    else if u == 0x0A then [BACKSLASH, 0x6E]
    else if u == 0x0C then [BACKSLASH, 0x66]
    else if u == 0x0D then [BACKSLASH, 0x72]
    else if u == QUOTE || u == BACKSLASH then [BACKSLASH, u]
    else if u < 0x20 || IsLead(u) || IsTrail(u) then UnicodeEscape(u)
    else [u]
  }

  function Escape(s: Units): Units {
    if s == [] then []
    else if |s| > 1 && IsLead(s[0]) && IsTrail(s[1]) then s[..2] + Escape(s[2..])
    else EscapeUnit(s[0]) + Escape(s[1..])
  }

  function Quote(s: Units): Units {
    [QUOTE] + Escape(s) + [QUOTE]
  }

  // ----- the printer

  function JoinComma(parts: seq<Units>): Units {
    if parts == [] then []
    else if |parts| == 1 then parts[0]
    else parts[0] + [COMMA] + JoinComma(parts[1..])
  }

  /** A text that needs no escapes, between quotes. */
  function Quoted(name: string): Units {
    [QUOTE] + Ascii(name) + [QUOTE]
  }

  ghost function Print(t: Tree): Units
    decreases t, 1
  {
    match t
    case Null => Ascii("null")
    case Bool(b) => Ascii(if b then "true" else "false")
    case Num(n) => Decimal(n)
    case Str(s) => Quote(s)
    case BigInt(n) => Quote(Decimal(n) + Ascii("n"))
    case NonFinite => Quoted("__nonfinite__")
    case Unserializable => Quoted("__unserializable__")
    case Circular => Quoted("__circular__")
    case Arr(items) => [LEFT_BRACKET] + JoinComma(ItemTexts(t)) + [RIGHT_BRACKET]
    case Obj(fields) => [LEFT_BRACE] + JoinComma(FieldTexts(t, KeyOrder(fields.Keys))) + [RIGHT_BRACE]
  }

  ghost function ItemTexts(t: Tree): seq<Units>
    requires t.Arr?
    decreases t, 0
  {
    seq(|t.items|, i requires 0 <= i < |t.items| => Print(t.items[i]))
  }

  ghost function FieldTexts(t: Tree, keys: seq<Units>): seq<Units>
    requires t.Obj? && forall k | k in keys :: k in t.fields
    decreases t, 0
  {
    seq(|keys|, i requires 0 <= i < |keys| => Quote(keys[i]) + [COLON] + Print(t.fields[keys[i]]))
  }
}
