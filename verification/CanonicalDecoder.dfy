/** A decoder that inverts the printer of canonical text, and what it shows about the text. */
module CanonicalDecoder {
  import opened Wrappers
  import opened Canonical

  // ----- trees as JSON values

  function Sentinel(name: string): Tree {
    Str(Ascii(name))
  }

  /** The JSON value that a tree is printed as. */
  function Normal(t: Tree): Tree {
    match t
    case BigInt(n) => Str(Decimal(n) + Ascii("n"))
    case NonFinite => Sentinel("__nonfinite__")
    case Unserializable => Sentinel("__unserializable__")
    case Circular => Sentinel("__circular__")
    case Arr(items) => Arr(seq(|items|, i requires 0 <= i < |items| => Normal(items[i])))
    case Obj(fields) => Obj(map k | k in fields :: Normal(fields[k]))
    case _ => t
  }

  /** A JSON value. */
  predicate Plain(t: Tree) {
    match t
    case Arr(items) => forall i | 0 <= i < |items| :: Plain(items[i])
    case Obj(fields) => forall k | k in fields :: Plain(fields[k])
    case _ => t.Null? || t.Bool? || t.Num? || t.Str?
  }

  lemma {:induction false} NormalIsPlain(t: Tree)
    ensures Plain(Normal(t))
  {
    match t
    case Arr(items) =>
      forall i | 0 <= i < |items| ensures Plain(Normal(items[i])) {
        NormalIsPlain(items[i]);
      }
    case Obj(fields) =>
      forall k | k in fields ensures Plain(Normal(fields[k])) {
        NormalIsPlain(fields[k]);
      }
    case _ =>
  }

  lemma {:induction false} PlainIsNormal(t: Tree)
    requires Plain(t)
    ensures Normal(t) == t
  {
    match t
    case Arr(items) =>
      forall i | 0 <= i < |items| ensures Normal(items[i]) == items[i] {
        PlainIsNormal(items[i]);
      }
      assert Normal(t).items == items;
    case Obj(fields) =>
      forall k | k in fields ensures Normal(fields[k]) == fields[k] {
        PlainIsNormal(fields[k]);
      }
      assert Normal(t).fields == fields;
    case _ =>
  }

  lemma {:induction false} PlainEscape(s: Units)
    requires forall i | 0 <= i < |s| :: 0x20 <= s[i] < 0x80 && s[i] != QUOTE && s[i] != BACKSLASH
    ensures Escape(s) == s
  {
    if s != [] {
      PlainEscape(s[1..]);
      assert s == [s[0]] + s[1..];
    }
  }

  lemma SentinelText(name: string)
    requires forall i | 0 <= i < |name| :: name[i] == '_' || 'a' <= name[i] <= 'z'
    ensures Print(Sentinel(name)) == Quoted(name)
  {
    forall i | 0 <= i < |name| ensures 0x20 <= Ascii(name)[i] < 0x80 && Ascii(name)[i] !in {QUOTE, BACKSLASH} {
      assert Ascii(name)[i] == name[i] as int;
    }
    PlainEscape(Ascii(name));
  }

  lemma SentinelsPrintAlike(t: Tree)
    requires t.NonFinite? || t.Unserializable? || t.Circular?
    ensures Print(Normal(t)) == Print(t)
  {
    if t.NonFinite? {
      SentinelText("__nonfinite__");
    } else if t.Unserializable? {
      SentinelText("__unserializable__");
    } else {
      SentinelText("__circular__");
    }
  }

  /** A tree and the JSON value it is printed as have the same text. */
  lemma {:induction false} NormalPrintsAlike(t: Tree)
    ensures Print(Normal(t)) == Print(t)
  {
    match t
    case NonFinite => SentinelsPrintAlike(t);
    case Unserializable => SentinelsPrintAlike(t);
    case Circular => SentinelsPrintAlike(t);
    case Arr(items) =>
      forall i | 0 <= i < |items| ensures Print(Normal(items[i])) == Print(items[i]) {
        NormalPrintsAlike(items[i]);
      }
      assert ItemTexts(Normal(t)) == ItemTexts(t);
    case Obj(fields) =>
      assert Normal(t).fields.Keys == fields.Keys;
      forall k | k in fields ensures Print(Normal(fields[k])) == Print(fields[k]) {
        NormalPrintsAlike(fields[k]);
      }
      var order := KeyOrder(fields.Keys);
      assert FieldTexts(Normal(t), order) == FieldTexts(t, order);
    case _ =>
  }

  // ----- the decoder

  predicate IsDigit(u: CodeUnit) {
    0x30 <= u <= 0x39
  }

  /** The digits at the start of a text, read after digits worth `n`, and the text behind them. */
  function ReadDigits(n: nat, s: Units): (r: (nat, Units))
    ensures |r.1| <= |s|
    decreases |s|
  {
    if s == [] || !IsDigit(s[0]) then (n, s) else ReadDigits(10 * n + (s[0] as int - 0x30), s[1..])
  }

  function DecodeNumber(s: Units): (r: Option<(nat, Units)>)
    ensures r.Some? ==> |r.value.1| < |s|
  {
    if s == [] || !IsDigit(s[0]) then None else Some(ReadDigits(0, s))
  }

  function HexValue(u: CodeUnit): Option<int> {
    if IsDigit(u) then Some(u - 0x30) else if 0x61 <= u <= 0x66 then Some(u - 0x61 + 10) else None
  }

  function DecodeHex(s: Units): Option<CodeUnit>
    requires |s| == 4
  {
    match (HexValue(s[0]), HexValue(s[1]), HexValue(s[2]), HexValue(s[3]))
    case (Some(a), Some(b), Some(c), Some(d)) =>
      var u := a * 0x1000 + b * 0x100 + c * 0x10 + d;
      if 0 <= u < 0x1_0000 then Some(u) else None
    case _ => None
  }

  /** The unit that a backslash and this unit stand for. */
  function Unescaped(u: CodeUnit): Option<CodeUnit> {
    if u == 0x62 then Some(0x08)
    else if u == 0x74 then Some(0x09)
    else if u == 0x6E then Some(0x0A)
    else if u == 0x66 then Some(0x0C)
    else if u == 0x72 then Some(0x0D)
    else if u == QUOTE || u == BACKSLASH then Some(u)
    else None
  }

  /** The first unit of a string's text and how many units of text it takes. */
  function DecodeUnit(s: Units): Option<(CodeUnit, nat)> {
    if s == [] || s[0] == QUOTE then None
    else if s[0] != BACKSLASH then Some((s[0], 1))
    else if |s| < 2 then None
    else if s[1] == 0x75 then
      if |s| < 6 then None
      else match DecodeHex(s[2..6])
           case None => None
           case Some(u) => Some((u, 6))
    else
      match Unescaped(s[1])
      case None => None
      case Some(u) => Some((u, 2))
  }

  /** The rest of a string, from behind its opening quote, and the text behind its closing quote. */
  function DecodeString(s: Units): (r: Option<(Units, Units)>)
    ensures r.Some? ==> |r.value.1| < |s|
    decreases |s|
  {
    if s != [] && s[0] == QUOTE then Some(([], s[1..]))
    else
      match DecodeUnit(s)
      case None => None
      case Some((u, n)) =>
        match DecodeString(s[n..])
        case None => None
        case Some((units, rest)) => Some(([u] + units, rest))
  }

  predicate StartsWith(s: Units, u: CodeUnit) {
    s != [] && s[0] == u
  }

  function DecodeWord(s: Units, word: string, t: Tree): (r: Option<(Tree, Units)>)
    requires word != []
    ensures r.Some? ==> |r.value.1| < |s|
  {
    if Ascii(word) <= s then Some((t, s[|word|..])) else None
  }

  /** The first value of a text, and the text behind it. */
  function Decode(s: Units): (r: Option<(Tree, Units)>)
    ensures r.Some? ==> |r.value.1| < |s|
    decreases |s|, 0
  {
    if StartsWith(s, 0x6E) then DecodeWord(s, "null", Null)
    else if StartsWith(s, 0x74) then DecodeWord(s, "true", Bool(true))
    else if StartsWith(s, 0x66) then DecodeWord(s, "false", Bool(false))
    else if StartsWith(s, QUOTE) then
      match DecodeString(s[1..])
      case None => None
      case Some((units, rest)) => Some((Str(units), rest))
    else if StartsWith(s, LEFT_BRACKET) then
      if StartsWith(s[1..], RIGHT_BRACKET) then Some((Arr([]), s[2..]))
      else
        match DecodeItems(s[1..])
        case None => None
        case Some((items, rest)) => Some((Arr(items), rest))
    else if StartsWith(s, LEFT_BRACE) then
      if StartsWith(s[1..], RIGHT_BRACE) then Some((Obj(map[]), s[2..]))
      else
        match DecodeFields(s[1..])
        case None => None
        case Some((fields, rest)) => Some((Obj(fields), rest))
    else if StartsWith(s, MINUS) then
      match DecodeNumber(s[1..])
      case None => None
      case Some((n, rest)) => Some((Num(0 - n), rest))
    else
      match DecodeNumber(s)
      case None => None
      case Some((n, rest)) => Some((Num(n), rest))
  }

  /** At least one value and further values behind commas, up to a closing bracket. */
  function DecodeItems(s: Units): (r: Option<(seq<Tree>, Units)>)
    ensures r.Some? ==> |r.value.1| < |s|
    decreases |s|, 1
  {
    match Decode(s)
    case None => None
    case Some((item, rest)) =>
      if StartsWith(rest, RIGHT_BRACKET) then Some(([item], rest[1..]))
      else if StartsWith(rest, COMMA) then
        match DecodeItems(rest[1..])
        case None => None
        case Some((items, last)) => Some(([item] + items, last))
      else None
  }

  /** At least one key and value and further ones behind commas, up to a closing brace. */
  function DecodeFields(s: Units): (r: Option<(map<Units, Tree>, Units)>)
    ensures r.Some? ==> |r.value.1| < |s|
    decreases |s|, 1
  {
    if !StartsWith(s, QUOTE) then None
    else
      match DecodeString(s[1..])
      case None => None
      case Some((key, colon)) =>
        if !StartsWith(colon, COLON) then None
        else
          match Decode(colon[1..])
          case None => None
          case Some((value, rest)) =>
            if StartsWith(rest, RIGHT_BRACE) then Some((map[key := value], rest[1..]))
            else if StartsWith(rest, COMMA) then
              match DecodeFields(rest[1..])
              case None => None
              case Some((fields, last)) => Some((map[key := value] + fields, last))
            else None
  }

  // ----- numbers and strings come back

  /** A text that cannot continue a number. */
  predicate EndsNumber(rest: Units) {
    rest == [] || !IsDigit(rest[0])
  }

  lemma {:induction false} DigitsStart(n: nat)
    ensures Digits(n) != [] && IsDigit(Digits(n)[0])
  {
    if n >= 10 {
      DigitsStart(n / 10);
    }
  }

  lemma {:induction false} DigitsComeBack(n: nat, rest: Units)
    ensures ReadDigits(0, Digits(n) + rest) == ReadDigits(n, rest)
  {
    var last := [0x30 + n % 10];
    if n < 10 {
      assert Digits(n) + rest == [0x30 + n] + rest;
      assert (Digits(n) + rest)[1..] == rest;
    } else {
      assert Digits(n) + rest == Digits(n / 10) + (last + rest);
      DigitsComeBack(n / 10, last + rest);
      assert (last + rest)[1..] == rest;
    }
  }

  lemma NumberComesBack(n: nat, rest: Units)
    requires EndsNumber(rest)
    ensures DecodeNumber(Digits(n) + rest) == Some((n, rest))
  {
    DigitsStart(n);
    DigitsComeBack(n, rest);
  }

  lemma HexDigitsOf(u: CodeUnit)
    ensures u == u / 16 / 16 / 16 * 0x1000 + u / 16 / 16 % 16 * 0x100 + u / 16 % 16 * 0x10 + u % 16
  {
    var a := u / 16;
    var b := a / 16;
    assert u == 16 * a + u % 16 && a == 16 * b + a % 16 && b == 16 * (b / 16) + b % 16;
  }

  lemma HexComesBack(u: CodeUnit)
    ensures DecodeHex(UnicodeEscape(u)[2..6]) == Some(u)
  {
    var s := UnicodeEscape(u);
    assert s[2..6] == [s[2], s[3], s[4], s[5]];
    assert forall d | 0 <= d < 16 :: HexValue(HexDigit(d)) == Some(d);
    HexDigitsOf(u);
  }

  lemma UnitComesBack(u: CodeUnit, rest: Units)
    ensures DecodeUnit(EscapeUnit(u) + rest) == Some((u, |EscapeUnit(u)|))
  {
    var s := EscapeUnit(u) + rest;
    if EscapeUnit(u) == UnicodeEscape(u) {
      HexComesBack(u);
      assert s[2..6] == UnicodeEscape(u)[2..6];
    }
  }

  lemma DecodeStringStep(u: CodeUnit, unit: Units, text: Units)
    requires DecodeUnit(unit + text) == Some((u, |unit|)) && DecodeString(text).Some?
    ensures DecodeString(unit + text) == Some(([u] + DecodeString(text).value.0, DecodeString(text).value.1))
  {
    assert (unit + text)[|unit|..] == text;
  }

  lemma {:induction false} StringComesBack(s: Units, tail: Units)
    requires StartsWith(tail, QUOTE)
    ensures DecodeString(Escape(s) + tail) == Some((s, tail[1..]))
    decreases |s|
  {
    if s == [] {
      assert Escape(s) + tail == tail;
    } else if |s| > 1 && IsLead(s[0]) && IsTrail(s[1]) {
      var text := Escape(s[2..]) + tail;
      StringComesBack(s[2..], tail);
      DecodeStringStep(s[1], [s[1]], text);
      DecodeStringStep(s[0], [s[0]], [s[1]] + text);
      assert s[..2] + Escape(s[2..]) + tail == [s[0]] + ([s[1]] + text);
      assert s == [s[0]] + ([s[1]] + s[2..]);
    } else {
      var text := Escape(s[1..]) + tail;
      StringComesBack(s[1..], tail);
      UnitComesBack(s[0], text);
      DecodeStringStep(s[0], EscapeUnit(s[0]), text);
      assert EscapeUnit(s[0]) + Escape(s[1..]) + tail == EscapeUnit(s[0]) + text;
      assert s == [s[0]] + s[1..];
    }
  }

  // ----- trees come back

  /** No value's text is empty or starts with a closing bracket. */
  lemma PrintStart(t: Tree)
    ensures Print(t) != [] && Print(t)[0] != RIGHT_BRACKET
  {
    match t
    case Num(n) =>
      DigitsStart(if n < 0 then -n else n);
    case _ =>
  }

  lemma {:induction false} TreeComesBack(t: Tree, rest: Units)
    requires Plain(t) && EndsNumber(rest)
    ensures Decode(Print(t) + rest) == Some((t, rest))
    decreases t, 2, 0
  {
    var s := Print(t) + rest;
    match t
    case Null =>
      WordComesBack("null", t, rest);
    case Bool(b) =>
      WordComesBack(if b then "true" else "false", t, rest);
    case Num(n) =>
      NumeralComesBack(n, rest);
    case Str(units) =>
      assert s[1..] == Escape(units) + ([QUOTE] + rest);
      StringComesBack(units, [QUOTE] + rest);
    case Arr(items) =>
      ArrayComesBack(t, rest);
    case Obj(fields) =>
      ObjectComesBack(t, rest);
  }

  lemma WordComesBack(word: string, t: Tree, rest: Units)
    requires word != []
    ensures DecodeWord(Ascii(word) + rest, word, t) == Some((t, rest))
    ensures (Ascii(word) + rest)[0] == word[0] as int % 0x1_0000
  {
    assert Ascii(word) <= Ascii(word) + rest;
    assert (Ascii(word) + rest)[|word|..] == rest;
  }

  lemma DecodeMinus(s: Units)
    requires DecodeNumber(s).Some?
    ensures Decode([MINUS] + s) == Some((Num(0 - DecodeNumber(s).value.0), DecodeNumber(s).value.1))
  {
    assert ([MINUS] + s)[1..] == s;
  }

  lemma DecodeDigits(s: Units)
    requires s != [] && IsDigit(s[0])
    ensures Decode(s) == Some((Num(DecodeNumber(s).value.0), DecodeNumber(s).value.1))
  {
  }

  lemma NumeralComesBack(n: int, rest: Units)
    requires EndsNumber(rest)
    ensures Decode(Print(Num(n)) + rest) == Some((Num(n), rest))
  {
    if n < 0 {
      NumberComesBack(-n, rest);
      DecodeMinus(Digits(-n) + rest);
      assert Decimal(n) + rest == [MINUS] + (Digits(-n) + rest);
    } else {
      DigitsStart(n);
      NumberComesBack(n, rest);
      DecodeDigits(Digits(n) + rest);
    }
  }

  lemma {:induction false} ArrayComesBack(t: Tree, rest: Units)
    requires t.Arr? && Plain(t)
    ensures Decode(Print(t) + rest) == Some((t, rest))
    decreases t, 1, 0
  {
    var parts := ItemTexts(t);
    var s := Print(t) + rest;
    if t.items == [] {
      assert s == [LEFT_BRACKET, RIGHT_BRACKET] + rest;
      assert s[1..] == [RIGHT_BRACKET] + rest && s[2..] == rest;
    } else {
      var inner := JoinComma(parts) + ([RIGHT_BRACKET] + rest);
      assert s == [LEFT_BRACKET] + inner && s[1..] == inner;
      ItemsComeBack(t, 0, rest);
      assert parts[0..] == parts && t.items[0..] == t.items;
      PrintStart(t.items[0]);
      assert JoinComma(parts)[0] == parts[0][0];
    }
  }

  lemma {:induction false} ItemsComeBack(t: Tree, k: nat, rest: Units)
    requires t.Arr? && Plain(t) && k < |t.items|
    ensures DecodeItems(JoinComma(ItemTexts(t)[k..]) + ([RIGHT_BRACKET] + rest)) == Some((t.items[k..], rest))
    decreases t, 0, |t.items| - k
  {
    var parts := ItemTexts(t)[k..];
    assert parts[0] == Print(t.items[k]);
    if k + 1 == |t.items| {
      TreeComesBack(t.items[k], [RIGHT_BRACKET] + rest);
      assert t.items[k..] == [t.items[k]];
    } else {
      var next := JoinComma(ItemTexts(t)[k + 1..]) + ([RIGHT_BRACKET] + rest);
      assert parts[1..] == ItemTexts(t)[k + 1..];
      assert JoinComma(parts) + ([RIGHT_BRACKET] + rest) == Print(t.items[k]) + ([COMMA] + next);
      TreeComesBack(t.items[k], [COMMA] + next);
      assert ([COMMA] + next)[1..] == next;
      ItemsComeBack(t, k + 1, rest);
      assert t.items[k..] == [t.items[k]] + t.items[k + 1..];
    }
  }

  /** The fields of an object whose keys are in this list. */
  function Restricted(t: Tree, keys: seq<Units>): map<Units, Tree>
    requires t.Obj?
  {
    map k | k in keys && k in t.fields :: t.fields[k]
  }

  lemma {:induction false} ObjectComesBack(t: Tree, rest: Units)
    requires t.Obj? && Plain(t)
    ensures Decode(Print(t) + rest) == Some((t, rest))
    decreases t, 1, 0
  {
    var order := KeyOrder(t.fields.Keys);
    if order == [] {
      assert t.fields.Keys == {} && t.fields == map[];
      EmptyObjectComesBack(rest);
    } else {
      var inner := JoinComma(FieldTexts(t, order)) + ([RIGHT_BRACE] + rest);
      assert Print(t) + rest == [LEFT_BRACE] + inner;
      FieldsComeBack(t, order, rest);
      assert Restricted(t, order) == t.fields;
      assert inner[0] == FieldTexts(t, order)[0][0] == QUOTE;
      DecodeObject(inner);
    }
  }

  lemma EmptyObjectComesBack(rest: Units)
    ensures Decode([LEFT_BRACE] + [] + [RIGHT_BRACE] + rest) == Some((Obj(map[]), rest))
  {
    var s := [LEFT_BRACE, RIGHT_BRACE] + rest;
    assert [LEFT_BRACE] + [] + [RIGHT_BRACE] + rest == s;
    assert s[1..] == [RIGHT_BRACE] + rest && s[2..] == rest;
  }

  lemma DecodeObject(inner: Units)
    requires StartsWith(inner, QUOTE) && DecodeFields(inner).Some?
    ensures Decode([LEFT_BRACE] + inner) == Some((Obj(DecodeFields(inner).value.0), DecodeFields(inner).value.1))
  {
    assert ([LEFT_BRACE] + inner)[1..] == inner;
  }

  lemma {:induction false} FieldsComeBack(t: Tree, keys: seq<Units>, rest: Units)
    requires t.Obj? && Plain(t) && keys != [] && Ascending(keys) && forall k | k in keys :: k in t.fields
    ensures DecodeFields(JoinComma(FieldTexts(t, keys)) + ([RIGHT_BRACE] + rest)) == Some((Restricted(t, keys), rest))
    decreases t, 0, |keys|
  {
    var key, others := keys[0], keys[1..];
    var first, closing := t.fields[key], [RIGHT_BRACE] + rest;
    FieldsSplit(t, key, others);
    assert keys == [key] + others && key in keys;
    if others == [] {
      TreeComesBack(first, closing);
      FieldComesBack(key, first, closing);
      assert closing[1..] == rest;
      assert [FieldText(key, first)] + FieldTexts(t, others) == [FieldText(key, first)];
      assert map[key := first] + Restricted(t, others) == map[key := first];
    } else {
      var next := JoinComma(FieldTexts(t, others)) + closing;
      FieldsComeBack(t, others, rest);
      TreeComesBack(first, [COMMA] + next);
      FieldComesBack(key, first, [COMMA] + next);
      JoinCommaFirst(FieldText(key, first), FieldTexts(t, others), closing);
      assert ([COMMA] + next)[1..] == next;
    }
  }

  lemma FieldsSplit(t: Tree, key: Units, others: seq<Units>)
    requires t.Obj? && forall k | k in [key] + others :: k in t.fields
    requires key in [key] + others
    ensures FieldTexts(t, [key] + others) == [FieldText(key, t.fields[key])] + FieldTexts(t, others)
    ensures Restricted(t, [key] + others) == map[key := t.fields[key]] + Restricted(t, others)
  {
    assert forall k | k in others :: k in [key] + others;
  }

  lemma JoinCommaFirst(part: Units, parts: seq<Units>, closing: Units)
    requires parts != []
    ensures JoinComma([part] + parts) + closing == part + ([COMMA] + (JoinComma(parts) + closing))
  {
    assert ([part] + parts)[1..] == parts;
  }

  ghost function FieldText(key: Units, t: Tree): Units {
    Quote(key) + [COLON] + Print(t)
  }

  lemma Regrouped(quote: Units, key: Units, colon: Units, text: Units, tail: Units)
    ensures quote + key + quote + colon + text + tail == quote + (key + (quote + (colon + (text + tail))))
  {
  }

  /** Reading one field, given that its value comes back. */
  lemma FieldComesBack(key: Units, t: Tree, tail: Units)
    requires Decode(Print(t) + tail) == Some((t, tail))
    ensures DecodeFields(FieldText(key, t) + tail) ==
      if StartsWith(tail, RIGHT_BRACE) then Some((map[key := t], tail[1..]))
      else if StartsWith(tail, COMMA) && DecodeFields(tail[1..]).Some? then
        Some((map[key := t] + DecodeFields(tail[1..]).value.0, DecodeFields(tail[1..]).value.1))
      else None
  {
    var colon := [COLON] + (Print(t) + tail);
    var quoted := Escape(key) + ([QUOTE] + colon);
    Regrouped([QUOTE], Escape(key), [COLON], Print(t), tail);
    assert FieldText(key, t) + tail == [QUOTE] + quoted;
    assert ([QUOTE] + quoted)[1..] == quoted;
    StringComesBack(key, [QUOTE] + colon);
    assert ([QUOTE] + colon)[1..] == colon;
    assert colon[1..] == Print(t) + tail;
  }

  // ----- the text is unambiguous

  /** The decoder inverts the printer on JSON values. */
  lemma PrintDecodes(t: Tree)
    requires Plain(t)
    ensures Decode(Print(t)) == Some((t, []))
  {
    TreeComesBack(t, []);
    assert Print(t) + [] == Print(t);
  }

  /**
   Two values have the same canonical text exactly when they stand for the same JSON value: equal
   up to the order in which objects list their keys, and up to the strings that take the place of
   what JSON does not have.
   */
  lemma SameTextIffSameValue(t: Tree, u: Tree)
    ensures Print(t) == Print(u) <==> Normal(t) == Normal(u)
  {
    NormalPrintsAlike(t);
    NormalPrintsAlike(u);
    NormalIsPlain(t);
    NormalIsPlain(u);
    PrintDecodes(Normal(t));
    PrintDecodes(Normal(u));
  }

  /** On JSON values proper the text is injective. */
  lemma PlainTextIsInjective(t: Tree, u: Tree)
    requires Plain(t) && Plain(u)
    ensures Print(t) == Print(u) <==> t == u
  {
    SameTextIffSameValue(t, u);
    PlainIsNormal(t);
    PlainIsNormal(u);
  }
}
