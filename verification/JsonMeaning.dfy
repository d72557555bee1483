/** What the canonical text of a value says: the JSON that the value is, wherever it lies. */
module JsonMeaning {
  import opened Wrappers
  import opened Canonical
  import opened CanonicalDecoder
  import opened CanonicalGraph

  // ----- values that are JSON

  /** The value is this JSON: the same booleans, numbers and strings, arrays by item, objects by key. */
  ghost predicate Means(h: Heap, v: Value, j: Tree)
    decreases j
  {
    match v
    case VNull => j == Null
    case VBool(b) => j == Bool(b)
    case VNum(n) => j == Num(n)
    case VStr(s) => j == Str(s)
    case VRef(id) =>
      && id in h
      && (match h[id]
          case ArrayNode(items) =>
            j.Arr? && |j.items| == |items| && forall i | 0 <= i < |items| :: Means(h, items[i], j.items[i])
          case ObjectNode(_, fields) =>
            j.Obj? && j.fields.Keys == fields.Keys && forall k | k in j.fields :: Means(h, fields[k], j.fields[k]))
    case _ => false
  }

  ghost predicate IsJson(h: Heap, v: Value) {
    exists j :: Means(h, v, j)
  }

  /** Two values, each in its own graph, are the same JSON. */
  ghost predicate SameJson(h: Heap, v: Value, g: Heap, w: Value) {
    exists j :: Means(h, v, j) && Means(g, w, j)
  }

  ghost predicate HasText(h: Heap, v: Value, text: Units)
    requires ValidHeap(h) && ValidValue(h, v)
  {
    exists t :: Unfolds(h, v, {}, t) && text == Print(t)
  }

  lemma {:induction false} MeaningIsUnique(h: Heap, v: Value, i: Tree, j: Tree)
    requires Means(h, v, i) && Means(h, v, j)
    ensures i == j
    decreases i
  {
    if v.VRef? {
      match h[v.id]
      case ArrayNode(items) =>
        forall k | 0 <= k < |items| ensures i.items[k] == j.items[k] {
          MeaningIsUnique(h, items[k], i.items[k], j.items[k]);
        }
      case ObjectNode(_, fields) =>
        forall k | k in fields ensures i.fields[k] == j.fields[k] {
          MeaningIsUnique(h, fields[k], i.fields[k], j.fields[k]);
        }
    }
  }

  lemma {:induction false} MeaningIsPlain(h: Heap, v: Value, j: Tree)
    requires Means(h, v, j)
    ensures Plain(j)
    decreases j
  {
    if v.VRef? {
      match h[v.id]
      case ArrayNode(items) =>
        forall k | 0 <= k < |items| ensures Plain(j.items[k]) {
          MeaningIsPlain(h, items[k], j.items[k]);
        }
      case ObjectNode(_, fields) =>
        forall k | k in fields ensures Plain(j.fields[k]) {
          MeaningIsPlain(h, fields[k], j.fields[k]);
        }
    }
  }

  /** JSON has no part that it is itself a part of, so that nothing of it is printed as circular. */
  lemma {:induction false} MeaningUnfolds(h: Heap, v: Value, above: set<nat>, j: Tree)
    requires ValidHeap(h) && ValidValue(h, v) && Means(h, v, j)
    requires forall r, i | r in above && Means(h, VRef(r), i) :: j < i
    ensures Unfolds(h, v, above, j)
    decreases j
  {
    if v.VRef? {
      match h[v.id]
      case ArrayNode(items) =>
        forall k | 0 <= k < |items| ensures Unfolds(h, items[k], above, j.items[k]) {
          MeaningUnfolds(h, items[k], above, j.items[k]);
        }
      case ObjectNode(_, fields) =>
        forall k | k in fields ensures Unfolds(h, fields[k], above + {v.id}, j.fields[k]) {
          forall r, i | r in above + {v.id} && Means(h, VRef(r), i)
            ensures j.fields[k] < i
          {
            if r == v.id {
              MeaningIsUnique(h, v, i, j);
            }
          }
          MeaningUnfolds(h, fields[k], above + {v.id}, j.fields[k]);
        }
    }
  }

  /** The one text of a value that is JSON is read back as that JSON. */
  lemma TextMeans(h: Heap, v: Value, j: Tree, text: Units)
    requires ValidHeap(h) && ValidValue(h, v) && Means(h, v, j)
    ensures HasText(h, v, text) <==> text == Print(j)
    ensures Decode(Print(j)) == Some((j, []))
  {
    MeaningUnfolds(h, v, {}, j);
    MeaningIsPlain(h, v, j);
    PrintDecodes(j);
    if HasText(h, v, text) {
      var t :| Unfolds(h, v, {}, t) && text == Print(t);
      UnfoldingIsUnique(h, v, {}, t, j);
    }
  }

  /** Values that are JSON, in whatever graphs, have the same canonical text exactly when they are the same JSON. */
  lemma SameTextIffSameJson(h: Heap, v: Value, text: Units, g: Heap, w: Value, other: Units)
    requires ValidHeap(h) && ValidValue(h, v) && ValidHeap(g) && ValidValue(g, w)
    requires IsJson(h, v) && IsJson(g, w) && HasText(h, v, text) && HasText(g, w, other)
    ensures text == other <==> SameJson(h, v, g, w)
  {
    var i :| Means(h, v, i);
    var j :| Means(g, w, j);
    TextMeans(h, v, i, text);
    TextMeans(g, w, j, other);
    SameIfMeaningIs(h, v, i, g, w, j);
  }

  lemma SameIfMeaningIs(h: Heap, v: Value, i: Tree, g: Heap, w: Value, j: Tree)
    requires Means(h, v, i) && Means(g, w, j)
    ensures SameJson(h, v, g, w) <==> i == j
  {
    if SameJson(h, v, g, w) {
      var k :| Means(h, v, k) && Means(g, w, k);
      MeaningIsUnique(h, v, i, k);
      MeaningIsUnique(g, w, j, k);
    }
  }

  // ----- values that are not

  /** The value has a text, and its text is read back as this. */
  ghost predicate ReadAs(h: Heap, v: Value, j: Tree)
    requires ValidHeap(h) && ValidValue(h, v)
  {
    && (exists text :: HasText(h, v, text))
    && forall text | HasText(h, v, text) :: Decode(text) == Some((j, []))
  }

  lemma TreeReadAs(t: Tree)
    ensures Decode(Print(t)) == Some((Normal(t), []))
  {
    NormalPrintsAlike(t);
    NormalIsPlain(t);
    PrintDecodes(Normal(t));
  }

  lemma UnfoldedReadAs(h: Heap, v: Value, t: Tree, j: Tree)
    requires ValidHeap(h) && ValidValue(h, v) && Unfolds(h, v, {}, t) && Normal(t) == j
    ensures ReadAs(h, v, j)
  {
    TreeReadAs(t);
    assert HasText(h, v, Print(t));
    forall text | HasText(h, v, text)
      ensures text == Print(t)
    {
      var u :| Unfolds(h, v, {}, u) && text == Print(u);
      UnfoldingIsUnique(h, v, {}, t, u);
    }
  }

  /** What each kind of JSON value without parts is read back as. */
  lemma LeavesReadAs(h: Heap, v: Value, b: bool, n: int, s: Units)
    requires ValidHeap(h) && ValidValue(h, v)
    ensures v == VNull ==> ReadAs(h, v, Null)
    ensures v == VBool(b) ==> ReadAs(h, v, Bool(b))
    ensures v == VNum(n) ==> ReadAs(h, v, Num(n))
    ensures v == VStr(s) ==> ReadAs(h, v, Str(s))
  {
    match v
    case VNull => UnfoldedReadAs(h, v, Null, Null);
    case VBool(x) => UnfoldedReadAs(h, v, Bool(x), Bool(x));
    case VNum(x) => UnfoldedReadAs(h, v, Num(x), Num(x));
    case VStr(x) => UnfoldedReadAs(h, v, Str(x), Str(x));
    case _ =>
  }

  /** What JSON does not have is read back as a string of its kind. */
  lemma OthersReadAs(h: Heap, v: Value, n: int)
    requires ValidHeap(h)
    ensures v == VUndefined || v == VOpaque ==> ReadAs(h, v, Str(Ascii("__unserializable__")))
    ensures v == VNonFinite ==> ReadAs(h, v, Str(Ascii("__nonfinite__")))
    ensures v == VBigInt(n) ==> ReadAs(h, v, Str(Decimal(n) + Ascii("n")))
  {
    match v
    case VUndefined => UnfoldedReadAs(h, v, Unserializable, Normal(Unserializable));
    case VOpaque => UnfoldedReadAs(h, v, Unserializable, Normal(Unserializable));
    case VNonFinite => UnfoldedReadAs(h, v, NonFinite, Normal(NonFinite));
    case VBigInt(m) => UnfoldedReadAs(h, v, BigInt(m), Normal(BigInt(m)));
    case _ =>
  }

  /** An object inside itself is read back as a string. */
  lemma CircularReadsAs(h: Heap, r: nat, above: set<nat>, t: Tree)
    requires ValidHeap(h) && r in h && h[r].ObjectNode? && r in above && Unfolds(h, VRef(r), above, t)
    ensures Decode(Print(t)) == Some((Str(Ascii("__circular__")), []))
  {
    TreeReadAs(t);
  }
}
