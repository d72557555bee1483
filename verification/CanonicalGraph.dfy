/**
 The canonical printer on a graph of objects and arrays that may share parts and contain cycles.
 The recursion marks the objects it is inside of in a set that it changes as it goes; arrays are
 never marked.
 */
module CanonicalGraph {
  import opened Canonical

  datatype Value =
    | VNull
    | VUndefined
    | VOpaque
    | VBool(b: bool)
    | VNum(n: int)
    | VNonFinite
    | VBigInt(n: int)
    | VStr(s: Units)
    | VRef(id: nat)

  /** `keys` are the keys of an object in the order in which the object lists them. */
  datatype Node = ArrayNode(items: seq<Value>) | ObjectNode(keys: seq<Units>, fields: map<Units, Value>)

  type Heap = map<nat, Node>

  predicate ValidValue(h: Heap, v: Value) {
    v.VRef? ==> v.id in h
  }

  ghost predicate ValidNode(h: Heap, node: Node) {
    match node
    case ArrayNode(items) => forall i | 0 <= i < |items| :: ValidValue(h, items[i])
    case ObjectNode(keys, fields) =>
      && Distinct(keys)
      && (forall k :: k in keys <==> k in fields)
      && forall k | k in fields :: ValidValue(h, fields[k])
  }

  ghost predicate ValidHeap(h: Heap) {
    forall r | r in h :: ValidNode(h, h[r])
  }

  predicate IsArray(h: Heap, r: nat) {
    r in h && h[r].ArrayNode?
  }

  // ----- the tree a value unfolds to

  function Leaf(v: Value): Tree
    requires !v.VRef?
  {
    match v
    case VNull => Null
    case VUndefined => Unserializable
    case VOpaque => Unserializable
    case VBool(b) => Bool(b)
    case VNum(n) => Num(n)
    case VNonFinite => NonFinite
    case VBigInt(n) => BigInt(n)
    case VStr(s) => Str(s)
  }

  /**
   The tree is the value with all its parts in full, below the objects of `above`: only an object
   that is one of those, a true ancestor, is circular.
   */
  ghost predicate Unfolds(h: Heap, v: Value, above: set<nat>, t: Tree)
    requires ValidHeap(h) && ValidValue(h, v)
    decreases t
  {
    if !v.VRef? then t == Leaf(v)
    else
      match h[v.id]
      case ArrayNode(items) =>
        t.Arr? && |t.items| == |items| && forall i | 0 <= i < |items| :: Unfolds(h, items[i], above, t.items[i])
      case ObjectNode(_, fields) =>
        if v.id in above then t == Circular
        else t.Obj? && t.fields.Keys == fields.Keys
             && forall k | k in t.fields :: Unfolds(h, fields[k], above + {v.id}, t.fields[k])
  }

  lemma {:induction false} UnfoldingIsUnique(h: Heap, v: Value, above: set<nat>, t: Tree, u: Tree)
    requires ValidHeap(h) && ValidValue(h, v) && Unfolds(h, v, above, t) && Unfolds(h, v, above, u)
    ensures t == u
    decreases t
  {
    if v.VRef? {
      match h[v.id]
      case ArrayNode(items) =>
        forall i | 0 <= i < |items| ensures t.items[i] == u.items[i] {
          UnfoldingIsUnique(h, items[i], above, t.items[i], u.items[i]);
        }
      case ObjectNode(_, fields) =>
        if v.id !in above {
          forall k | k in fields ensures t.fields[k] == u.fields[k] {
            UnfoldingIsUnique(h, fields[k], above + {v.id}, t.fields[k], u.fields[k]);
          }
        }
    }
  }

  // ----- cycles made of arrays only

  /** Arrays each of which holds the next. */
  ghost predicate ArrayPath(h: Heap, path: seq<nat>) {
    && (forall i | 0 <= i < |path| :: IsArray(h, path[i]))
    && forall i | 0 <= i < |path| - 1 :: VRef(path[i + 1]) in h[path[i]].items
  }

  ghost predicate ArrayCycle(h: Heap, path: seq<nat>) {
    ArrayPath(h, path) && |path| > 1 && path[0] == path[|path| - 1]
  }

  ghost predicate NoArrayCycle(h: Heap) {
    forall path :: !ArrayCycle(h, path)
  }

  function Members(path: seq<nat>): set<nat> {
    set r | r in path
  }

  /** The value is reached through these arrays, innermost last, with no object in between. */
  ghost predicate Inside(h: Heap, path: seq<nat>, v: Value) {
    && ArrayPath(h, path)
    && (v.VRef? && IsArray(h, v.id) ==> ArrayPath(h, path + [v.id]))
  }

  lemma NotInsideItself(h: Heap, path: seq<nat>, v: Value)
    requires NoArrayCycle(h) && Inside(h, path, v) && v.VRef? && IsArray(h, v.id)
    ensures v.id !in path
  {
    if v.id in path {
      var i :| 0 <= i < |path| && path[i] == v.id;
      assert ArrayCycle(h, (path + [v.id])[i..]);
    }
  }

  lemma ItemIsInside(h: Heap, path: seq<nat>, v: Value, i: nat)
    requires ValidHeap(h) && Inside(h, path, v) && v.VRef? && IsArray(h, v.id) && i < |h[v.id].items|
    ensures Inside(h, path + [v.id], h[v.id].items[i])
  {
    var item, longer := h[v.id].items[i], path + [v.id];
    if item.VRef? && IsArray(h, item.id) {
      assert forall k | 0 <= k < |longer| :: (longer + [item.id])[k] == longer[k];
    }
  }

  /** The unfolding, by the recursion of the printer; `path` only serves to show that it ends. */
  ghost function Unfolding(h: Heap, v: Value, above: set<nat>, path: seq<nat>): (t: Tree)
    requires ValidHeap(h) && ValidValue(h, v) && NoArrayCycle(h) && Inside(h, path, v)
    ensures Unfolds(h, v, above, t)
    decreases h.Keys - above, h.Keys - Members(path)
  {
    if !v.VRef? then Leaf(v)
    else
      match h[v.id]
      case ArrayNode(items) =>
        NotInsideItself(h, path, v);
        assert v.id in h.Keys - Members(path) && v.id in Members(path + [v.id]);
        Arr(seq(|items|, i requires 0 <= i < |items| =>
          ItemIsInside(h, path, v, i);
          Unfolding(h, items[i], above, path + [v.id])))
      case ObjectNode(_, fields) =>
        if v.id in above then Circular
        else
          assert v.id in h.Keys - above;
          Obj(map k | k in fields :: Unfolding(h, fields[k], above + {v.id}, []))
  }

  // ----- termination

  /** Walking down an unfolding along a cycle of arrays would never reach a leaf. */
  lemma {:induction false} CycleHasNoUnfolding(h: Heap, path: seq<nat>, i: nat, above: set<nat>, t: Tree)
    requires ValidHeap(h) && ArrayCycle(h, path) && i < |path| - 1
    requires Unfolds(h, VRef(path[i]), above, t)
    ensures false
    decreases t
  {
    var items := h[path[i]].items;
    var k :| 0 <= k < |items| && items[k] == VRef(path[i + 1]);
    var next := if i + 1 == |path| - 1 then 0 else i + 1;
    assert path[next] == path[i + 1];
    CycleHasNoUnfolding(h, path, next, above, t.items[k]);
  }

  /** The printer ends on a value when there is a finite tree to print. */
  ghost predicate Terminates(h: Heap, v: Value)
    requires ValidHeap(h) && ValidValue(h, v)
  {
    exists t :: Unfolds(h, v, {}, t)
  }

  /**
   The printer ends on every value of a graph exactly when the graph has no cycle that is made of
   arrays only.
   */
  lemma TerminatesIffNoArrayCycle(h: Heap)
    requires ValidHeap(h)
    ensures NoArrayCycle(h) <==> forall v | ValidValue(h, v) :: Terminates(h, v)
  {
    if NoArrayCycle(h) {
      forall v | ValidValue(h, v) ensures Terminates(h, v) {
        assert Unfolds(h, v, {}, Unfolding(h, v, {}, []));
      }
    }
    if path :| ArrayCycle(h, path) {
      var v := VRef(path[0]);
      if ValidValue(h, v) && Terminates(h, v) {
        var t :| Unfolds(h, v, {}, t);
        CycleHasNoUnfolding(h, path, 0, {}, t);
      }
    }
  }

  // ----- sharing is not a cycle

  /** A graph whose references all lead to lower ranks: no cycles, but any amount of sharing. */
  ghost predicate Ranked(h: Heap, rank: map<nat, nat>) {
    && rank.Keys == h.Keys
    && (forall r, i | r in h && h[r].ArrayNode? && 0 <= i < |h[r].items| && h[r].items[i].VRef? ::
          h[r].items[i].id in rank && rank[h[r].items[i].id] < rank[r])
    && forall r, k | r in h && h[r].ObjectNode? && k in h[r].fields && h[r].fields[k].VRef? ::
          h[r].fields[k].id in rank && rank[h[r].fields[k].id] < rank[r]
  }

  predicate HasCircular(t: Tree) {
    match t
    case Circular => true
    case Arr(items) => exists i | 0 <= i < |items| :: HasCircular(items[i])
    case Obj(fields) => exists k | k in fields :: HasCircular(fields[k])
    case _ => false
  }

  /** Shared parts of a graph without cycles are printed in full wherever they occur. */
  lemma {:induction false} SharedPartsInFull(h: Heap, rank: map<nat, nat>, v: Value, above: set<nat>, t: Tree)
    requires ValidHeap(h) && ValidValue(h, v) && Ranked(h, rank) && Unfolds(h, v, above, t)
    requires forall r | r in above :: r in rank && (v.VRef? ==> rank[v.id] < rank[r])
    ensures !HasCircular(t)
    decreases t
  {
    if v.VRef? {
      match h[v.id]
      case ArrayNode(items) =>
        forall i | 0 <= i < |items| ensures !HasCircular(t.items[i]) {
          SharedPartsInFull(h, rank, items[i], above, t.items[i]);
        }
      case ObjectNode(_, fields) =>
        forall k | k in fields ensures !HasCircular(t.fields[k]) {
          SharedPartsInFull(h, rank, fields[k], above + {v.id}, t.fields[k]);
        }
    }
  }

  // ----- the printer

  class Visited {
    var members: set<nat>

    constructor ()
      ensures members == {}
    {
      members := {};
    }
  }

  /** The text of a leaf. */
  method LeafText(v: Value) returns (text: Units)
    requires !v.VRef?
    ensures text == Print(Leaf(v))
  {
    match v {
      case VNull => text := Ascii("null");
      case VUndefined => text := Quoted("__unserializable__");
      case VOpaque => text := Quoted("__unserializable__");
      case VBool(b) => text := Ascii(if b then "true" else "false");
      case VNum(n) => text := Decimal(n);
      case VNonFinite => text := Quoted("__nonfinite__");
      case VBigInt(n) => text := Quote(Decimal(n) + Ascii("n"));
      case VStr(s) => text := Quote(s);
    }
  }

  /**
   The text of a value, with `seen` left as it was found. The tree that the value unfolds to is what
   shows that the recursion ends.
   */
  method Canonicalize(h: Heap, v: Value, seen: Visited, ghost t: Tree) returns (text: Units)
    requires ValidHeap(h) && ValidValue(h, v) && Unfolds(h, v, seen.members, t)
    modifies seen
    ensures seen.members == old(seen.members)
    ensures text == Print(t)
    decreases t, 2
  {
    if !v.VRef? {
      text := LeafText(v);
      return;
    }
    var node := h[v.id];
    match node {
      case ArrayNode(items) =>
        text := CanonicalizeArray(h, v, seen, t);
      case ObjectNode(keys, fields) =>
        if v.id in seen.members {
          return Quoted("__circular__");
        }
        text := CanonicalizeObject(h, v, seen, t);
    }
  }

  method CanonicalizeArray(h: Heap, v: Value, seen: Visited, ghost t: Tree) returns (text: Units)
    requires ValidHeap(h) && ValidValue(h, v) && Unfolds(h, v, seen.members, t)
    requires v.VRef? && h[v.id].ArrayNode?
    modifies seen
    ensures seen.members == old(seen.members)
    ensures text == Print(t)
    decreases t, 0
  {
    var items := h[v.id].items;
    ghost var above := seen.members;
    var parts: seq<Units> := [];
    for i := 0 to |items|
      invariant seen.members == above
      invariant parts == ItemTexts(t)[..i]
    {
      var part := Canonicalize(h, items[i], seen, t.items[i]);
      assert part == ItemTexts(t)[i];
      parts := parts + [part];
    }
    assert parts == ItemTexts(t);
    text := [LEFT_BRACKET] + JoinComma(parts) + [RIGHT_BRACKET];
  }

  method CanonicalizeObject(h: Heap, v: Value, seen: Visited, ghost t: Tree) returns (text: Units)
    requires ValidHeap(h) && ValidValue(h, v) && Unfolds(h, v, seen.members, t)
    requires v.VRef? && h[v.id].ObjectNode? && v.id !in seen.members
    modifies seen
    ensures seen.members == old(seen.members)
    ensures text == Print(t)
    decreases t, 1
  {
    var fields := h[v.id].fields;
    ghost var above := seen.members;
    seen.members := seen.members + {v.id};
    var order := Sorted(h[v.id].keys);
    SortedIsKeyOrder(h[v.id].keys, fields.Keys);
    var parts := CanonicalizeFields(h, v, order, seen, t);
    seen.members := seen.members - {v.id};
    assert seen.members == above;
    text := [LEFT_BRACE] + JoinComma(parts) + [RIGHT_BRACE];
  }

  /** The texts of the fields of an object that is marked, in this order of its keys. */
  method CanonicalizeFields(h: Heap, v: Value, order: seq<Units>, seen: Visited, ghost t: Tree)
    returns (parts: seq<Units>)
    requires ValidHeap(h) && ValidValue(h, v)
    requires v.VRef? && h[v.id].ObjectNode? && forall k | k in order :: k in h[v.id].fields
    requires t.Obj? && t.fields.Keys == h[v.id].fields.Keys
    requires forall k | k in t.fields :: Unfolds(h, h[v.id].fields[k], seen.members, t.fields[k])
    modifies seen
    ensures seen.members == old(seen.members)
    ensures parts == FieldTexts(t, order)
    decreases t, 0
  {
    var fields := h[v.id].fields;
    ghost var marked := seen.members;
    ghost var texts := FieldTexts(t, order);
    parts := [];
    for i := 0 to |order|
      invariant seen.members == marked
      invariant parts == texts[..i]
    {
      var value := Canonicalize(h, fields[order[i]], seen, t.fields[order[i]]);
      assert texts[i] == Quote(order[i]) + [COLON] + value;
      parts := parts + [Quote(order[i]) + [COLON] + value];
    }
    assert parts == texts;
  }

  // ----- arguments

  /** The same graph with the keys of its objects listed in any order. */
  ghost predicate SameUpToListing(h: Heap, g: Heap) {
    && h.Keys == g.Keys
    && forall r | r in h ::
         if h[r].ArrayNode? then g[r] == h[r] else g[r].ObjectNode? && g[r].fields == h[r].fields
  }

  /** The order in which objects list their keys does not show in what is printed. */
  lemma {:induction false} ListingDoesNotMatter(h: Heap, g: Heap, v: Value, above: set<nat>, t: Tree)
    requires ValidHeap(h) && ValidHeap(g) && SameUpToListing(h, g) && ValidValue(h, v) && Unfolds(h, v, above, t)
    ensures Unfolds(g, v, above, t)
    decreases t
  {
    if v.VRef? {
      match h[v.id]
      case ArrayNode(items) =>
        forall i | 0 <= i < |items| ensures Unfolds(g, items[i], above, t.items[i]) {
          ListingDoesNotMatter(h, g, items[i], above, t.items[i]);
        }
      case ObjectNode(_, fields) =>
        if v.id !in above {
          forall k | k in t.fields ensures Unfolds(g, fields[k], above + {v.id}, t.fields[k]) {
            ListingDoesNotMatter(h, g, fields[k], above + {v.id}, t.fields[k]);
          }
        }
    }
  }

  /** The tree that the text of a call's arguments prints; missing arguments count as none. */
  ghost predicate ArgsUnfold(h: Heap, args: Value, t: Tree)
    requires ValidHeap(h) && ValidValue(h, args)
  {
    if args.VNull? || args.VUndefined? then t == Obj(map[]) else Unfolds(h, args, {}, t)
  }

  /** The arguments have a canonical text. */
  ghost predicate Printable(h: Heap, args: Value)
    requires ValidHeap(h) && ValidValue(h, args)
  {
    exists t :: ArgsUnfold(h, args, t)
  }

  /** The text that is hashed: that of the one tree the arguments unfold to. */
  method ArgsText(h: Heap, args: Value) returns (text: Units)
    requires ValidHeap(h) && ValidValue(h, args) && Printable(h, args)
    ensures forall t | ArgsUnfold(h, args, t) :: text == Print(t)
  {
    if args.VNull? || args.VUndefined? {
      EmptyObjectText();
      return [LEFT_BRACE] + [] + [RIGHT_BRACE];
    }
    var seen := new Visited();
    ghost var tree :| ArgsUnfold(h, args, tree);
    forall t | ArgsUnfold(h, args, t)
      ensures t == tree
    {
      UnfoldingIsUnique(h, args, {}, t, tree);
    }
    text := Canonicalize(h, args, seen, tree);
  }

  lemma EmptyObjectText()
    ensures Print(Obj(map[])) == [LEFT_BRACE] + [] + [RIGHT_BRACE]
  {
    var none: map<Units, Tree> := map[];
    assert none.Keys == {};
    assert KeyOrder(none.Keys) == [];
  }
}
