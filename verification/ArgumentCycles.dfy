/** Which values the canonical printer ends on, told by what their references lead to. */
module ArgumentCycles {
  import opened Canonical
  import opened CanonicalGraph

  ghost predicate Refers(node: Node, r: nat) {
    match node
    case ArrayNode(items) => VRef(r) in items
    case ObjectNode(_, fields) => exists k | k in fields :: fields[k] == VRef(r)
  }

  /** Nodes each of which refers to the next. */
  ghost predicate Leads(h: Heap, path: seq<nat>) {
    && path != []
    && (forall i | 0 <= i < |path| :: path[i] in h)
    && forall i | 0 <= i < |path| - 1 :: Refers(h[path[i]], path[i + 1])
  }

  ghost predicate LeadsFrom(h: Heap, v: Value, path: seq<nat>, r: nat) {
    v.VRef? && Leads(h, path) && path[0] == v.id && path[|path| - 1] == r
  }

  ghost predicate Reachable(h: Heap, v: Value, r: nat) {
    exists path :: LeadsFrom(h, v, path, r)
  }

  /** The references of the value lead, through whatever objects and arrays, to a cycle of arrays only. */
  ghost predicate LeadsToArrayCycle(h: Heap, v: Value) {
    exists cycle :: ArrayCycle(h, cycle) && Reachable(h, v, cycle[0])
  }

  // ----- a cycle within reach

  lemma SuffixLeads(h: Heap, path: seq<nat>, i: nat)
    requires Leads(h, path) && i < |path|
    ensures Leads(h, path[i..]) && path[i..][0] == path[i]
    ensures path[i..][|path[i..]| - 1] == path[|path| - 1]
  {
  }

  predicate Barred(path: seq<nat>, above: set<nat>) {
    exists j | 0 <= j < |path| :: path[j] in above
  }

  /**
   A way from an unfolded value to a cycle of arrays is barred by an object that the value is
   inside of: otherwise the unfolding would have to go on for ever.
   */
  lemma {:induction false} WayIsBarred(h: Heap, path: seq<nat>, cycle: seq<nat>, above: set<nat>, t: Tree)
    requires ValidHeap(h) && Leads(h, path) && ArrayCycle(h, cycle) && path[|path| - 1] == cycle[0]
    requires Unfolds(h, VRef(path[0]), above, t)
    ensures Barred(path, above)
    decreases t, |path|
  {
    if path[0] !in above {
      if |path| == 1 {
        CycleHasNoUnfolding(h, cycle, 0, above, t);
      } else {
        var rest := path[1..];
        SuffixLeads(h, path, 1);
        match h[path[0]]
        case ArrayNode(items) =>
          var i :| 0 <= i < |items| && items[i] == VRef(path[1]);
          WayIsBarred(h, rest, cycle, above, t.items[i]);
          BarredFurther(path, 1, above);
        case ObjectNode(_, fields) =>
          var k :| k in fields && fields[k] == VRef(path[1]);
          WayIsBarred(h, rest, cycle, above + {path[0]}, t.fields[k]);
          var j := BarredOrBack(path, above);
          if path[j] == path[0] {
            SuffixLeads(h, path, j);
            WayIsBarred(h, path[j..], cycle, above, t);
            BarredFurther(path, j, above);
          }
      }
    }
  }

  lemma BarredFurther(path: seq<nat>, i: nat, above: set<nat>)
    requires i <= |path| && Barred(path[i..], above)
    ensures Barred(path, above)
  {
    var j :| 0 <= j < |path[i..]| && path[i..][j] in above;
    assert path[i + j] in above;
  }

  /** A way that is barred below its first node is barred above, or comes back to that node. */
  lemma BarredOrBack(path: seq<nat>, above: set<nat>) returns (j: nat)
    requires path != [] && Barred(path[1..], above + {path[0]})
    ensures 0 < j < |path| && (path[j] in above || path[j] == path[0])
  {
    var inside := above + {path[0]};
    var i :| 0 <= i < |path[1..]| && path[1..][i] in inside;
    j := i + 1;
  }

  // ----- no cycle within reach

  ghost function Within(h: Heap, v: Value): set<nat> {
    set r | r in h && Reachable(h, v, r)
  }

  /** The part of the graph that the value leads to. */
  ghost function Part(h: Heap, v: Value): Heap {
    map r | r in Within(h, v) :: h[r]
  }

  lemma ReachesOn(h: Heap, v: Value, r: nat, s: nat)
    requires Reachable(h, v, r) && r in h && s in h && Refers(h[r], s)
    ensures Reachable(h, v, s)
  {
    var path :| LeadsFrom(h, v, path, r);
    assert LeadsFrom(h, v, path + [s], s);
  }

  lemma PartIsValid(h: Heap, v: Value)
    requires ValidHeap(h) && ValidValue(h, v)
    ensures ValidHeap(Part(h, v)) && ValidValue(Part(h, v), v)
  {
    var g := Part(h, v);
    if v.VRef? {
      assert LeadsFrom(h, v, [v.id], v.id);
    }
    forall r | r in g
      ensures ValidNode(g, g[r])
    {
      assert ValidNode(h, h[r]);
      forall s: nat | s in h && Refers(h[r], s)
        ensures s in g
      {
        ReachesOn(h, v, r, s);
      }
      match h[r]
      case ArrayNode(items) =>
        forall i | 0 <= i < |items| ensures ValidValue(g, items[i]) {
          assert items[i].VRef? ==> Refers(h[r], items[i].id);
        }
      case ObjectNode(_, fields) =>
        forall k | k in fields ensures ValidValue(g, fields[k]) {
          assert fields[k].VRef? ==> Refers(h[r], fields[k].id);
        }
    }
  }

  lemma PartHasNoCycle(h: Heap, v: Value)
    requires !LeadsToArrayCycle(h, v)
    ensures NoArrayCycle(Part(h, v))
  {
    forall cycle
      ensures !ArrayCycle(Part(h, v), cycle)
    {
      if ArrayCycle(Part(h, v), cycle) {
        CycleOfPart(h, v, cycle);
      }
    }
  }

  lemma CycleOfPart(h: Heap, v: Value, cycle: seq<nat>)
    requires ArrayCycle(Part(h, v), cycle)
    ensures ArrayCycle(h, cycle) && Reachable(h, v, cycle[0])
  {
    assert forall i | 0 <= i < |cycle| :: IsArray(Part(h, v), cycle[i]) && IsArray(h, cycle[i]);
  }

  /** What unfolds in a part of a graph unfolds in the graph. */
  lemma {:induction false} PartUnfolds(g: Heap, h: Heap, v: Value, above: set<nat>, t: Tree)
    requires ValidHeap(g) && ValidHeap(h) && ValidValue(g, v) && ValidValue(h, v)
    requires forall r | r in g :: r in h && g[r] == h[r]
    requires Unfolds(g, v, above, t)
    ensures Unfolds(h, v, above, t)
    decreases t
  {
    if v.VRef? {
      match h[v.id]
      case ArrayNode(items) =>
        forall i | 0 <= i < |items| ensures Unfolds(h, items[i], above, t.items[i]) {
          PartUnfolds(g, h, items[i], above, t.items[i]);
        }
      case ObjectNode(_, fields) =>
        if v.id !in above {
          forall k | k in t.fields ensures Unfolds(h, fields[k], above + {v.id}, t.fields[k]) {
            PartUnfolds(g, h, fields[k], above + {v.id}, t.fields[k]);
          }
        }
    }
  }

  /** The printer ends on a value exactly when its references lead to no cycle of arrays only. */
  lemma EndsIffNoCycleInReach(h: Heap, v: Value)
    requires ValidHeap(h) && ValidValue(h, v)
    ensures Terminates(h, v) <==> !LeadsToArrayCycle(h, v)
  {
    if LeadsToArrayCycle(h, v) && Terminates(h, v) {
      var cycle :| ArrayCycle(h, cycle) && Reachable(h, v, cycle[0]);
      var path :| LeadsFrom(h, v, path, cycle[0]);
      var t :| Unfolds(h, v, {}, t);
      WayIsBarred(h, path, cycle, {}, t);
    }
    if !LeadsToArrayCycle(h, v) {
      var g := Part(h, v);
      PartIsValid(h, v);
      PartHasNoCycle(h, v);
      var t := Unfolding(g, v, {}, []);
      PartUnfolds(g, h, v, {}, t);
      assert Unfolds(h, v, {}, t);
    }
  }

  // ----- what is printed as circular

  ghost predicate IsObject(h: Heap, r: nat) {
    r in h && h[r].ObjectNode?
  }

  /** The object leads back to itself. */
  ghost predicate OnLoop(h: Heap, r: nat) {
    IsObject(h, r) && exists path :: Leads(h, path) && |path| > 1 && path[0] == r && path[|path| - 1] == r
  }

  /** The value leads to an object that leads back to itself. */
  ghost predicate LeadsToLoop(h: Heap, v: Value) {
    exists r :: Reachable(h, v, r) && OnLoop(h, r)
  }

  /** The value leads to an object that it is inside of. */
  ghost predicate LeadsAbove(h: Heap, v: Value, above: set<nat>) {
    exists r :: Reachable(h, v, r) && IsObject(h, r) && r in above
  }

  lemma SuffixOfOneMore(r: nat, path: seq<nat>)
    requires path != []
    ensures ([r] + path)[0] == r && ([r] + path)[|path|] == path[|path| - 1] && ([r] + path)[1..] == path
  {
  }

  /** One reference in front of a way. */
  lemma LeadsOn(h: Heap, r: nat, path: seq<nat>)
    requires Leads(h, path) && r in h && Refers(h[r], path[0])
    ensures Leads(h, [r] + path)
  {
    var longer := [r] + path;
    forall i | 0 <= i < |longer| - 1
      ensures Refers(h[longer[i]], longer[i + 1])
    {
      if i > 0 {
        assert longer[i] == path[i - 1] && longer[i + 1] == path[i];
      }
    }
  }

  lemma ReachesFrom(h: Heap, v: Value, w: Value, r: nat)
    requires v.VRef? && v.id in h && w.VRef? && Refers(h[v.id], w.id) && Reachable(h, w, r)
    ensures Reachable(h, v, r)
    ensures r == v.id && IsObject(h, r) ==> OnLoop(h, r)
  {
    var path :| LeadsFrom(h, w, path, r);
    LeadsOn(h, v.id, path);
    SuffixOfOneMore(v.id, path);
    assert LeadsFrom(h, v, [v.id] + path, r);
  }

  /** What a part of a value leads to, the value leads to. */
  lemma PartLeads(h: Heap, v: Value, w: Value, above: set<nat>)
    requires v.VRef? && v.id in h && w.VRef? && Refers(h[v.id], w.id)
    requires LeadsToLoop(h, w) || LeadsAbove(h, w, above + {v.id})
    ensures LeadsToLoop(h, v) || LeadsAbove(h, v, above)
  {
    if r :| Reachable(h, w, r) && OnLoop(h, r) {
      ReachesFrom(h, v, w, r);
    } else {
      var r :| Reachable(h, w, r) && IsObject(h, r) && r in above + {v.id};
      ReachesFrom(h, v, w, r);
      if r == v.id {
        ItselfIsReachable(h, v);
      }
    }
  }

  lemma ItselfIsReachable(h: Heap, v: Value)
    requires v.VRef? && v.id in h
    ensures Reachable(h, v, v.id)
  {
    assert LeadsFrom(h, v, [v.id], v.id);
  }

  /** What is printed as circular is an object that comes back. */
  lemma {:induction false} CircularComesBack(h: Heap, v: Value, above: set<nat>, t: Tree)
    requires ValidHeap(h) && ValidValue(h, v) && Unfolds(h, v, above, t) && HasCircular(t)
    ensures LeadsToLoop(h, v) || LeadsAbove(h, v, above)
    decreases t
  {
    match h[v.id]
    case ArrayNode(items) =>
      var i :| 0 <= i < |items| && HasCircular(t.items[i]);
      assert items[i].VRef?;
      CircularComesBack(h, items[i], above, t.items[i]);
      if !LeadsToLoop(h, items[i]) {
        var r :| Reachable(h, items[i], r) && IsObject(h, r) && r in above;
        assert r in above + {v.id};
      }
      PartLeads(h, v, items[i], above);
    case ObjectNode(_, fields) =>
      if v.id in above {
        ItselfIsReachable(h, v);
      } else {
        var k :| k in t.fields && HasCircular(t.fields[k]);
        assert fields[k].VRef?;
        CircularComesBack(h, fields[k], above + {v.id}, t.fields[k]);
        PartLeads(h, v, fields[k], above);
      }
  }

  /** Where nothing is circular, no way from the value meets an object twice or one the value is inside of. */
  lemma {:induction false} NothingComesBack(h: Heap, path: seq<nat>, above: set<nat>, t: Tree)
    requires ValidHeap(h) && Leads(h, path) && Unfolds(h, VRef(path[0]), above, t) && !HasCircular(t)
    ensures forall j | 0 <= j < |path| && IsObject(h, path[j]) :: path[j] !in above
    ensures forall i, j | 0 <= i < j < |path| && IsObject(h, path[i]) :: path[i] != path[j]
    decreases |path|
  {
    if |path| > 1 {
      var rest := path[1..];
      SuffixLeads(h, path, 1);
      assert forall j | 0 < j < |path| :: path[j] == rest[j - 1];
      match h[path[0]]
      case ArrayNode(items) =>
        var i :| 0 <= i < |items| && items[i] == VRef(path[1]);
        NothingComesBack(h, rest, above, t.items[i]);
      case ObjectNode(_, fields) =>
        var k :| k in fields && fields[k] == VRef(path[1]);
        NothingComesBack(h, rest, above + {path[0]}, t.fields[k]);
    }
  }

  /** Two ways, the first ending where the second starts. */
  lemma WaysJoin(h: Heap, path: seq<nat>, more: seq<nat>)
    requires Leads(h, path) && Leads(h, more) && path[|path| - 1] == more[0]
    ensures Leads(h, path + more[1..])
  {
    var all := path + more[1..];
    forall i | 0 <= i < |all| - 1
      ensures Refers(h[all[i]], all[i + 1])
    {
      if i >= |path| - 1 {
        var j := i - (|path| - 1);
        assert all[i] == more[j] && all[i + 1] == more[j + 1];
      }
    }
  }

  /**
   Something is printed as circular exactly when the value leads to an object that leads back to
   itself: sharing alone never is.
   */
  lemma CircularIffLoop(h: Heap, v: Value, t: Tree)
    requires ValidHeap(h) && ValidValue(h, v) && Unfolds(h, v, {}, t)
    ensures HasCircular(t) <==> LeadsToLoop(h, v)
  {
    if HasCircular(t) {
      CircularComesBack(h, v, {}, t);
    } else if LeadsToLoop(h, v) {
      var r :| Reachable(h, v, r) && OnLoop(h, r);
      var path :| LeadsFrom(h, v, path, r);
      var loop :| Leads(h, loop) && |loop| > 1 && loop[0] == r && loop[|loop| - 1] == r;
      WaysJoin(h, path, loop);
      var all := path + loop[1..];
      assert all[|path| - 1] == r && all[|all| - 1] == r;
      NothingComesBack(h, all, {}, t);
    }
  }

  // ----- the smallest graph it does not end on

  /** An array whose only item is the array itself. */
  const SELF_HOLDING: Heap := map[0 := ArrayNode([VRef(0)])]

  lemma SelfHoldingArrayDoesNotEnd()
    ensures ValidHeap(SELF_HOLDING) && ValidValue(SELF_HOLDING, VRef(0))
    ensures !Terminates(SELF_HOLDING, VRef(0))
  {
    assert SELF_HOLDING[0].items[0] == VRef(0);
    assert ArrayCycle(SELF_HOLDING, [0, 0]);
    assert LeadsFrom(SELF_HOLDING, VRef(0), [0], 0);
    assert LeadsToArrayCycle(SELF_HOLDING, VRef(0)) by {
      assert [0, 0][0] == 0;
    }
    EndsIffNoCycleInReach(SELF_HOLDING, VRef(0));
  }
}
