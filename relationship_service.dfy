/** The relationship service: edges between nodes, stored in the source node's
    `relationships` array, and the global `relationshipCount` that mirrors their total. */
module RelationshipService {
  import opened JsValues
  import opened Records
  import opened NodeModel
  import opened GlobalState

  // ----- listing every edge -----

  /** The entry `getAllRelationships` lists for edge `rel` of the node with id `source`. */
  function EdgeEntry(source: Value, rel: Value): Value {
    Obj(map[
      "sourceNodeId" := source,
      "targetNodeId" := GetProp(rel, "targetNodeId"),
      "type" := GetProp(rel, "type"),
      "createdAt" := GetProp(rel, "createdAt"),
      "updatedAt" := GetProp(rel, "updatedAt")
    ])
  }

  /** The entries of one node's edges, in order. */
  function NodeEntries(node: Object): (es: seq<Value>)
    ensures |es| == |Edges(node)|
  {
    seq(|Edges(node)|, j requires 0 <= j < |Edges(node)| => EdgeEntry(IdOf(node), Edges(node)[j]))
  }

  /** The entries of every node's edges, node by node. */
  function AllEdges(nodes: seq<Object>): seq<Value> {
    if nodes == [] then [] else AllEdges(nodes[..|nodes| - 1]) + NodeEntries(nodes[|nodes| - 1])
  }

  /** `node.relationships.forEach(rel => ... rel.targetNodeId ...)` runs without throwing. */
  predicate ShapedNode(node: Object) {
    Field(node, "relationships").Arr? && forall e :: e in Edges(node) ==> !Nullish(e)
  }

  predicate WellShaped(nodes: seq<Object>) {
    forall k :: 0 <= k < |nodes| ==> ShapedNode(nodes[k])
  }

  /** `getAllRelationships()`: a `TypeError` as soon as some node's `relationships` is not an
      array or holds `null`/`undefined`. */
  function Flatten(nodes: seq<Object>): (r: Completion<seq<Value>>)
    ensures !r.NullReturn?
    ensures r.Normal? <==> WellShaped(nodes)
    ensures r.Threw? ==> r.error == TypeError
    ensures r.Normal? ==> r.value == AllEdges(nodes) && |r.value| == EdgeCount(nodes)
  {
    AllEdgesCount(nodes);
    if WellShaped(nodes) then Normal(AllEdges(nodes)) else Threw(TypeError)
  }

  /** The number of edges over all nodes. */
  function EdgeCount(nodes: seq<Object>): nat {
    if nodes == [] then 0 else EdgeCount(nodes[..|nodes| - 1]) + |Edges(nodes[|nodes| - 1])|
  }

  lemma {:induction false} AllEdgesCount(nodes: seq<Object>)
    ensures |AllEdges(nodes)| == EdgeCount(nodes)
  {
    if nodes != [] {
      AllEdgesCount(nodes[..|nodes| - 1]);
    }
  }

  /** Replacing one node changes the total by the difference of its edge counts. */
  lemma {:induction false} EdgeCountUpdate(nodes: seq<Object>, i: nat, n: Object)
    requires i < |nodes|
    ensures EdgeCount(nodes[i := n]) + |Edges(nodes[i])| == EdgeCount(nodes) + |Edges(n)|
  {
    var last := |nodes| - 1;
    if i < last {
      assert nodes[i := n][..last] == nodes[..last][i := n];
      EdgeCountUpdate(nodes[..last], i, n);
    } else {
      assert nodes[i := n][..last] == nodes[..last];
    }
  }

  /** Replacing a well-shaped node with a well-shaped one keeps the list well-shaped. */
  lemma ShapedUpdate(nodes: seq<Object>, i: nat, n: Object)
    requires i < |nodes|
    ensures WellShaped(nodes) && ShapedNode(n) ==> WellShaped(nodes[i := n])
  {
  }

  // ----- the relationship count -----

  /** `updateGlobalRelationshipCount()`: `relationshipCount` is set to the number of edges,
      bypassing validation; when listing the edges throws, or the state has no
      `relationshipCount`, the rejection is not handled and the state stays as it was. */
  function Recount(nodes: seq<Object>, state: Object, now: string): (r: Object)
    ensures WellShaped(nodes) && "relationshipCount" in state ==>
      r == state["relationshipCount" := Num(EdgeCount(nodes) as real)]["lastModified" := Str(now)]
    ensures !WellShaped(nodes) || "relationshipCount" !in state ==> r == state
  {
    match Flatten(nodes)
    case Normal(es) =>
      (match Updated(state, "relationshipCount", Num(|es| as real), now)
       case Normal(s) => s
       case _ => state)
    case _ => state
  }

  /** The count is recorded even where `validateStateUpdate` would refuse it: with the default
      rules, eleven edges are recorded although a client could not set the count to eleven. */
  lemma RecountBypassesRules(nodes: seq<Object>, loadTime: string, now: string)
    requires WellShaped(nodes) && EdgeCount(nodes) == 11
    ensures Field(Recount(nodes, DefaultState(loadTime), now), "relationshipCount") == Num(11.0)
    ensures Validate(DefaultState(loadTime), "relationshipCount", Num(11.0)).Reject?
  {
    DefaultBounds(loadTime, 11.0);
  }

  /** The nodes and the state the relationship operations act on. */
  datatype World = World(nodes: seq<Object>, state: Object)

  /** What an operation returns together with the world it leaves behind. */
  datatype Step<+T> = Step(result: Completion<T>, world: World)

  /** `createRelationship(nodeId1, nodeId2, type)`: the edge is added as `addRelationship`
      does, and the count is refreshed after a successful add. */
  function CreateRelationshipStep(w: World, id1: Value, id2: Value, relType: Value, now: string): (s: Step<Object>)
    ensures s.result == AddRelationshipOutcome(w.nodes, id1, id2, relType, now).result
    ensures !s.result.Normal? ==> s.world == w
    ensures s.result.Normal? ==>
      s.world.nodes == AddRelationshipOutcome(w.nodes, id1, id2, relType, now).records &&
      EdgeCount(s.world.nodes) == EdgeCount(w.nodes) + 1 &&
      s.world.state == Recount(s.world.nodes, w.state, now)
    ensures s.result.Normal? && WellShaped(w.nodes) ==> WellShaped(s.world.nodes)
    ensures SameIds(w.nodes, s.world.nodes)
  {
    var o := AddRelationshipOutcome(w.nodes, id1, id2, relType, now);
    if o.result.Normal? then
      var i1 := FindIndex(w.nodes, id1);
      EdgeCountUpdate(w.nodes, i1, o.result.value);
      ShapedUpdate(w.nodes, i1, o.result.value);
      Step(o.result, World(o.records, Recount(o.records, w.state, now)))
    else Step(o.result, w)
  }

  /** With a well-shaped store and a state that tracks the count, a successful create leaves
      `relationshipCount` equal to the number of edges. */
  lemma CreateKeepsCountInSync(w: World, id1: Value, id2: Value, relType: Value, now: string)
    requires WellShaped(w.nodes) && "relationshipCount" in w.state
    requires CreateRelationshipStep(w, id1, id2, relType, now).result.Normal?
    ensures var s := CreateRelationshipStep(w, id1, id2, relType, now);
      Field(s.world.state, "relationshipCount") == Num(EdgeCount(s.world.nodes) as real)
  {
  }

  // ----- updating and deleting one edge -----

  /** `rel.targetNodeId === id`, for an edge that can be read. */
  predicate Targets(rel: Value, id: Value) {
    StrictEq(GetProp(rel, "targetNodeId"), id)
  }

  /** `relationships.find(rel => rel.targetNodeId === id)`: the index of the first match;
      reading `targetNodeId` of a `null` or `undefined` entry met first throws. */
  function FindEdge(rels: seq<Value>, id: Value): (r: Completion<nat>)
    ensures r.Normal? ==>
      r.value < |rels| && Targets(rels[r.value], id) && !Nullish(rels[r.value]) &&
      forall k :: 0 <= k < r.value ==> !Nullish(rels[k]) && !Targets(rels[k], id)
    ensures r.NullReturn? ==> forall k :: 0 <= k < |rels| ==> !Nullish(rels[k]) && !Targets(rels[k], id)
    ensures r.Threw? ==> r.error == TypeError
    ensures r.Threw? ==>
      exists k :: 0 <= k < |rels| && Nullish(rels[k]) && forall m :: 0 <= m < k ==> !Nullish(rels[m]) && !Targets(rels[m], id)
  {
    if rels == [] then NullReturn
    else if Nullish(rels[0]) then Threw(TypeError)
    else if Targets(rels[0], id) then Normal(0)
    else
      assert forall k :: 1 <= k < |rels| ==> rels[k] == rels[1..][k - 1];
      match FindEdge(rels[1..], id)
      case Normal(j) => Normal(j + 1)
      case NullReturn => NullReturn
      case Threw(e) => Threw(e)
  }

  /** `relationship.type = newType; relationship.updatedAt = now`, which has an effect only on
      an edge that is an object. */
  function Retyped(rel: Value, newType: Value, now: string): (r: Value)
    ensures rel.Obj? ==> (r.Obj? && r.fields.Keys == rel.fields.Keys + {"type", "updatedAt"} &&
      GetProp(r, "type") == newType && GetProp(r, "updatedAt") == Str(now) &&
      forall k :: k != "type" && k != "updatedAt" ==> GetProp(r, k) == GetProp(rel, k))
    ensures !rel.Obj? ==> r == rel
  {
    if rel.Obj? then Obj(rel.fields["type" := newType]["updatedAt" := Str(now)]) else rel
  }

  /** The node with `id1` exists but looking up its edge to `id2` throws: its `relationships`
      is not an array, or a `null`/`undefined` edge comes before any edge to `id2`. */
  predicate FindThrows(nodes: seq<Object>, id1: Value, id2: Value) {
    var i := FindIndex(nodes, id1);
    0 <= i && (!Field(nodes[i], "relationships").Arr? || FindEdge(Edges(nodes[i]), id2).Threw?)
  }

  /** The node with `id1` exists and `find` returns a truthy edge to `id2`. */
  predicate EdgeFound(nodes: seq<Object>, id1: Value, id2: Value) {
    var i := FindIndex(nodes, id1);
    0 <= i && Field(nodes[i], "relationships").Arr? && FindEdge(Edges(nodes[i]), id2).Normal? &&
    Truthy(Edges(nodes[i])[FindEdge(Edges(nodes[i]), id2).value])
  }

  /** `updateRelationship(nodeId1, nodeId2, newType)`: the first edge of the first node with
      `nodeId1` that targets `nodeId2` is retyped and stamped, and the node saved through
      `updateNode`. The count is not refreshed: the number of edges is unchanged. */
  function UpdateRelationshipOutcome(nodes: seq<Object>, id1: Value, id2: Value, newType: Value, now: string)
    : (o: Outcome<Completion<Object>>)
    ensures o.result.Threw? <==> FindThrows(nodes, id1, id2)
    ensures o.result.Normal? <==> EdgeFound(nodes, id1, id2)
    ensures o.result.Threw? ==> o.result.error == TypeError
    ensures !o.result.Normal? ==> o.records == nodes
    ensures FindIndex(nodes, id1) == -1 ==> o.result.NullReturn?
    ensures SameIds(nodes, o.records) && EdgeCount(o.records) == EdgeCount(nodes)
  {
    var i := FindIndex(nodes, id1);
    if i == -1 then Outcome(NullReturn, nodes)
    else
      var node1 := nodes[i];
      var rels := Field(node1, "relationships");
      if !rels.Arr? then Outcome(Threw(TypeError), nodes)
      else
        match FindEdge(rels.elems, id2)
        case NullReturn => Outcome(NullReturn, nodes)
        case Threw(e) => Outcome(Threw(e), nodes)
        case Normal(j) =>
          if !Truthy(rels.elems[j]) then Outcome(NullReturn, nodes)
          else
            var edited := node1["relationships" := Arr(rels.elems[j := Retyped(rels.elems[j], newType, now)])];
            var u := UpdateOutcome(nodes, id1, edited, now);
            EdgeCountUpdate(nodes, i, u.result.value);
            Outcome(Normal(u.result.value), u.records)
  }

  /** An update that succeeds saves node1 with only the found edge retyped and stamped;
      node1 gets `updatedAt` and keeps every other field. */
  lemma UpdateStepRetypes(nodes: seq<Object>, id1: Value, id2: Value, newType: Value, now: string)
    requires UpdateRelationshipOutcome(nodes, id1, id2, newType, now).result.Normal?
    ensures var o := UpdateRelationshipOutcome(nodes, id1, id2, newType, now);
      var i := FindIndex(nodes, id1);
      var j := FindEdge(Edges(nodes[i]), id2).value;
      o.records == nodes[i := o.result.value] &&
      Field(o.result.value, "relationships").Arr? &&
      Edges(o.result.value) == Edges(nodes[i])[j := Retyped(Edges(nodes[i])[j], newType, now)] &&
      Field(o.result.value, "updatedAt") == Str(now) &&
      o.result.value.Keys == nodes[i].Keys + {"updatedAt"} &&
      forall k :: k != "relationships" && k != "updatedAt" ==> Field(o.result.value, k) == Field(nodes[i], k)
  {
  }

  /** Where `deleteRelationship` finds nothing to delete, `updateRelationship` finds nothing
      to update: both return `null` when the node is missing or has an array of readable
      edges none of which targets `id2`. */
  lemma UpdateMissingEdgeIsNull(nodes: seq<Object>, id1: Value, id2: Value, newType: Value, now: string)
    requires NothingToDelete(nodes, id1, id2)
    ensures UpdateRelationshipOutcome(nodes, id1, id2, newType, now) == Outcome(NullReturn, nodes)
  {
  }

  /** `relationships.filter(rel => rel.targetNodeId !== id)` over readable edges. */
  function KeepOthers(rels: seq<Value>, id: Value): (r: seq<Value>)
    ensures |r| <= |rels|
    ensures forall e :: e in r <==> e in rels && !Targets(e, id)
    ensures |r| == |rels| <==> forall k :: 0 <= k < |rels| ==> !Targets(rels[k], id)
  {
    if rels == [] then []
    else
      assert forall e :: e in rels <==> e == rels[0] || e in rels[1..];
      assert forall k :: 1 <= k < |rels| ==> rels[k] == rels[1..][k - 1];
      (if Targets(rels[0], id) then [] else [rels[0]]) + KeepOthers(rels[1..], id)
  }

  /** The filter distributes over concatenation, so the kept edges stay in their order and
      with their multiplicity. */
  lemma {:induction false} KeepOthersAppend(a: seq<Value>, b: seq<Value>, id: Value)
    ensures KeepOthers(a + b, id) == KeepOthers(a, id) + KeepOthers(b, id)
  {
    if a == [] {
      assert a + b == b;
    } else {
      assert (a + b)[1..] == a[1..] + b;
      KeepOthersAppend(a[1..], b, id);
    }
  }

  /** A single edge is kept exactly when it does not target `id`. */
  lemma KeepOthersSingle(e: Value, id: Value)
    ensures KeepOthers([e], id) == if Targets(e, id) then [] else [e]
  {
    assert [e][1..] == [];
  }

  /** `deleteRelationship(nodeId1, nodeId2)`: every edge of the first node with `nodeId1` that
      targets `nodeId2` is removed, the node saved through `updateNode`, and the count
      refreshed; `null` when the node is missing or has no such edge. */
  function DeleteRelationshipStep(w: World, id1: Value, id2: Value, now: string): (s: Step<Object>)
    ensures s.result.Threw? <==> 0 <= FindIndex(w.nodes, id1) && !ShapedNode(w.nodes[FindIndex(w.nodes, id1)])
    ensures s.result.Threw? ==> s.result.error == TypeError
    ensures s.result.NullReturn? <==> NothingToDelete(w.nodes, id1, id2)
    ensures !s.result.Normal? ==> s.world == w
    ensures SameIds(w.nodes, s.world.nodes)
  {
    var i := FindIndex(w.nodes, id1);
    if i == -1 then Step(NullReturn, w)
    else
      var node1 := w.nodes[i];
      if !ShapedNode(node1) then Step(Threw(TypeError), w)
      else
        var kept := KeepOthers(Edges(node1), id2);
        if |kept| == |Edges(node1)| then Step(NullReturn, w)
        else
          var edited := node1["relationships" := Arr(kept)]["updatedAt" := Str(now)];
          var u := UpdateOutcome(w.nodes, id1, edited, now);
          assert IdOf(u.result.value) == IdOf(node1);
          Step(Normal(u.result.value), World(u.records, Recount(u.records, w.state, now)))
  }

  /** A delete that succeeds saves node1 with exactly the edges `KeepOthers` keeps, fewer
      of them, so fewer in the store; node1 gets `updatedAt`, keeps every other field, and
      the state is recounted. */
  lemma DeleteStepRemoves(w: World, id1: Value, id2: Value, now: string)
    requires DeleteRelationshipStep(w, id1, id2, now).result.Normal?
    ensures var s := DeleteRelationshipStep(w, id1, id2, now);
      var i := FindIndex(w.nodes, id1);
      0 <= i && s.world.nodes == w.nodes[i := s.result.value] &&
      Edges(s.result.value) == KeepOthers(Edges(w.nodes[i]), id2) &&
      |Edges(s.result.value)| < |Edges(w.nodes[i])| &&
      EdgeCount(s.world.nodes) < EdgeCount(w.nodes) &&
      Field(s.result.value, "updatedAt") == Str(now) &&
      s.result.value.Keys == w.nodes[i].Keys + {"updatedAt"} &&
      (forall k :: k != "relationships" && k != "updatedAt" ==> Field(s.result.value, k) == Field(w.nodes[i], k)) &&
      s.world.state == Recount(s.world.nodes, w.state, now)
  {
    var i := FindIndex(w.nodes, id1);
    DeletedNode(w.nodes, i, KeepOthers(Edges(w.nodes[i]), id2), now);
  }

  /** When an edge to `id2` can be deleted, the step saves node1 with the kept edges through
      `updateNode` and recounts. */
  lemma DeleteStepSaves(w: World, id1: Value, id2: Value, now: string)
    requires 0 <= FindIndex(w.nodes, id1) && ShapedNode(w.nodes[FindIndex(w.nodes, id1)])
    requires |KeepOthers(Edges(w.nodes[FindIndex(w.nodes, id1)]), id2)| != |Edges(w.nodes[FindIndex(w.nodes, id1)])|
    ensures var node1 := w.nodes[FindIndex(w.nodes, id1)];
      var u := UpdateOutcome(w.nodes, id1, node1["relationships" := Arr(KeepOthers(Edges(node1), id2))]["updatedAt" := Str(now)], now);
      u.result.Some? &&
      DeleteRelationshipStep(w, id1, id2, now) == Step(Normal(u.result.value), World(u.records, Recount(u.records, w.state, now)))
  {
  }

  /** `deleteRelationship` returns `null`: the node is missing, or its edges can all be read
      and none targets `id2`. */
  predicate NothingToDelete(nodes: seq<Object>, id1: Value, id2: Value) {
    var i := FindIndex(nodes, id1);
    i == -1 || (ShapedNode(nodes[i]) && forall k :: 0 <= k < |Edges(nodes[i])| ==> !Targets(Edges(nodes[i])[k], id2))
  }

  /** The node `deleteRelationship` saves holds the kept edges: fewer of them, so fewer in
      the whole store, and every other field and every id stays in place. */
  lemma DeletedNode(nodes: seq<Object>, i: nat, kept: seq<Value>, now: string)
    requires i < |nodes| && Field(nodes[i], "relationships").Arr?
    requires |kept| < |Edges(nodes[i])|
    ensures var n := Patched(nodes[i], nodes[i]["relationships" := Arr(kept)]["updatedAt" := Str(now)], now);
      Edges(n) == kept && Field(n, "updatedAt") == Str(now) &&
      n.Keys == nodes[i].Keys + {"updatedAt"} &&
      (forall k :: k != "relationships" && k != "updatedAt" ==> Field(n, k) == Field(nodes[i], k)) &&
      EdgeCount(nodes[i := n]) < EdgeCount(nodes) && SameIds(nodes, nodes[i := n])
  {
    var n := Patched(nodes[i], nodes[i]["relationships" := Arr(kept)]["updatedAt" := Str(now)], now);
    assert Field(n, "relationships") == Arr(kept);
    assert IdOf(n) == IdOf(nodes[i]);
    EdgeCountUpdate(nodes, i, n);
  }

  class RelationshipService {
    const store: NodeStore
    const gs: GlobalStore

    constructor(store: NodeStore, gs: GlobalStore)
      ensures this.store == store && this.gs == gs
    {
      this.store := store;
      this.gs := gs;
    }

    /** The nodes and the state, as one value. */
    function Current(): World
      reads store, gs
    {
      World(store.nodes, gs.state)
    }

    /** `getAllRelationships()` */
    method GetAllRelationships() returns (r: Completion<seq<Value>>)
      ensures r == Flatten(store.nodes)
    {
      var nodes := store.GetAllNodes();
      var acc: seq<Value> := [];
      var i := 0;
      while i < |nodes|
        invariant 0 <= i <= |nodes|
        invariant WellShaped(nodes[..i])
        invariant acc == AllEdges(nodes[..i])
      {
        var node := nodes[i];
        var rels := Field(node, "relationships");
        if !rels.Arr? {
          return Threw(TypeError);
        }
        var base := acc;
        var j := 0;
        while j < |rels.elems|
          invariant 0 <= j <= |rels.elems|
          invariant forall k :: 0 <= k < j ==> !Nullish(rels.elems[k])
          invariant acc == base + NodeEntries(node)[..j]
        {
          var rel := rels.elems[j];
          if Nullish(rel) {
            assert !ShapedNode(nodes[i]);
            return Threw(TypeError);
          }
          assert NodeEntries(node)[..j + 1] == NodeEntries(node)[..j] + [EdgeEntry(IdOf(node), rel)];
          acc := acc + [EdgeEntry(IdOf(node), rel)];
          j := j + 1;
        }
        assert NodeEntries(node)[..j] == NodeEntries(node);
        assert nodes[..i + 1][..i] == nodes[..i];
        assert ShapedNode(node) by {
          forall e | e in Edges(node) ensures !Nullish(e) {
            var k :| 0 <= k < |rels.elems| && rels.elems[k] == e;
          }
        }
        i := i + 1;
      }
      assert nodes[..i] == nodes;
      r := Normal(acc);
    }

    /** `updateGlobalRelationshipCount()` */
    method UpdateGlobalRelationshipCount(now: string)
      modifies gs
      ensures gs.state == Recount(store.nodes, old(gs.state), now)
    {
      var relationships := GetAllRelationships();
      if relationships.Normal? {
        var _ := gs.UpdateState("relationshipCount", Num(|relationships.value| as real), now);
      }
    }

    /** `createRelationship(nodeId1, nodeId2, type)` */
    method CreateRelationship(id1: Value, id2: Value, relType: Value, now: string) returns (r: Completion<Object>)
      modifies store, gs
      ensures r == CreateRelationshipStep(old(Current()), id1, id2, relType, now).result
      ensures Current() == CreateRelationshipStep(old(Current()), id1, id2, relType, now).world
    {
      ghost var w := Current();
      ghost var o := AddRelationshipOutcome(w.nodes, id1, id2, relType, now);
      var node1 := store.GetNodeById(id1);
      var node2 := store.GetNodeById(id2);
      if node1.None? || node2.None? {
        assert o.result.NullReturn?;
        assert CreateRelationshipStep(w, id1, id2, relType, now) == Step(NullReturn, w);
        return NullReturn;
      }
      r := store.AddRelationship(id1, id2, relType, now);
      assert r == o.result && store.nodes == o.records;
      if r.Normal? {
        UpdateGlobalRelationshipCount(now);
        assert gs.state == Recount(o.records, w.state, now);
        assert CreateRelationshipStep(w, id1, id2, relType, now) == Step(r, World(o.records, gs.state));
      } else {
        assert CreateRelationshipStep(w, id1, id2, relType, now) == Step(r, w);
      }
    }

    /** `updateRelationship(nodeId1, nodeId2, newType)` */
    method UpdateRelationship(id1: Value, id2: Value, newType: Value, now: string) returns (r: Completion<Object>)
      modifies store
      ensures r == UpdateRelationshipOutcome(old(store.nodes), id1, id2, newType, now).result
      ensures store.nodes == UpdateRelationshipOutcome(old(store.nodes), id1, id2, newType, now).records
    {
      var found := store.GetNodeById(id1);
      assert found == Find(store.nodes, id1);
      if found.None? {
        return NullReturn;
      }
      var node1 := found.value;
      var rels := Field(node1, "relationships");
      if !rels.Arr? {
        return Threw(TypeError);
      }
      var j := FindEdge(rels.elems, id2);
      if j.Threw? {
        return Threw(j.error);
      }
      if j.NullReturn? || !Truthy(rels.elems[j.value]) {
        return NullReturn;
      }
      var edited := node1["relationships" := Arr(rels.elems[j.value := Retyped(rels.elems[j.value], newType, now)])];
      var updated := store.UpdateNode(id1, edited, now);
      r := if updated.Some? then Normal(updated.value) else NullReturn;
    }

    /** `deleteRelationship(nodeId1, nodeId2)` */
    method DeleteRelationship(id1: Value, id2: Value, now: string) returns (r: Completion<Object>)
      modifies store, gs
      ensures Step(r, Current()) == DeleteRelationshipStep(old(Current()), id1, id2, now)
    {
      ghost var w := Current();
      var found := store.GetNodeById(id1);
      assert found == Find(w.nodes, id1);
      if found.None? {
        assert DeleteRelationshipStep(w, id1, id2, now) == Step(NullReturn, w);
        return NullReturn;
      }
      var node1 := found.value;
      if !ShapedNode(node1) {
        assert DeleteRelationshipStep(w, id1, id2, now) == Step(Threw(TypeError), w);
        return Threw(TypeError);
      }
      var kept := KeepOthers(Edges(node1), id2);
      if |kept| == |Edges(node1)| {
        assert DeleteRelationshipStep(w, id1, id2, now) == Step(NullReturn, w);
        return NullReturn;
      }
      r := SaveKept(id1, id2, node1, kept, now);
    }

    /** The tail of `deleteRelationship`: node1 saved with the kept edges, then the count
        refreshed. */
    method SaveKept(id1: Value, id2: Value, node1: Object, kept: seq<Value>, now: string) returns (r: Completion<Object>)
      requires 0 <= FindIndex(store.nodes, id1) && node1 == store.nodes[FindIndex(store.nodes, id1)]
      requires ShapedNode(node1) && kept == KeepOthers(Edges(node1), id2) && |kept| != |Edges(node1)|
      modifies store, gs
      ensures Step(r, Current()) == DeleteRelationshipStep(old(Current()), id1, id2, now)
    {
      ghost var w := Current();
      var edited := node1["relationships" := Arr(kept)]["updatedAt" := Str(now)];
      DeleteStepSaves(w, id1, id2, now);
      ghost var u := UpdateOutcome(w.nodes, id1, edited, now);
      var updated := store.UpdateNode(id1, edited, now);
      assert updated == u.result && store.nodes == u.records;
      UpdateGlobalRelationshipCount(now);
      r := if updated.Some? then Normal(updated.value) else NullReturn;
    }
  }
}
