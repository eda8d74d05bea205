/** The fuzzy-logic service: links a node to every stored node it resembles closely enough,
    and runs that analysis over the nodes of every document or, past a node-count threshold,
    over every stored node. */
module FuzzyLogicService {
  import opened JsValues
  import opened Records
  import opened NodeModel
  import opened GlobalState
  import opened DocumentModel
  import opened RelationshipService

  // ----- similarity -----

  /** `calculateSimilarity(node1, node2)` in tenths: 4 for the same `type`, 3 for the same
      `category`, 3 for the same truthy `value`. The floating-point sums the source forms
      (0.4, 0.3, 0.7, 0.6, 1.0) are exact enough that only the full 1.0 exceeds 0.7. */
  function Similarity(a: Value, b: Value): (r: nat)
    ensures r <= 10
    ensures r == 10 <==>
      StrictEq(GetProp(a, "type"), GetProp(b, "type")) &&
      StrictEq(GetProp(a, "category"), GetProp(b, "category")) &&
      Truthy(GetProp(a, "value")) && Truthy(GetProp(b, "value")) &&
      StrictEq(GetProp(a, "value"), GetProp(b, "value"))
  {
    var va, vb := GetProp(a, "value"), GetProp(b, "value");
    (if StrictEq(GetProp(a, "type"), GetProp(b, "type")) then 4 else 0)
    + (if StrictEq(GetProp(a, "category"), GetProp(b, "category")) then 3 else 0)
    + (if Truthy(va) && Truthy(vb) && StrictEq(va, vb) then 3 else 0)
  }

  /** `similarityScore > 0.7` */
  predicate Similar(a: Value, b: Value)
    ensures Similar(a, b) <==> Similarity(a, b) == 10
  {
    Similarity(a, b) > 7
  }

  /** The score is at most 1.0, symmetric, and passes the threshold exactly when all three
      attributes agree. */
  lemma SimilarityThreshold(a: Value, b: Value)
    ensures Similarity(a, b) <= 10 && Similarity(a, b) == Similarity(b, a)
    ensures Similar(a, b) <==>
      StrictEq(GetProp(a, "type"), GetProp(b, "type")) &&
      StrictEq(GetProp(a, "category"), GetProp(b, "category")) &&
      Truthy(GetProp(a, "value")) && StrictEq(GetProp(a, "value"), GetProp(b, "value"))
  {
    StrictEqIsEquality(GetProp(a, "type"), GetProp(b, "type"));
    StrictEqIsEquality(GetProp(a, "category"), GetProp(b, "category"));
    StrictEqIsEquality(GetProp(a, "value"), GetProp(b, "value"));
  }

  /** Two records that carry neither `type` nor `category` agree on both (`undefined ===
      undefined`), so they are linked as soon as they share a truthy primitive `value`. */
  lemma UntypedRecordsLinkOnValue(a: Object, b: Object)
    requires "type" !in a && "type" !in b && "category" !in a && "category" !in b
    requires "value" in a && "value" in b && a["value"] == b["value"] && IsPrimitive(a["value"]) && Truthy(a["value"])
    ensures Similar(Obj(a), Obj(b))
  {
    assert GetProp(Obj(a), "type") == Undefined == GetProp(Obj(b), "type");
    assert GetProp(Obj(a), "category") == Undefined == GetProp(Obj(b), "category");
    assert GetProp(Obj(a), "value") == a["value"] == GetProp(Obj(b), "value");
  }

  function NodeId(node: Value): Value {
    GetProp(node, "id")
  }

  /** `node.id !== targetNode.id && calculateSimilarity(node, targetNode) > 0.7` */
  predicate Eligible(node: Value, t: Object) {
    !StrictEq(NodeId(node), IdOf(t)) && Similar(node, Obj(t))
  }

  // ----- analysing one node -----

  /** Where the scan over the snapshot of nodes stopped: `aborted` when an exception left the
      loop, which `analyzeNodeForRelationships` catches and logs. */
  datatype ScanResult = ScanResult(world: World, aborted: bool)

  /** The loop of `analyzeNodeForRelationships` over the remaining targets `ts`: reading
      `node.id` throws when `node` is `null` or `undefined`; a similar target is linked
      through `createRelationship`, whose exception ends the loop. */
  function Scan(w: World, node: Value, ts: seq<Object>, now: string): (r: ScanResult)
    ensures SameIds(w.nodes, r.world.nodes)
    ensures ts == [] ==> r == ScanResult(w, false)
    decreases |ts|
  {
    if ts == [] then ScanResult(w, false)
    else if Nullish(node) then ScanResult(w, true)
    else if Eligible(node, ts[0]) then
      var s := CreateRelationshipStep(w, NodeId(node), IdOf(ts[0]), Str("similarity"), now);
      if s.result.Threw? then ScanResult(s.world, true)
      else
        Scan(s.world, node, ts[1..], now)
    else Scan(w, node, ts[1..], now)
  }

  /** `analyzeNodeForRelationships(node)`: the scan over a snapshot of the stored nodes, then
      `updateGlobalStateForRelationships()` unless the scan was aborted. */
  function AnalyzeNodeOutcome(w: World, node: Value, now: string): (r: World)
    ensures SameIds(w.nodes, r.nodes)
    ensures Nullish(node) && w.nodes != [] ==> r == w
  {
    var s := Scan(w, node, w.nodes, now);
    if s.aborted then s.world else World(s.world.nodes, Recount(s.world.nodes, s.world.state, now))
  }

  /** `rec` with `es` appended to its edge array. */
  function AppendEdges(rec: Object, es: seq<Value>): Object {
    rec["relationships" := Arr(Edges(rec) + es)]
  }

  /** The edges one scan adds to the analysed node: one per eligible target whose id is
      found in the store, pointing at the first stored node with that id. */
  function ScanEdges(nodes: seq<Object>, node: Value, ts: seq<Object>, now: string): seq<Value> {
    if ts == [] then []
    else
      var k := FindIndex(nodes, IdOf(ts[0]));
      (if Eligible(node, ts[0]) && k != -1 then [NewEdge(IdOf(nodes[k]), Str("similarity"), now)] else [])
      + ScanEdges(nodes, node, ts[1..], now)
  }

  lemma {:induction false} ScanEdgesSameIds(a: seq<Object>, b: seq<Object>, node: Value, ts: seq<Object>, now: string)
    requires SameIds(a, b)
    ensures ScanEdges(a, node, ts, now) == ScanEdges(b, node, ts, now)
  {
    if ts != [] {
      FindIndexSameIds(a, b, IdOf(ts[0]));
      ScanEdgesSameIds(a, b, node, ts[1..], now);
    }
  }

  lemma AppendEdgesTwice(rec: Object, a: seq<Value>, b: seq<Value>)
    ensures AppendEdges(AppendEdges(rec, a), b) == AppendEdges(rec, a + b)
  {
    assert Edges(AppendEdges(rec, a)) == Edges(rec) + a;
    assert Edges(rec) + a + b == Edges(rec) + (a + b);
  }

  /** The analysed node is stored, and its edges form an array. */
  predicate Linkable(w: World, node: Value) {
    !Nullish(node) && FindIndex(w.nodes, NodeId(node)) != -1
    && Field(w.nodes[FindIndex(w.nodes, NodeId(node))], "relationships").Arr?
  }

  /** Appending edges to the analysed node keeps every id, so the node stays linkable. */
  lemma AppendKeepsLinkable(w: World, node: Value, es: seq<Value>, w': World)
    requires Linkable(w, node)
    requires w'.nodes == w.nodes[FindIndex(w.nodes, NodeId(node)) := AppendEdges(w.nodes[FindIndex(w.nodes, NodeId(node))], es)]
    ensures SameIds(w'.nodes, w.nodes) && SameIds(w.nodes, w'.nodes)
    ensures FindIndex(w'.nodes, NodeId(node)) == FindIndex(w.nodes, NodeId(node)) && Linkable(w', node)
  {
    var src := FindIndex(w.nodes, NodeId(node));
    assert IdOf(w'.nodes[src]) == IdOf(w.nodes[src]);
    assert SameIds(w.nodes, w'.nodes);
    FindIndexSameIds(w.nodes, w'.nodes, NodeId(node));
  }

  /** The edge an eligible target contributes: one to the first node with its id, if any. */
  function TargetEdge(nodes: seq<Object>, t: Object, now: string): seq<Value> {
    var k := FindIndex(nodes, IdOf(t));
    if k != -1 then [NewEdge(IdOf(nodes[k]), Str("similarity"), now)] else []
  }

  /** One eligible target: `createRelationship` cannot throw, and it appends the target's edge
      when the target is found. */
  lemma StepAppends(w: World, node: Value, t: Object, now: string)
    requires Linkable(w, node)
    ensures var src := FindIndex(w.nodes, NodeId(node));
      var s := CreateRelationshipStep(w, NodeId(node), IdOf(t), Str("similarity"), now);
      !s.result.Threw? && FindIndex(s.world.nodes, NodeId(node)) == src &&
      s.world.nodes == w.nodes[src := AppendEdges(w.nodes[src], TargetEdge(w.nodes, t, now))]
  {
    var src := FindIndex(w.nodes, NodeId(node));
    var rec := w.nodes[src];
    var s := CreateRelationshipStep(w, NodeId(node), IdOf(t), Str("similarity"), now);
    FindIndexSameIds(w.nodes, s.world.nodes, NodeId(node));
    if FindIndex(w.nodes, IdOf(t)) == -1 {
      assert s.world == w;
      assert AppendEdges(rec, []) == rec by {
        assert Edges(rec) + [] == Edges(rec);
      }
    }
  }

  /** The edges target `t` contributes to the analysed node. */
  function OneEdge(nodes: seq<Object>, node: Value, t: Object, now: string): seq<Value> {
    if Eligible(node, t) then TargetEdge(nodes, t, now) else []
  }

  /** The world after the loop body has handled target `t`. */
  function StepWorld(w: World, node: Value, t: Object, now: string): World {
    if Eligible(node, t) then CreateRelationshipStep(w, NodeId(node), IdOf(t), Str("similarity"), now).world else w
  }

  lemma StepWorldAppends(w: World, node: Value, t: Object, now: string)
    requires Linkable(w, node)
    ensures var src := FindIndex(w.nodes, NodeId(node));
      var sw := StepWorld(w, node, t, now);
      sw.nodes == w.nodes[src := AppendEdges(w.nodes[src], OneEdge(w.nodes, node, t, now))]
  {
    var src := FindIndex(w.nodes, NodeId(node));
    var rec := w.nodes[src];
    if Eligible(node, t) {
      StepAppends(w, node, t, now);
    } else {
      assert AppendEdges(rec, []) == rec by {
        assert Edges(rec) + [] == Edges(rec);
      }
    }
  }

  /** On a linkable node the scan makes one loop step per target and never aborts. */
  lemma ScanUnfold(w: World, node: Value, ts: seq<Object>, now: string)
    requires Linkable(w, node) && ts != []
    ensures Scan(w, node, ts, now) == Scan(StepWorld(w, node, ts[0], now), node, ts[1..], now)
  {
    if Eligible(node, ts[0]) {
      StepAppends(w, node, ts[0], now);
    }
  }

  /** When the analysed node is stored with an edge array, the scan never aborts and its only
      effect on the nodes is to append `ScanEdges` to that node's edges. */
  lemma {:induction false} ScanAppends(w: World, node: Value, ts: seq<Object>, now: string)
    requires Linkable(w, node)
    ensures !Scan(w, node, ts, now).aborted
    ensures var src := FindIndex(w.nodes, NodeId(node));
      Scan(w, node, ts, now).world.nodes == w.nodes[src := AppendEdges(w.nodes[src], ScanEdges(w.nodes, node, ts, now))]
    decreases |ts|
  {
    var src := FindIndex(w.nodes, NodeId(node));
    var rec := w.nodes[src];
    if ts == [] {
      assert AppendEdges(rec, []) == rec by {
        assert Edges(rec) + [] == Edges(rec);
      }
      assert w.nodes[src := rec] == w.nodes;
    } else {
      var t := ts[0];
      var one := OneEdge(w.nodes, node, t, now);
      var rest := ScanEdges(w.nodes, node, ts[1..], now);
      assert ScanEdges(w.nodes, node, ts, now) == one + rest;
      ScanUnfold(w, node, ts, now);
      var sw := StepWorld(w, node, t, now);
      StepWorldAppends(w, node, t, now);
      AppendKeepsLinkable(w, node, one, sw);
      ScanAppends(sw, node, ts[1..], now);
      ScanEdgesSameIds(sw.nodes, w.nodes, node, ts[1..], now);
      AppendAfterAppend(w.nodes, src, one, rest);
    }
  }

  /** Appending `a` to one node and then `b` to the same node appends `a + b` to it. */
  lemma AppendAfterAppend(nodes: seq<Object>, src: nat, a: seq<Value>, b: seq<Value>)
    requires src < |nodes|
    ensures var n1 := nodes[src := AppendEdges(nodes[src], a)];
      n1[src := AppendEdges(n1[src], b)] == nodes[src := AppendEdges(nodes[src], a + b)]
  {
    AppendEdgesTwice(nodes[src], a, b);
  }

  /** Every edge a scan adds points away from the analysed node: a node is never linked to
      a node with its own id. */
  lemma {:induction false} ScanEdgesNoSelfLoops(nodes: seq<Object>, node: Value, ts: seq<Object>, now: string)
    ensures forall e :: e in ScanEdges(nodes, node, ts, now) ==>
      e.Obj? && !StrictEq(NodeId(node), GetProp(e, "targetNodeId")) && GetProp(e, "type") == Str("similarity")
  {
    if ts != [] {
      ScanEdgesNoSelfLoops(nodes, node, ts[1..], now);
      var k := FindIndex(nodes, IdOf(ts[0]));
      if Eligible(node, ts[0]) && k != -1 {
        StrictEqIsEquality(IdOf(nodes[k]), IdOf(ts[0]));
      }
    }
  }

  /** The analysis only reads the identity and the three compared attributes of a target. */
  predicate SameAttributes(a: Object, b: Object) {
    IdOf(a) == IdOf(b) && Field(a, "type") == Field(b, "type")
    && Field(a, "category") == Field(b, "category") && Field(a, "value") == Field(b, "value")
  }

  lemma {:induction false} ScanEdgesSameTargets(nodes: seq<Object>, node: Value, ts: seq<Object>, us: seq<Object>, now: string)
    requires |ts| == |us| && forall k :: 0 <= k < |ts| ==> SameAttributes(ts[k], us[k])
    ensures ScanEdges(nodes, node, ts, now) == ScanEdges(nodes, node, us, now)
  {
    if ts != [] {
      assert SameAttributes(ts[0], us[0]);
      assert Eligible(node, ts[0]) == Eligible(node, us[0]);
      ScanEdgesSameTargets(nodes, node, ts[1..], us[1..], now);
    }
  }

  /** Analysing a stored node with an edge array appends `ScanEdges` to its edges and
      changes no other node. */
  lemma AnalyzeAppends(w: World, node: Value, now: string)
    requires Linkable(w, node)
    ensures var src := FindIndex(w.nodes, NodeId(node));
      AnalyzeNodeOutcome(w, node, now).nodes
        == w.nodes[src := AppendEdges(w.nodes[src], ScanEdges(w.nodes, node, w.nodes, now))]
  {
    ScanAppends(w, node, w.nodes, now);
  }

  /** Appending edges changes none of the attributes the analysis reads, so a second scan
      over the updated snapshot finds the same edges. */
  lemma RescanSameEdges(w: World, node: Value, es: seq<Value>, w1: World, now: string)
    requires Linkable(w, node)
    requires w1.nodes == w.nodes[FindIndex(w.nodes, NodeId(node)) := AppendEdges(w.nodes[FindIndex(w.nodes, NodeId(node))], es)]
    ensures ScanEdges(w1.nodes, node, w1.nodes, now) == ScanEdges(w.nodes, node, w.nodes, now)
  {
    var src := FindIndex(w.nodes, NodeId(node));
    AppendKeepsLinkable(w, node, es, w1);
    ScanEdgesSameIds(w1.nodes, w.nodes, node, w1.nodes, now);
    forall k | 0 <= k < |w.nodes|
      ensures SameAttributes(w1.nodes[k], w.nodes[k])
    {
      if k == src {
        AppendKeepsAttributes(w.nodes[src], es);
      }
    }
    ScanEdgesSameTargets(w.nodes, node, w1.nodes, w.nodes, now);
  }

  lemma AppendKeepsAttributes(rec: Object, es: seq<Value>)
    ensures SameAttributes(AppendEdges(rec, es), rec)
  {
  }

  /** Analysing the same stored node twice links it to each similar node twice: the analysis
      is not idempotent, and every run appends the same edges again. */
  lemma AnalyzeTwiceDuplicates(w: World, node: Value, now: string)
    requires Linkable(w, node)
    ensures var src := FindIndex(w.nodes, NodeId(node));
      var es := ScanEdges(w.nodes, node, w.nodes, now);
      AnalyzeNodeOutcome(AnalyzeNodeOutcome(w, node, now), node, now).nodes
        == w.nodes[src := AppendEdges(w.nodes[src], es + es)]
  {
    var src := FindIndex(w.nodes, NodeId(node));
    var rec := w.nodes[src];
    var es := ScanEdges(w.nodes, node, w.nodes, now);
    AnalyzeAppends(w, node, now);
    var w1 := AnalyzeNodeOutcome(w, node, now);
    AppendKeepsLinkable(w, node, es, w1);
    RescanSameEdges(w, node, es, w1, now);
    AnalyzeAppends(w1, node, now);
    AppendEdgesTwice(rec, es, es);
    assert w1.nodes[src] == AppendEdges(rec, es);
    assert w1.nodes[src := AppendEdges(AppendEdges(rec, es), es)] == w.nodes[src := AppendEdges(rec, es + es)];
  }

  // ----- analysing many nodes -----

  /** `for (node of nodes) await analyzeNodeForRelationships(node)`, which never throws. */
  function AnalyzeAll(w: World, nodes: seq<Value>, now: string): (r: World)
    ensures SameIds(w.nodes, r.nodes)
    decreases |nodes|
  {
    if nodes == [] then w else AnalyzeAll(AnalyzeNodeOutcome(w, nodes[0], now), nodes[1..], now)
  }

  /** The stored records as the values `for ... of` hands to the analysis. */
  function AsValues(rs: seq<Object>): (vs: seq<Value>)
    ensures |vs| == |rs| && forall k :: 0 <= k < |rs| ==> vs[k] == Obj(rs[k])
  {
    seq(|rs|, k requires 0 <= k < |rs| => Obj(rs[k]))
  }

  /** `applyRulesForRelationshipUpdates()`: past 50 nodes, every stored node is analysed. */
  function ApplyRulesOutcome(w: World, now: string): (r: World)
    ensures SameIds(w.nodes, r.nodes)
  {
    if Gt(Field(w.state, "nodeCount"), Num(50.0)) then AnalyzeAll(w, AsValues(w.nodes), now) else w
  }

  /** `analyzeDocumentsForRelationships()`: the nodes of each document in turn; a document
      whose `nodes` cannot be iterated throws, which ends the whole analysis. */
  function AnalyzeDocumentsOutcome(w: World, docs: seq<Object>, now: string): (r: World)
    ensures SameIds(w.nodes, r.nodes)
    ensures docs != [] && Iterate(Field(docs[0], "nodes")).None? ==> r == w
    decreases |docs|
  {
    if docs == [] then w
    else
      match Iterate(Field(docs[0], "nodes"))
      case None => w
      case Some(ns) => AnalyzeDocumentsOutcome(AnalyzeAll(w, ns, now), docs[1..], now)
  }

  /** At 50 nodes or fewer, or with a non-numeric `nodeCount`, the rule changes nothing. */
  lemma RulesBelowThreshold(w: World, now: string)
    requires ToNumber(Field(w.state, "nodeCount")) == None || ToNumber(Field(w.state, "nodeCount")).value <= 50.0
    ensures ApplyRulesOutcome(w, now) == w
  {
  }

  class FuzzyLogic {
    const rs: RelationshipService
    const docs: DocumentStore

    constructor(rs: RelationshipService, docs: DocumentStore)
      ensures this.rs == rs && this.docs == docs
    {
      this.rs := rs;
      this.docs := docs;
    }

    /** `updateGlobalStateForRelationships()` */
    method UpdateGlobalStateForRelationships(now: string)
      modifies rs.gs
      ensures rs.gs.state == Recount(rs.store.nodes, old(rs.gs.state), now)
    {
      var relationships := rs.GetAllRelationships();
      if relationships.Normal? {
        var _ := rs.gs.UpdateState("relationshipCount", Num(|relationships.value| as real), now);
      }
    }

    /** `analyzeNodeForRelationships(node)` */
    method AnalyzeNodeForRelationships(node: Value, now: string)
      modifies rs.store, rs.gs
      ensures rs.Current() == AnalyzeNodeOutcome(old(rs.Current()), node, now)
    {
      ghost var w := rs.Current();
      var allNodes := rs.store.GetAllNodes();
      var i := 0;
      while i < |allNodes|
        invariant 0 <= i <= |allNodes| && allNodes == w.nodes
        invariant Scan(w, node, allNodes, now) == Scan(rs.Current(), node, allNodes[i..], now)
      {
        assert allNodes[i..][1..] == allNodes[i + 1..];
        var target := allNodes[i];
        if Nullish(node) {
          return;
        }
        if !StrictEq(NodeId(node), IdOf(target)) {
          var score := Similarity(node, Obj(target));
          if score > 7 {
            var r := rs.CreateRelationship(NodeId(node), IdOf(target), Str("similarity"), now);
            if r.Threw? {
              return;
            }
          }
        }
        i := i + 1;
      }
      UpdateGlobalStateForRelationships(now);
    }

    /** `analyzeDocumentsForRelationships()` */
    method AnalyzeDocumentsForRelationships(now: string)
      modifies rs.store, rs.gs
      ensures rs.Current() == AnalyzeDocumentsOutcome(old(rs.Current()), docs.documents, now)
    {
      ghost var w := rs.Current();
      var documents := docs.GetAllDocuments();
      var i := 0;
      while i < |documents|
        invariant 0 <= i <= |documents| && documents == docs.documents
        invariant AnalyzeDocumentsOutcome(w, documents, now) == AnalyzeDocumentsOutcome(rs.Current(), documents[i..], now)
      {
        assert documents[i..][1..] == documents[i + 1..];
        var nodes := Iterate(Field(documents[i], "nodes"));
        if nodes.None? {
          return;
        }
        var j := 0;
        while j < |nodes.value|
          invariant 0 <= j <= |nodes.value| && documents == docs.documents
          invariant AnalyzeDocumentsOutcome(w, documents, now)
            == AnalyzeDocumentsOutcome(AnalyzeAll(rs.Current(), nodes.value[j..], now), documents[i + 1..], now)
        {
          assert nodes.value[j..][1..] == nodes.value[j + 1..];
          AnalyzeNodeForRelationships(nodes.value[j], now);
          j := j + 1;
        }
        i := i + 1;
      }
    }

    /** `applyRulesForRelationshipUpdates()` */
    method ApplyRulesForRelationshipUpdates(now: string)
      modifies rs.store, rs.gs
      ensures rs.Current() == ApplyRulesOutcome(old(rs.Current()), now)
    {
      ghost var w := rs.Current();
      var state := rs.gs.GetState();
      var nodeCount := Field(state, "nodeCount");
      if Gt(nodeCount, Num(50.0)) {
        var allNodes := rs.store.GetAllNodes();
        var i := 0;
        while i < |allNodes|
          invariant 0 <= i <= |allNodes| && allNodes == w.nodes
          invariant AnalyzeAll(w, AsValues(allNodes), now) == AnalyzeAll(rs.Current(), AsValues(allNodes)[i..], now)
        {
          assert AsValues(allNodes)[i..][1..] == AsValues(allNodes)[i + 1..];
          AnalyzeNodeForRelationships(Obj(allNodes[i]), now);
          i := i + 1;
        }
      }
    }
  }
}
