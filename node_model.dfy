/** The node repository: an encrypted file holding the list of node records, each with an
    `id`, free-form fields copied from the request, a `relationships` array of outgoing edges
    and creation/update timestamps. The file is modelled by the list it decrypts to. */
module NodeModel {
  import opened JsValues
  import opened Records

  /** `generateUniqueId()` of the node repository. */
  function GenerateUniqueId(millis: nat, random: string): (id: string)
    ensures |id| >= 5 && id[..5] == "node_"
  {
    UniqueId("node_", millis, random)
  }

  /** The record `createNode(data)` appends. */
  function NewNode(data: Object, id: string, now: string): (r: Object)
    ensures r.Keys == data.Keys + {"id", "relationships", "createdAt", "updatedAt"}
    ensures IdOf(r) == (if "id" in data then data["id"] else Str(id))
    ensures Field(r, "relationships") == Arr([])
    ensures Field(r, "createdAt") == Str(now) && Field(r, "updatedAt") == Str(now)
    ensures forall k :: k != "id" && k != "relationships" && k != "createdAt" && k != "updatedAt" ==>
      Field(r, k) == Field(data, k)
  {
    NewRecord(data, id, now)["relationships" := Arr([])]
  }

  /** The edge pushed by `addRelationship`. */
  function NewEdge(target: Value, relType: Value, now: string): Value {
    Obj(map["targetNodeId" := target, "type" := relType, "createdAt" := Str(now)])
  }

  /** The outgoing edges of a record, when its `relationships` is an array. */
  function Edges(rec: Object): seq<Value> {
    var rels := Field(rec, "relationships");
    if rels.Arr? then rels.elems else []
  }

  /** `rec.relationships.push(edge)`: `None` when `relationships` is not an array, where the
      call throws a `TypeError`. */
  function WithEdge(rec: Object, edge: Value): (r: Option<Object>)
    ensures r.Some? <==> Field(rec, "relationships").Arr?
    ensures r.Some? ==> r.value.Keys == rec.Keys + {"relationships"}
    ensures r.Some? ==> Field(r.value, "relationships").Arr? && Edges(r.value) == Edges(rec) + [edge]
    ensures r.Some? ==> forall k :: k != "relationships" ==> Field(r.value, k) == Field(rec, k)
  {
    var rels := Field(rec, "relationships");
    if rels.Arr? then Some(rec["relationships" := Arr(rels.elems + [edge])]) else None
  }

  /** `addRelationship(nodeId1, nodeId2, type)`: `null` unless both ids are found; otherwise the
      first node with `nodeId1` gains an edge to the id of the first node with `nodeId2`. */
  function AddRelationshipOutcome(nodes: seq<Object>, id1: Value, id2: Value, relType: Value, now: string)
    : (o: Outcome<Completion<Object>>)
    ensures o.result.NullReturn? <==> FindIndex(nodes, id1) == -1 || FindIndex(nodes, id2) == -1
    ensures !o.result.Normal? ==> o.records == nodes
    ensures o.result.Threw? ==> o.result.error == TypeError && !Field(nodes[FindIndex(nodes, id1)], "relationships").Arr?
    ensures o.result.Normal? ==>
      var i1, i2 := FindIndex(nodes, id1), FindIndex(nodes, id2);
      o.records == nodes[i1 := o.result.value] &&
      o.result.value == nodes[i1]["relationships" := Arr(Edges(nodes[i1]) + [NewEdge(IdOf(nodes[i2]), relType, now)])] &&
      Edges(o.result.value) == Edges(nodes[i1]) + [NewEdge(IdOf(nodes[i2]), relType, now)] &&
      IdOf(o.result.value) == IdOf(nodes[i1])
    ensures SameIds(nodes, o.records)
  {
    var i1, i2 := FindIndex(nodes, id1), FindIndex(nodes, id2);
    if i1 == -1 || i2 == -1 then Outcome(NullReturn, nodes)
    else
      match WithEdge(nodes[i1], NewEdge(IdOf(nodes[i2]), relType, now))
      case None => Outcome(Threw(TypeError), nodes)
      case Some(u) => Outcome(Normal(u), nodes[i1 := u])
  }

  /** A node created under a fresh primitive id is found again, with no edges yet. */
  lemma CreatedNodeIsFound(nodes: seq<Object>, data: Object, id: string, now: string)
    requires "id" in data ==> IsPrimitive(data["id"])
    requires FindIndex(nodes, IdOf(NewNode(data, id, now))) == -1
    ensures Find(nodes + [NewNode(data, id, now)], IdOf(NewNode(data, id, now))) == Some(NewNode(data, id, now))
    ensures Edges(NewNode(data, id, now)) == []
  {
    CreatedIsFound(nodes, NewNode(data, id, now));
  }

  /** Only `updatedAt` and the fields in `data` change when a node is updated; in particular a
      node keeps its edges unless `data` replaces them. */
  lemma UpdateKeepsEdges(nodes: seq<Object>, id: Value, data: Object, now: string)
    requires "relationships" !in data
    ensures var o := UpdateOutcome(nodes, id, data, now);
      o.result.Some? ==> Edges(o.result.value) == Edges(nodes[FindIndex(nodes, id)])
  {
  }

  class NodeStore {
    /** The node list the repository file currently holds. */
    var nodes: seq<Object>

    /** `readNodesFile()`: a missing file reads as the empty list. */
    constructor(file: Option<seq<Object>>)
      ensures nodes == file.GetOr([])
    {
      nodes := file.GetOr([]);
    }

    /** `getAllNodes()` */
    function GetAllNodes(): (r: seq<Object>)
      reads this
      ensures r == nodes
    {
      nodes
    }

    /** `getNodeById(id)`: the first node whose id is `=== id`, if any. */
    function GetNodeById(id: Value): (r: Option<Object>)
      reads this
      ensures r.None? <==> forall k :: 0 <= k < |nodes| ==> !HasId(nodes[k], id)
      ensures r.Some? ==> r.value in nodes && HasId(r.value, id)
      ensures r.Some? ==> exists k :: 0 <= k < |nodes| && nodes[k] == r.value && forall j :: 0 <= j < k ==> !HasId(nodes[j], id)
    {
      Find(nodes, id)
    }

    /** `createNode(data)`: appends and returns a node with a generated id (unless `data`
        supplies one), no edges, and `now` as both timestamps. */
    method CreateNode(data: Object, millis: nat, random: string, now: string) returns (r: Object)
      modifies this
      ensures r == NewNode(data, GenerateUniqueId(millis, random), now)
      ensures nodes == old(nodes) + [r]
    {
      var id := GenerateUniqueId(millis, random);
      r := NewNode(data, id, now);
      nodes := nodes + [r];
    }

    /** `updateNode(id, data)` */
    method UpdateNode(id: Value, data: Object, now: string) returns (r: Option<Object>)
      modifies this
      ensures r == UpdateOutcome(old(nodes), id, data, now).result
      ensures nodes == UpdateOutcome(old(nodes), id, data, now).records
    {
      var o := UpdateOutcome(nodes, id, data, now);
      r := o.result;
      nodes := o.records;
    }

    /** `deleteNode(id)` */
    method DeleteNode(id: Value) returns (r: Option<Object>)
      modifies this
      ensures r == DeleteOutcome(old(nodes), id).result
      ensures nodes == DeleteOutcome(old(nodes), id).records
    {
      var o := DeleteOutcome(nodes, id);
      r := o.result;
      nodes := o.records;
    }

    /** `addRelationship(nodeId1, nodeId2, relationshipType)` */
    method AddRelationship(id1: Value, id2: Value, relType: Value, now: string) returns (r: Completion<Object>)
      modifies this
      ensures r == AddRelationshipOutcome(old(nodes), id1, id2, relType, now).result
      ensures nodes == AddRelationshipOutcome(old(nodes), id1, id2, relType, now).records
    {
      var o := AddRelationshipOutcome(nodes, id1, id2, relType, now);
      r := o.result;
      nodes := o.records;
    }
  }
}
