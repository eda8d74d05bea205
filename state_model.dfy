/** The file-backed state model: every call reads the state file afresh (the defaults when it
    is absent) and writes back what it changes. Its defaults track a `relationships` list
    where the in-memory singleton tracks a `relationshipCount`. */
module StateModel {
  import opened JsValues
  import opened GlobalState

  /** `defaultState` of the state model, whose `lastModified` is the module's load time. */
  function ModelDefaultState(loadTime: string): (s: Object)
    ensures s.Keys == {"lastModified", "nodeCount", "documentCount", "relationships", "settings", "rules"}
    ensures Field(s, "relationships") == Arr([])
  {
    map[
      "lastModified" := Str(loadTime),
      "nodeCount" := Num(0.0),
      "documentCount" := Num(0.0),
      "relationships" := Arr([]),
      "settings" := Obj(map["encryption" := Bool(true), "autoSync" := Bool(true), "logging" := Bool(true)]),
      "rules" := Obj(map["maxNodesPerDocument" := Num(100.0), "maxRelationshipsPerNode" := Num(10.0)])
    ]
  }

  /** `rules.maxRelationshipsPerNode` of a state. */
  function RelationshipBound(state: Object): Value {
    GetProp(Field(state, "rules"), "maxRelationshipsPerNode")
  }

  /** `validateStateUpdate(key, value)` of the state model: `nodeCount` is bounded as in the
      singleton, and `relationships` by its `length`; reading `value.length` or the bound
      throws a `TypeError` on `null` or `undefined`. */
  function ModelValidate(state: Object, key: string, value: Value): (c: Check)
    ensures key != "nodeCount" && key != "relationships" ==> c == Accept
    ensures c.Reject? ==> c.error == TypeError || c.error == RuleViolation(key)
    ensures key == "relationships" ==> (c == Reject(TypeError) <==> Nullish(value) || Nullish(Field(state, "rules")))
    ensures key == "relationships" && value.Arr? && RelationshipBound(state).Num? ==>
      (c.Accept? <==> |value.elems| as real <= RelationshipBound(state).n)
  {
    var rules := Field(state, "rules");
    if key == "nodeCount" then RangeCheck(value, rules, "maxNodesPerDocument", key)
    else if key == "relationships" then
      if Nullish(value) || Nullish(rules) then Reject(TypeError)
      else if Gt(GetProp(value, "length"), GetProp(rules, "maxRelationshipsPerNode")) then Reject(RuleViolation(key))
      else Accept
    else Accept
  }

  /** Under the default rules a relationship list (or string) is accepted exactly when it
      holds at most ten entries, and a numeric `nodeCount` exactly in 0..100. */
  lemma ModelDefaultBounds(loadTime: string, xs: seq<Value>, x: real)
    ensures ModelValidate(ModelDefaultState(loadTime), "relationships", Arr(xs)).Accept? <==> |xs| <= 10
    ensures ModelValidate(ModelDefaultState(loadTime), "nodeCount", Num(x)).Accept? <==> 0.0 <= x <= 100.0
  {
    var rules := Field(ModelDefaultState(loadTime), "rules");
    assert GetProp(rules, "maxRelationshipsPerNode") == Num(10.0);
    assert GetProp(rules, "maxNodesPerDocument") == Num(100.0);
    assert GetProp(Arr(xs), "length") == Num(|xs| as real);
  }

  /** The defaults hold no `relationshipCount`, so a file still in its default shape rejects
      that key as invalid. */
  lemma RelationshipCountIsInvalid(loadTime: string, value: Value, now: string)
    ensures Updated(ModelDefaultState(loadTime), "relationshipCount", value, now) ==
            Threw(InvalidKey("relationshipCount"))
  {
  }

  class StateFile {
    /** The defaults, fixed when the module is loaded. */
    const defaultState: Object
    /** What the state file holds; `None` while it does not exist. */
    var stored: Option<Object>

    constructor(loadTime: string, file: Option<Object>)
      ensures defaultState == ModelDefaultState(loadTime)
      ensures stored == file
    {
      defaultState := ModelDefaultState(loadTime);
      stored := file;
    }

    /** `readStateFile()` */
    function Read(): (s: Object)
      reads this
      ensures stored.None? ==> s == defaultState
      ensures stored.Some? ==> s == stored.value
    {
      stored.GetOr(defaultState)
    }

    /** `getState()` */
    function GetState(): (s: Object)
      reads this
      ensures s == Read()
    {
      Read()
    }

    /** `validateStateUpdate(key, value)` against the rules of the state the file holds. */
    function ValidateStateUpdate(key: string, value: Value): (c: Check)
      reads this
      ensures c == ModelValidate(Read(), key, value)
    {
      ModelValidate(Read(), key, value)
    }

    /** `updateState(key, value)`: the updated state is written only when the call returns. */
    method UpdateState(key: string, value: Value, now: string) returns (r: Completion<Object>)
      modifies this
      ensures r == Updated(old(Read()), key, value, now)
      ensures stored == (if r.Normal? then Some(r.value) else old(stored))
    {
      r := Updated(Read(), key, value, now);
      if r.Normal? {
        stored := Some(r.value);
      }
    }

    /** `resetState()`: writes the defaults, which every later read returns. */
    method ResetState()
      modifies this
      ensures stored == Some(defaultState) && Read() == defaultState
    {
      stored := Some(defaultState);
    }
  }
}
