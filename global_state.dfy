/** The process-wide state singleton: counters, settings and the rules that bound the
    counters, loaded once from the state file and updated in memory. */
module GlobalState {
  import opened JsValues

  /** `defaultState`, whose `lastModified` is the time the module was loaded. */
  function DefaultState(loadTime: string): (s: Object)
    ensures s.Keys == {"lastModified", "nodeCount", "documentCount", "relationshipCount", "settings", "rules"}
  {
    map[
      "lastModified" := Str(loadTime),
      "nodeCount" := Num(0.0),
      "documentCount" := Num(0.0),
      "relationshipCount" := Num(0.0),
      "settings" := Obj(map["encryption" := Bool(true), "autoSync" := Bool(true), "logging" := Bool(true)]),
      "rules" := Obj(map["maxNodesPerDocument" := Num(100.0), "maxRelationshipsPerNode" := Num(10.0)])
    ]
  }

  /** The outcome of a validation: it returns, or throws. */
  datatype Check = Accept | Reject(error: Error)

  /** `if (value < 0 || value > rules[bound]) throw new Error(`... ${rules[bound]}`)`: reading
      the bound, in the test or in the message, throws a `TypeError` when `rules` is `null`
      or `undefined`. A value that converts to NaN fails both comparisons and is let through. */
  function RangeCheck(value: Value, rules: Value, bound: string, key: string): (c: Check)
    ensures c.Reject? ==> c.error == TypeError || c.error == RuleViolation(key)
    ensures c == Reject(TypeError) <==> Nullish(rules)
    ensures GetProp(rules, bound).Num? && ToNumber(value).Some? ==>
      (c.Accept? <==> 0.0 <= ToNumber(value).value <= GetProp(rules, bound).n)
    ensures GetProp(rules, bound).Num? && ToNumber(value).None? ==> c.Accept?
  {
    if Lt(value, Num(0.0)) then (if Nullish(rules) then Reject(TypeError) else Reject(RuleViolation(key)))
    else if Nullish(rules) then Reject(TypeError)
    else if Gt(value, GetProp(rules, bound)) then Reject(RuleViolation(key))
    else Accept
  }

  /** `validateStateUpdate(key, value)` against the rules of `state`. */
  function Validate(state: Object, key: string, value: Value): (c: Check)
    ensures key != "nodeCount" && key != "relationshipCount" ==> c == Accept
    ensures c.Reject? ==> c.error == TypeError || c.error == RuleViolation(key)
  {
    if key == "nodeCount" then RangeCheck(value, Field(state, "rules"), "maxNodesPerDocument", key)
    else if key == "relationshipCount" then RangeCheck(value, Field(state, "rules"), "maxRelationshipsPerNode", key)
    else Accept
  }

  /** Under the default rules a numeric `nodeCount` is accepted exactly in 0..100 and a
      numeric `relationshipCount` exactly in 0..10. */
  lemma DefaultBounds(loadTime: string, x: real)
    ensures Validate(DefaultState(loadTime), "nodeCount", Num(x)).Accept? <==> 0.0 <= x <= 100.0
    ensures Validate(DefaultState(loadTime), "relationshipCount", Num(x)).Accept? <==> 0.0 <= x <= 10.0
  {
    var rules := Field(DefaultState(loadTime), "rules");
    assert GetProp(rules, "maxNodesPerDocument") == Num(100.0);
    assert GetProp(rules, "maxRelationshipsPerNode") == Num(10.0);
  }

  /** `state[key] = value; state.lastModified = now`, after the own-property check that
      throws `Invalid key`. */
  function Updated(state: Object, key: string, value: Value, now: string): (r: Completion<Object>)
    ensures !r.NullReturn?
    ensures r.Threw? <==> key !in state
    ensures r.Threw? ==> r.error == InvalidKey(key)
    ensures r.Normal? ==> r.value.Keys == state.Keys + {"lastModified"}
    ensures r.Normal? ==> Field(r.value, "lastModified") == Str(now)
    ensures r.Normal? && key != "lastModified" ==> Field(r.value, key) == value
    ensures r.Normal? ==> forall k :: k != key && k != "lastModified" ==> Field(r.value, k) == Field(state, k)
  {
    if key !in state then Threw(InvalidKey(key))
    else Normal(state[key := value]["lastModified" := Str(now)])
  }

  /** Updates never add keys to a state that has `lastModified`, so a state loaded from the
      defaults keeps the default key set for good; and repeating an update changes nothing. */
  lemma UpdatedKeepsShape(state: Object, key: string, value: Value, now: string)
    requires "lastModified" in state && key in state
    ensures Updated(state, key, value, now).value.Keys == state.Keys
    ensures Updated(Updated(state, key, value, now).value, key, value, now) == Updated(state, key, value, now)
  {
    var once := state[key := value]["lastModified" := Str(now)];
    var twice := once[key := value]["lastModified" := Str(now)];
    assert twice.Keys == once.Keys;
    assert forall k :: k in once ==> twice[k] == once[k];
    assert twice == once;
  }

  class GlobalStore {
    /** The defaults, fixed when the module is loaded. */
    const defaultState: Object
    /** The in-memory state. */
    var state: Object

    /** `let state = readStateFile()`: the file's contents, or the defaults when absent. */
    constructor(loadTime: string, file: Option<Object>)
      ensures defaultState == DefaultState(loadTime)
      ensures state == file.GetOr(DefaultState(loadTime))
    {
      defaultState := DefaultState(loadTime);
      state := file.GetOr(DefaultState(loadTime));
    }

    /** `getState()`: a copy of the current state. */
    function GetState(): (r: Object)
      reads this
      ensures r == state
    {
      state
    }

    /** `validateStateUpdate(key, value)` */
    function ValidateStateUpdate(key: string, value: Value): (c: Check)
      reads this
      ensures c == Validate(state, key, value)
    {
      Validate(state, key, value)
    }

    /** `updateState(key, value)`: the state is replaced only when the call returns. */
    method UpdateState(key: string, value: Value, now: string) returns (r: Completion<Object>)
      modifies this
      ensures r == Updated(old(state), key, value, now)
      ensures state == (if r.Normal? then r.value else old(state))
    {
      r := Updated(state, key, value, now);
      if r.Normal? {
        state := r.value;
      }
    }

    /** `resetState()` */
    method ResetState()
      modifies this
      ensures state == defaultState
    {
      state := defaultState;
    }
  }
}
