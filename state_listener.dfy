/** The listener registry: functions subscribed to state changes, called in subscription
    order on every notification, each call shielded from the others' exceptions. */
module StateListener {
  import opened JsValues

  /** One invocation `listener(key, value)`. */
  datatype Call = Call(listener: nat, key: string, value: Value)

  /** The calls one notification makes: every registered listener, in order. */
  function Invocations(ls: seq<nat>, key: string, value: Value): (cs: seq<Call>)
    ensures |cs| == |ls|
    ensures forall i :: 0 <= i < |ls| ==> cs[i] == Call(ls[i], key, value)
  {
    if ls == [] then [] else Invocations(ls[..|ls| - 1], key, value) + [Call(ls[|ls| - 1], key, value)]
  }

  /** `listeners.indexOf(f)`: the first position of `f`, or -1. */
  function IndexOf(ls: seq<nat>, f: nat): (i: int)
    ensures -1 <= i < |ls|
    ensures i == -1 <==> f !in ls
    ensures 0 <= i ==> ls[i] == f && f !in ls[..i]
  {
    if ls == [] then -1
    else if ls[0] == f then 0
    else
      var k := IndexOf(ls[1..], f);
      assert ls == [ls[0]] + ls[1..];
      if k == -1 then -1 else
        assert ls[..k + 1] == [ls[0]] + ls[1..][..k];
        k + 1
  }

  /** `listeners.splice(listeners.indexOf(f), 1)` when `f` is registered. */
  function RemoveFirst(ls: seq<nat>, f: nat): (r: seq<nat>)
    ensures f !in ls ==> r == ls
    ensures f in ls ==> |r| == |ls| - 1 && multiset(r) == multiset(ls) - multiset{f}
    ensures f in ls ==> exists i :: 0 <= i < |ls| && ls[i] == f && f !in ls[..i] && r == ls[..i] + ls[i + 1..]
  {
    var i := IndexOf(ls, f);
    if i == -1 then ls
    else
      assert ls == ls[..i] + [ls[i]] + ls[i + 1..];
      ls[..i] + ls[i + 1..]
  }

  /** Removing a listener undoes adding it: exactly when it was not registered before, the list
      is restored; otherwise one of its registrations goes and the rest keep their multiplicity. */
  lemma RemoveUndoesAdd(ls: seq<nat>, f: nat)
    ensures f !in ls ==> RemoveFirst(ls + [f], f) == ls
    ensures multiset(RemoveFirst(ls + [f], f)) == multiset(ls)
  {
    assert f in ls + [f];
    if f !in ls {
      assert IndexOf(ls + [f], f) == |ls| by {
        assert (ls + [f])[..|ls|] == ls;
      }
      assert (ls + [f])[..|ls|] == ls;
    }
  }

  class ListenerRegistry {
    /** The subscribed functions, by reference. */
    var listeners: seq<nat>
    /** Every listener invocation so far, oldest first. */
    var calls: seq<Call>

    constructor()
      ensures listeners == [] && calls == []
    {
      listeners := [];
      calls := [];
    }

    /** `addListener(listener)`: anything but a function is refused. */
    method AddListener(listener: Value)
      modifies this
      ensures listeners == if listener.Func? then old(listeners) + [listener.ref] else old(listeners)
      ensures calls == old(calls)
    {
      if listener.Func? {
        listeners := listeners + [listener.ref];
      }
    }

    /** `removeListener(listener)`: drops the first registration of that function. */
    method RemoveListener(listener: Value)
      modifies this
      ensures listeners == if listener.Func? then RemoveFirst(old(listeners), listener.ref) else old(listeners)
      ensures calls == old(calls)
    {
      if listener.Func? {
        var i := IndexOf(listeners, listener.ref);
        if i != -1 {
          listeners := listeners[..i] + listeners[i + 1..];
        }
      }
    }

    /** Calls every listener with `(key, value)`. */
    method Broadcast(key: string, value: Value)
      modifies this
      ensures listeners == old(listeners)
      ensures calls == old(calls) + Invocations(listeners, key, value)
    {
      var i := 0;
      while i < |listeners|
        invariant 0 <= i <= |listeners|
        invariant listeners == old(listeners)
        invariant calls == old(calls) + Invocations(listeners[..i], key, value)
      {
        assert listeners[..i + 1][..i] == listeners[..i];
        calls := calls + [Call(listeners[i], key, value)];
        i := i + 1;
      }
      assert listeners[..i] == listeners;
    }

    /** `notifyListeners(key, value)` */
    method NotifyListeners(key: string, value: Value)
      modifies this
      ensures listeners == old(listeners)
      ensures calls == old(calls) + Invocations(listeners, key, value)
    {
      Broadcast(key, value);
    }

    /** `triggerEvent(event, data)` */
    method TriggerEvent(event: string, data: Value)
      modifies this
      ensures listeners == old(listeners)
      ensures calls == old(calls) + Invocations(listeners, event, data)
    {
      Broadcast(event, data);
    }
  }
}
