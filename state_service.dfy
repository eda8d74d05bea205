/** The state service: validated updates of the state singleton, resets and
    synchronisations, each announced to the subscribed listeners. */
module StateService {
  import opened JsValues
  import opened GlobalState
  import opened StateListener

  class StateService {
    const gs: GlobalStore
    const bus: ListenerRegistry

    constructor(gs: GlobalStore, bus: ListenerRegistry)
      ensures this.gs == gs && this.bus == bus
    {
      this.gs := gs;
      this.bus := bus;
    }

    /** `getGlobalState()` */
    function GetGlobalState(): (r: Object)
      reads gs
      ensures r == gs.state
    {
      gs.GetState()
    }

    /** `updateState(key, value)`: a rejected value or an unknown key throws before anything
        changes and nobody is notified; otherwise the state is updated and every listener is
        told `(key, value)`. */
    method UpdateState(key: string, value: Value, now: string) returns (r: Completion<Object>)
      modifies gs, bus
      ensures Validate(old(gs.state), key, value).Reject? ==>
        r == Threw(Validate(old(gs.state), key, value).error) && gs.state == old(gs.state) && bus.calls == old(bus.calls)
      ensures Validate(old(gs.state), key, value).Accept? ==> r == Updated(old(gs.state), key, value, now)
      ensures r.Normal? ==> gs.state == r.value && bus.calls == old(bus.calls) + Invocations(bus.listeners, key, value)
      ensures r.Threw? ==> gs.state == old(gs.state) && bus.calls == old(bus.calls)
      ensures bus.listeners == old(bus.listeners)
      ensures r.Normal? && key == "nodeCount" && value.Num? ==>
        var max := GetProp(Field(old(gs.state), "rules"), "maxNodesPerDocument");
        max.Num? ==> 0.0 <= value.n <= max.n
    {
      var check := gs.ValidateStateUpdate(key, value);
      if check.Reject? {
        return Threw(check.error);
      }
      r := gs.UpdateState(key, value, now);
      if r.Normal? {
        bus.NotifyListeners(key, value);
      }
    }

    /** `resetState()`: restores the defaults and tells every listener `('reset', defaults)`. */
    method ResetState()
      modifies gs, bus
      ensures gs.state == gs.defaultState
      ensures bus.listeners == old(bus.listeners)
      ensures bus.calls == old(bus.calls) + Invocations(bus.listeners, "reset", Obj(gs.defaultState))
    {
      gs.ResetState();
      bus.NotifyListeners("reset", Obj(gs.GetState()));
    }

    /** `synchronizeState()`: tells every listener `('synchronize', state)`, state unchanged. */
    method SynchronizeState()
      modifies bus
      ensures bus.listeners == old(bus.listeners)
      ensures bus.calls == old(bus.calls) + Invocations(bus.listeners, "synchronize", Obj(gs.state))
    {
      bus.NotifyListeners("synchronize", Obj(gs.GetState()));
    }

    /** `subscribeToStateChanges(listener)` */
    method SubscribeToStateChanges(listener: Value)
      modifies bus
      ensures bus.listeners == if listener.Func? then old(bus.listeners) + [listener.ref] else old(bus.listeners)
      ensures bus.calls == old(bus.calls)
    {
      bus.AddListener(listener);
    }
  }
}
