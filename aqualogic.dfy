/**
 * The device library the bridge drives (the `aqualogic` package), reduced to
 * what the bridge reads from it and asks of it. Its serial protocol is not
 * part of this model.
 */
module Aqualogic {
  import opened Wrappers
  import opened Json

  /** The panel states the catalog refers to (the library's `States`). */
  datatype State =
    | CheckSystem | Lights | Filter | Aux(n: nat) | Spillover | Valve3 | Valve4
    | Heater1 | HeaterAutoMode | SuperChlorinate | Pool | Spa

  /** The panel attributes the sensors read with `getattr`. */
  datatype Attribute =
    | AirTemp | PoolTemp | SpaTemp | PoolChlorinator | SpaChlorinator
    | SaltLevel | PumpSpeed | PumpPower

  /**
   * A decoded panel update: `get_state(s)` is `s in on`, `reading(a)` is the
   * value `json.dumps` writes for attribute `a`, and `checkSystemMsg` is the
   * panel's current "Check System" text, if any.
   */
  datatype Snapshot = Snapshot(on: set<State>, reading: Attribute -> Json, checkSystemMsg: Option<string>)

  /**
   * The panel object the router calls `set_state` on. How the library turns
   * a request into key presses is outside the model; the panel keeps the
   * requests it has received, in order.
   */
  class Panel {
    var requests: seq<(State, bool)>

    constructor ()
      ensures requests == []
    {
      requests := [];
    }

    /** `set_state(state, value)`. */
    method SetState(state: State, value: bool)
      modifies this
      ensures requests == old(requests) + [(state, value)]
    {
      requests := requests + [(state, value)];
    }
  }
}
