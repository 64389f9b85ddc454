/** The canvas component's reducer of app/components/canvas/reducer.ts.

    The state records the loaded WebAssembly module, an error flag and the
    parametric surface object. As in the page-level reducer, every case
    returns a copy with one field replaced. The module and the surface are
    type parameters; the payload of `Err` is only logged. */
module CanvasReducer {
  import opened Wrappers

  datatype State<W, S> = State(wasm: Option<W>, error: bool, parametricSurface: Option<S>)

  /** One dispatched action; `Unrecognised` is any `kind` outside `ActionType`. */
  datatype Action<W, S> =
    | SetWasm(wasmModule: Option<W>)     // "set-wasm"
    | SetSurface(surface: Option<S>)    // "set-surface"
    | Err(message: string)              // "err"
    | Unrecognised(kind: string)

  /** `InitialState`: no module, no error, no surface. */
  function InitialState<W, S>(): (s: State<W, S>)
    ensures s.wasm.None? && !s.error && s.parametricSurface.None?
  {
    State(None, false, None)
  }

  /** `reducer(state, action)`. */
  function Reduce<W, S>(state: State<W, S>, action: Action<W, S>): (r: State<W, S>)
    ensures r.error <==> state.error || action.Err?
    ensures r.wasm == if action.SetWasm? then action.wasmModule else state.wasm
    ensures r.parametricSurface == if action.SetSurface? then action.surface else state.parametricSurface
    ensures action.Unrecognised? ==> r == state
  {
    match action
    case SetWasm(m) => state.(wasm := m)
    case Err(_) => state.(error := true)
    case SetSurface(surface) => state.(parametricSurface := surface)
    case Unrecognised(_) => state
  }

  /** The state after dispatching `actions` in order, as `useReducer` does. */
  function Run<W, S>(state: State<W, S>, actions: seq<Action<W, S>>): (r: State<W, S>)
    ensures state.error ==> r.error
    decreases |actions|
  {
    if actions == [] then state else Run(Reduce(state, actions[0]), actions[1..])
  }

  /** Dispatching one more action reduces the state reached so far. */
  lemma {:induction false} RunSnoc<W, S>(state: State<W, S>, actions: seq<Action<W, S>>, last: Action<W, S>)
    ensures Run(state, actions + [last]) == Reduce(Run(state, actions), last)
    decreases |actions|
  {
    if actions != [] {
      assert (actions + [last])[1..] == actions[1..] + [last];
      RunSnoc(Reduce(state, actions[0]), actions[1..], last);
    }
  }

  /** After any sequence of actions the error flag is set exactly when it was
      set before or one of the actions is an `Err`: no action clears it. */
  lemma {:induction false} RunError<W, S>(state: State<W, S>, actions: seq<Action<W, S>>)
    ensures Run(state, actions).error <==>
      state.error || exists i :: 0 <= i < |actions| && actions[i].Err?
    decreases |actions|
  {
    if actions != [] {
      RunError(Reduce(state, actions[0]), actions[1..]);
      assert forall i :: 1 <= i < |actions| ==> actions[i] == actions[1..][i - 1];
    }
  }

  /** The module after a sequence of actions: the payload of the last
      `SetWasm`, or the starting one if there is none. */
  ghost function LatestWasm<W, S>(state: State<W, S>, actions: seq<Action<W, S>>): Option<W>
    decreases |actions|
  {
    if actions == [] then state.wasm
    else if actions[|actions| - 1].SetWasm? then actions[|actions| - 1].wasmModule
    else LatestWasm(state, actions[..|actions| - 1])
  }

  /** The last `SetWasm` wins. */
  lemma {:induction false} RunWasm<W, S>(state: State<W, S>, actions: seq<Action<W, S>>)
    ensures Run(state, actions).wasm == LatestWasm(state, actions)
    decreases |actions|
  {
    if actions != [] {
      var init, last := actions[..|actions| - 1], actions[|actions| - 1];
      assert actions == init + [last];
      RunSnoc(state, init, last);
      RunWasm(state, init);
    }
  }

  /** Dispatching the same action twice is the same as dispatching it once. */
  lemma Idempotent<W, S>(state: State<W, S>, action: Action<W, S>)
    ensures Reduce(Reduce(state, action), action) == Reduce(state, action)
  {}
}
