/** The page-level reducer of app/index/reducer.ts.

    The state records the running animation frame id, the parametric
    surface object and an error flag. `reducer` never mutates its argument:
    each case returns a copy with one field replaced. The payload of `Err`
    is only logged; the surface object is a type parameter. */
module IndexReducer {
  import opened Wrappers

  datatype State<S> = State(animationID: Option<int>, parametricSurface: Option<S>, error: bool)

  /** One dispatched action; `Unrecognised` is any `kind` outside `ActionType`. */
  datatype Action<S> =
    | SetAnimationID(id: Option<int>)   // "set-animation-id"
    | SetSurface(surface: Option<S>)    // "set-surface"
    | Err(message: string)              // "err"
    | Unrecognised(kind: string)

  /** `InitialState`: no animation, no surface, no error. */
  function InitialState<S>(): (s: State<S>)
    ensures s.animationID.None? && s.parametricSurface.None? && !s.error
  {
    State(None, None, false)
  }

  /** `reducer(state, action)`. */
  function Reduce<S>(state: State<S>, action: Action<S>): (r: State<S>)
    ensures r.error <==> state.error || action.Err?
    ensures r.animationID == if action.SetAnimationID? then action.id else state.animationID
    ensures r.parametricSurface == if action.SetSurface? then action.surface else state.parametricSurface
    ensures action.Unrecognised? ==> r == state
  {
    match action
    case Err(_) => state.(error := true)
    case SetAnimationID(id) => state.(animationID := id)
    case SetSurface(surface) => state.(parametricSurface := surface)
    case Unrecognised(_) => state
  }

  /** The state after dispatching `actions` in order, as `useReducer` does. */
  function Run<S>(state: State<S>, actions: seq<Action<S>>): (r: State<S>)
    ensures state.error ==> r.error
    decreases |actions|
  {
    if actions == [] then state else Run(Reduce(state, actions[0]), actions[1..])
  }

  /** Dispatching one more action reduces the state reached so far. */
  lemma {:induction false} RunSnoc<S>(state: State<S>, actions: seq<Action<S>>, last: Action<S>)
    ensures Run(state, actions + [last]) == Reduce(Run(state, actions), last)
    decreases |actions|
  {
    if actions != [] {
      assert (actions + [last])[1..] == actions[1..] + [last];
      RunSnoc(Reduce(state, actions[0]), actions[1..], last);
    }
  }

  /** After any sequence of actions the error flag is set exactly when it was
      set before or one of the actions is an `Err`: no action clears it. */
  lemma {:induction false} RunError<S>(state: State<S>, actions: seq<Action<S>>)
    ensures Run(state, actions).error <==>
      state.error || exists i :: 0 <= i < |actions| && actions[i].Err?
    decreases |actions|
  {
    if actions != [] {
      RunError(Reduce(state, actions[0]), actions[1..]);
      assert forall i :: 1 <= i < |actions| ==> actions[i] == actions[1..][i - 1];
    }
  }

  /** The animation id after a sequence of actions: the payload of the last
      `SetAnimationID`, or the starting one if there is none. */
  ghost function LatestAnimationID<S>(state: State<S>, actions: seq<Action<S>>): Option<int>
    decreases |actions|
  {
    if actions == [] then state.animationID
    else if actions[|actions| - 1].SetAnimationID? then actions[|actions| - 1].id
    else LatestAnimationID(state, actions[..|actions| - 1])
  }

  /** The last `SetAnimationID` wins. */
  lemma {:induction false} RunAnimationID<S>(state: State<S>, actions: seq<Action<S>>)
    ensures Run(state, actions).animationID == LatestAnimationID(state, actions)
    decreases |actions|
  {
    if actions != [] {
      var init, last := actions[..|actions| - 1], actions[|actions| - 1];
      assert actions == init + [last];
      RunSnoc(state, init, last);
      RunAnimationID(state, init);
    }
  }

  /** Dispatching the same action twice is the same as dispatching it once. */
  lemma Idempotent<S>(state: State<S>, action: Action<S>)
    ensures Reduce(Reduce(state, action), action) == Reduce(state, action)
  {}
}
