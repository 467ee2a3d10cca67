/**
 * The simpler `useReducer` counter of `Counter.tsx`: actions are tagged by a
 * string, every action carries a `{count}` payload that no case reads, and an
 * unrecognised tag leaves the state as it was.
 */
module Counter {
  import CounterComponent
  import Wrappers

  datatype CounterState = CounterState(count: int)

  /** `{ type, payload }`; the union type admits three tags, the reducer is ready for any string. */
  datatype CounterAction = CounterAction(kind: string, payload: CounterState)

  /** `useReducer(reducer, {count: 0})` */
  const InitialState := CounterState(0)

  /** The three tags the reducer recognises. */
  predicate Known(kind: string)
  {
    kind == "increment" || kind == "decrement" || kind == "reset"
  }

  /** `reducer`: the next state for one dispatched action. */
  function Reducer(state: CounterState, action: CounterAction): (r: CounterState)
    ensures action.kind == "increment" ==> r.count == state.count + 1
    ensures action.kind == "decrement" ==> r.count == state.count - 1
    ensures action.kind == "reset" ==> r == InitialState
    ensures !Known(action.kind) ==> r == state
  {
    if action.kind == "increment" then CounterState(state.count + 1)
    else if action.kind == "decrement" then CounterState(state.count - 1)
    else if action.kind == "reset" then CounterState(0)
    else state
  }

  /** No case reads the payload: the next state depends on the tag and the state alone. */
  lemma PayloadIgnored(state: CounterState, kind: string, p1: CounterState, p2: CounterState)
    ensures Reducer(state, CounterAction(kind, p1)) == Reducer(state, CounterAction(kind, p2))
  {
  }

  /** The state changes under every recognised tag that is not a reset of a zero count, and under no other tag. */
  lemma ChangesExactlyOnKnown(state: CounterState, action: CounterAction)
    ensures Reducer(state, action) != state
        <==> action.kind == "increment" || action.kind == "decrement" || (action.kind == "reset" && state.count != 0)
  {
  }

  lemma IncrementDecrementInverse(state: CounterState, p: CounterState, p': CounterState)
    ensures Reducer(Reducer(state, CounterAction("increment", p)), CounterAction("decrement", p')) == state
    ensures Reducer(Reducer(state, CounterAction("decrement", p)), CounterAction("increment", p')) == state
  {
  }

  /**
   * The two counters agree: on its three tags this reducer does what the
   * reducer of `CounterComponent.tsx` does for `Increment`, `Decrement` and a
   * `Reset` without payload.
   */
  lemma AgreesWithCounterComponent(state: CounterState, p: CounterState)
    ensures Reducer(state, CounterAction("increment", p)).count
         == CounterComponent.CounterReducer(CounterComponent.CounterState(state.count), CounterComponent.Increment).count
    ensures Reducer(state, CounterAction("decrement", p)).count
         == CounterComponent.CounterReducer(CounterComponent.CounterState(state.count), CounterComponent.Decrement).count
    ensures Reducer(state, CounterAction("reset", p)).count
         == CounterComponent.CounterReducer(CounterComponent.CounterState(state.count), CounterComponent.Reset(Wrappers.None)).count
    ensures InitialState.count == CounterComponent.InitialState.count
  {
  }
}
