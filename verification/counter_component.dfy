/**
 * The `useReducer` counter of `CounterComponent.tsx`: a closed union of three
 * actions on an integer count, where `reset` may carry the value to reset to.
 */
module CounterComponent {
  import opened Wrappers

  /** `CounterActionType` together with the payload `reset` may carry. */
  datatype CounterAction = Increment | Decrement | Reset(payload: Option<int>)

  datatype CounterState = CounterState(count: int)

  const InitialState := CounterState(0)

  /** `counterReducer`: the next state for one dispatched action. */
  function CounterReducer(state: CounterState, action: CounterAction): (r: CounterState)
    ensures action.Increment? ==> r.count == state.count + 1
    ensures action.Decrement? ==> r.count == state.count - 1
    ensures action.Reset? && action.payload.Some? ==> r.count == action.payload.value
    ensures action.Reset? && action.payload.None? ==> r == InitialState
  {
    match action
    case Increment => CounterState(state.count + 1)
    case Decrement => CounterState(state.count - 1)
    case Reset(payload) => CounterState(payload.GetOr(InitialState.count))
  }

  /** The state after dispatching `actions` in order, as `useReducer` folds them. */
  function Run(state: CounterState, actions: seq<CounterAction>): CounterState
    decreases |actions|
  {
    if actions == [] then state
    else Run(CounterReducer(state, actions[0]), actions[1..])
  }

  /** Decrement undoes increment, and increment undoes decrement. */
  lemma IncrementDecrementInverse(state: CounterState)
    ensures CounterReducer(CounterReducer(state, Increment), Decrement) == state
    ensures CounterReducer(CounterReducer(state, Decrement), Increment) == state
  {
  }

  /** Reset forgets the previous state entirely: two states reset alike end alike. */
  lemma ResetForgets(s1: CounterState, s2: CounterState, payload: Option<int>)
    ensures CounterReducer(s1, Reset(payload)) == CounterReducer(s2, Reset(payload))
    ensures payload == None ==> CounterReducer(s1, Reset(payload)) == InitialState
    ensures payload.Some? ==> CounterReducer(s1, Reset(payload)).count == payload.value
  {
  }

  /** `??` falls back only when the payload is absent: an explicit 0 is kept, not replaced. */
  lemma ResetZeroPayload(state: CounterState)
    ensures CounterReducer(state, Reset(Some(0))) == CounterReducer(state, Reset(None))
    ensures CounterReducer(state, Reset(Some(0))).count == 0
  {
  }

  /** Resetting twice with the same payload is the same as resetting once. */
  lemma ResetIdempotent(state: CounterState, payload: Option<int>)
    ensures CounterReducer(CounterReducer(state, Reset(payload)), Reset(payload))
         == CounterReducer(state, Reset(payload))
  {
  }

  /** How many actions of a sequence are increments, and how many are decrements. */
  function Increments(actions: seq<CounterAction>): nat
  {
    if actions == [] then 0 else (if actions[0].Increment? then 1 else 0) + Increments(actions[1..])
  }

  function Decrements(actions: seq<CounterAction>): nat
  {
    if actions == [] then 0 else (if actions[0].Decrement? then 1 else 0) + Decrements(actions[1..])
  }

  predicate NoReset(actions: seq<CounterAction>)
  {
    forall k :: 0 <= k < |actions| ==> !actions[k].Reset?
  }

  /** Without a reset, the count moves by the number of increments minus the number of decrements. */
  lemma {:induction false} RunCounts(state: CounterState, actions: seq<CounterAction>)
    requires NoReset(actions)
    ensures Run(state, actions).count == state.count + Increments(actions) - Decrements(actions)
    decreases |actions|
  {
    if actions != [] {
      assert NoReset(actions[1..]) by {
        forall k | 0 <= k < |actions[1..]|
          ensures !actions[1..][k].Reset?
        {
          assert actions[1..][k] == actions[k + 1];
        }
      }
      RunCounts(CounterReducer(state, actions[0]), actions[1..]);
    }
  }

  /** Whatever came before, the count after a reset depends only on that reset and what follows it. */
  lemma {:induction false} RunAfterReset(s1: CounterState, s2: CounterState, before1: seq<CounterAction>,
                                         before2: seq<CounterAction>, payload: Option<int>, after: seq<CounterAction>)
    ensures Run(s1, before1 + [Reset(payload)] + after) == Run(s2, before2 + [Reset(payload)] + after)
  {
    RunAppend(s1, before1, [Reset(payload)] + after);
    RunAppend(s2, before2, [Reset(payload)] + after);
    assert before1 + [Reset(payload)] + after == before1 + ([Reset(payload)] + after);
    assert before2 + [Reset(payload)] + after == before2 + ([Reset(payload)] + after);
    ResetForgets(Run(s1, before1), Run(s2, before2), payload);
    assert ([Reset(payload)] + after)[1..] == after;
  }

  /** Dispatching one sequence and then another is dispatching their concatenation. */
  lemma {:induction false} RunAppend(state: CounterState, xs: seq<CounterAction>, ys: seq<CounterAction>)
    ensures Run(state, xs + ys) == Run(Run(state, xs), ys)
    decreases |xs|
  {
    if xs != [] {
      assert (xs + ys)[0] == xs[0];
      assert (xs + ys)[1..] == xs[1..] + ys;
      RunAppend(CounterReducer(state, xs[0]), xs[1..], ys);
    } else {
      assert xs + ys == ys;
    }
  }
}
