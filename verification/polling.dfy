/**
 * The `usePolling` hook as a state machine.  The interval timer, the
 * service's promise and React's setters are abstracted: installing a timer
 * takes a handle supplied by the caller, a fetch is split into the moment it
 * begins and the moment its outcome arrives, and the calls the hook makes on
 * the outside world are returned as a list of effects.
 *
 * `T` is the type of the data the service returns and `E` that of its errors.
 */
module Polling {
  import opened Wrappers

  /** `PollingOptions`; each option may be left `undefined` (`None`). */
  datatype PollingOptions = PollingOptions(interval: Option<int>, immediate: Option<bool>, hasOnError: bool)

  /** `options = {}` */
  const NoOptions := PollingOptions(None, None, false)

  /** `interval = 5000` */
  function Interval(o: PollingOptions): (ms: int)
    ensures o.interval.None? ==> ms == 5000
    ensures o.interval.Some? ==> ms == o.interval.value
  {
    o.interval.GetOr(5000)
  }

  /** `immediate = true` */
  function Immediate(o: PollingOptions): (b: bool)
    ensures o.immediate.None? ==> b
    ensures o.immediate.Some? ==> b == o.immediate.value
  {
    o.immediate.GetOr(true)
  }

  /** The hook's state and its two refs, `timerRef` and `mountedRef`. */
  datatype PollState<T, E> = PollState(
    data: Option<T>,
    loading: bool,
    error: Option<E>,
    isPolling: bool,
    timer: Option<nat>,
    mounted: bool)

  /** The first render: nothing fetched, nothing running, not yet mounted. */
  function Initial<T, E>(): PollState<T, E>
  {
    PollState(None, false, None, false, None, false)
  }

  /** Calls on the outside world: the service, `setInterval`, `clearInterval` and `onError`. */
  datatype Effect<E> = CallService | SetInterval(ms: int) | ClearInterval(handle: nat) | OnError(err: E)

  datatype Step<T, E> = Step(state: PollState<T, E>, effects: seq<Effect<E>>)

  /** `isPolling` is shown exactly while a timer is installed. */
  predicate Consistent<T, E>(s: PollState<T, E>)
  {
    s.isPolling <==> s.timer.Some?
  }

  /** The synchronous start of `fetchData`: `setLoading(true)` and the call of the service. */
  function FetchBegin<T, E>(s: PollState<T, E>): (r: Step<T, E>)
    ensures r.state == s.(loading := true)
    ensures r.effects == [CallService]
  {
    Step(s.(loading := true), [CallService])
  }

  /** The service resolved with `result`: the `try` branch, then `finally`. */
  function FetchSuccess<T, E>(s: PollState<T, E>, result: T): (r: Step<T, E>)
    ensures s.mounted ==> r.state == s.(data := Some(result), error := None, loading := false)
    ensures !s.mounted ==> r.state == s
    ensures r.effects == []
  {
    if s.mounted then Step(s.(data := Some(result), error := None, loading := false), [])
    else Step(s, [])
  }

  /** The service rejected with `err`: the `catch` branch, `onError?.(err)`, then `finally`. */
  function FetchFailure<T, E>(s: PollState<T, E>, o: PollingOptions, err: E): (r: Step<T, E>)
    ensures s.mounted ==> r.state == s.(error := Some(err), loading := false)
    ensures s.mounted ==> r.effects == (if o.hasOnError then [OnError(err)] else [])
    ensures !s.mounted ==> r == Step(s, [])
  {
    if s.mounted then Step(s.(error := Some(err), loading := false), if o.hasOnError then [OnError(err)] else [])
    else Step(s, [])
  }

  /**
   * `start`: nothing when a timer is installed; otherwise an immediate fetch
   * when `immediate`, `setIsPolling(true)` and a new interval timer whose
   * handle is `handle`.
   */
  function Start<T, E>(s: PollState<T, E>, o: PollingOptions, handle: nat): (r: Step<T, E>)
    ensures s.timer.Some? ==> r == Step(s, [])
    ensures s.timer.None? ==> r.state.isPolling && r.state.timer == Some(handle)
    ensures s.timer.None? ==> (CallService in r.effects <==> Immediate(o))
    ensures s.timer.None? ==> r.effects != [] && r.effects[|r.effects| - 1] == SetInterval(Interval(o))
    ensures s.timer.None? ==> r.state.data == s.data && r.state.error == s.error && r.state.mounted == s.mounted
                              && r.state.loading == (s.loading || Immediate(o))
    ensures s.timer.None? ==> multiset(r.effects)[CallService] == (if Immediate(o) then 1 else 0)
    ensures s.timer.None? ==> r.effects == (if Immediate(o) then [CallService] else []) + [SetInterval(Interval(o))]
  {
    if s.timer.Some? then Step(s, [])
    else
      var fetched := if Immediate(o) then FetchBegin(s) else Step(s, []);
      Step(fetched.state.(isPolling := true, timer := Some(handle)), fetched.effects + [SetInterval(Interval(o))])
  }

  /** `stop`: when a timer is installed, clear it and `setIsPolling(false)`; otherwise nothing. */
  function Stop<T, E>(s: PollState<T, E>): (r: Step<T, E>)
    ensures s.timer.None? ==> r == Step(s, [])
    ensures s.timer.Some? ==> r == Step(s.(timer := None, isPolling := false), [ClearInterval(s.timer.value)])
  {
    match s.timer
    case None => Step(s, [])
    case Some(h) => Step(s.(timer := None, isPolling := false), [ClearInterval(h)])
  }

  /** `refetch`, and every firing of the interval timer: one more fetch. */
  function Refetch<T, E>(s: PollState<T, E>): (r: Step<T, E>)
    ensures r.state == s.(loading := true) && r.effects == [CallService]
  {
    FetchBegin(s)
  }

  /** The mount effect: `mountedRef.current = true`, then `start()`. */
  function Mount<T, E>(s: PollState<T, E>, o: PollingOptions, handle: nat): (r: Step<T, E>)
    ensures r.state.mounted && r.state.timer.Some?
    ensures s.timer.None? ==> r.state.isPolling && r.state.timer == Some(handle)
    ensures s.timer.None? ==> (CallService in r.effects <==> Immediate(o))
    ensures s.timer.None? ==> r.state.data == s.data && r.state.error == s.error && r.state.mounted
                              && r.state.loading == (s.loading || Immediate(o))
    ensures s.timer.None? ==> multiset(r.effects)[CallService] == (if Immediate(o) then 1 else 0)
    ensures s.timer.None? ==> r.effects == (if Immediate(o) then [CallService] else []) + [SetInterval(Interval(o))]
    ensures s.timer.Some? ==> r == Step(s.(mounted := true), [])
  {
    Start(s.(mounted := true), o, handle)
  }

  /** The cleanup: `mountedRef.current = false`, then `stop()`. */
  function Unmount<T, E>(s: PollState<T, E>): (r: Step<T, E>)
    ensures !r.state.mounted && r.state.timer.None?
    ensures Consistent(s) ==> !r.state.isPolling
    ensures s.timer.Some? ==> r.effects == [ClearInterval(s.timer.value)]
    ensures s.timer.None? ==> r.effects == []
    ensures r.state.data == s.data && r.state.error == s.error && r.state.loading == s.loading
  {
    Stop(s.(mounted := false))
  }

  /** Every event the hook reacts to. */
  datatype Event<T, E> =
    | StartCall(handle: nat) | StopCall | RefetchCall
    | Succeeded(result: T) | Failed(err: E)
    | Mounted(handle: nat) | Unmounted

  function Handle<T, E>(s: PollState<T, E>, o: PollingOptions, e: Event<T, E>): Step<T, E>
  {
    match e
    case StartCall(h) => Start(s, o, h)
    case StopCall => Stop(s)
    case RefetchCall => Refetch(s)
    case Succeeded(result) => FetchSuccess(s, result)
    case Failed(err) => FetchFailure(s, o, err)
    case Mounted(h) => Mount(s, o, h)
    case Unmounted => Unmount(s)
  }

  /** The state after the events `es`, in order. */
  function RunEvents<T, E>(s: PollState<T, E>, o: PollingOptions, es: seq<Event<T, E>>): PollState<T, E>
    decreases |es|
  {
    if es == [] then s else RunEvents(Handle(s, o, es[0]).state, o, es[1..])
  }

  /** A second `start` does nothing: start; start = start. */
  lemma StartIdempotent<T, E>(s: PollState<T, E>, o: PollingOptions, h1: nat, h2: nat)
    ensures Start(Start(s, o, h1).state, o, h2) == Step(Start(s, o, h1).state, [])
  {
  }

  /** A second `stop` does nothing: stop; stop = stop. */
  lemma StopIdempotent<T, E>(s: PollState<T, E>)
    ensures Stop(Stop(s).state) == Step(Stop(s).state, [])
  {
  }

  /** From idle, `stop` after `start` clears exactly the timer that `start` installed. */
  lemma StartThenStop<T, E>(s: PollState<T, E>, o: PollingOptions, h: nat)
    requires s.timer.None? && !s.isPolling
    ensures Stop(Start(s, o, h).state).effects == [ClearInterval(h)]
    ensures var t := Stop(Start(s, o, h).state).state;
      !t.isPolling && t.timer.None? && t.data == s.data && t.error == s.error
  {
  }

  /** Every event keeps `isPolling` in step with the timer. */
  lemma HandleConsistent<T, E>(s: PollState<T, E>, o: PollingOptions, e: Event<T, E>)
    requires Consistent(s)
    ensures Consistent(Handle(s, o, e).state)
  {
  }

  /** The invariant holds in every reachable state. */
  lemma {:induction false} RunConsistent<T, E>(s: PollState<T, E>, o: PollingOptions, es: seq<Event<T, E>>)
    requires Consistent(s)
    ensures Consistent(RunEvents(s, o, es))
    decreases |es|
  {
    if es != [] {
      HandleConsistent(s, o, es[0]);
      RunConsistent(Handle(s, o, es[0]).state, o, es[1..]);
    }
  }

  /** Once unmounted, outcomes of fetches still in flight change nothing and call nothing. */
  lemma OutcomesIgnoredWhenUnmounted<T, E>(s: PollState<T, E>, o: PollingOptions, result: T, err: E)
    requires !s.mounted
    ensures FetchSuccess(s, result) == Step(s, [])
    ensures FetchFailure(s, o, err) == Step(s, [])
  {
  }

  /** After unmounting, no event except a new mount can change the data, the error or the loading flag it leaves. */
  lemma {:induction false} UnmountedOutcomesInert<T, E>(s: PollState<T, E>, o: PollingOptions, es: seq<Event<T, E>>)
    requires !s.mounted
    requires forall k :: 0 <= k < |es| ==> es[k].Succeeded? || es[k].Failed? || es[k].StopCall? || es[k].Unmounted?
    ensures RunEvents(s, o, es).data == s.data
    ensures RunEvents(s, o, es).error == s.error
    ensures RunEvents(s, o, es).loading == s.loading
    ensures !RunEvents(s, o, es).mounted
    decreases |es|
  {
    if es != [] {
      var t := Handle(s, o, es[0]).state;
      assert t.data == s.data && t.error == s.error && t.loading == s.loading && !t.mounted;
      UnmountedOutcomesInert(t, o, es[1..]);
    }
  }

  /** Mounting with the default options shows polling at once and begins a fetch. */
  lemma MountDefaults<T, E>(h: nat)
    ensures var r := Mount(Initial<T, E>(), NoOptions, h);
      && r.state.isPolling && r.state.loading && r.state.mounted && r.state.timer == Some(h)
      && r.effects == [CallService, SetInterval(5000)]
  {
  }

  /** A successful fetch while mounted shows its result and clears an earlier error. */
  lemma SuccessAfterFailure<T, E>(s: PollState<T, E>, o: PollingOptions, err: E, result: T)
    requires s.mounted
    ensures var t := FetchSuccess(FetchFailure(s, o, err).state, result).state;
      t.data == Some(result) && t.error == None && !t.loading
  {
  }
}
