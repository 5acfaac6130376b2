/** The list component as one state machine. Every awaited callback result,
    every UI event and the one-second timer is an `Event`; `Step` applies
    the handler that runs for it and reports the calls the handler makes
    into the caller's code and the timer it schedules as `Effect`s. */
module Controller {
  import opened ListState
  import Pagination
  import Gesture
  import Presentation

  /** The view, the gesture variables, and the continuations still
      outstanding: the initial load, pull-triggered refreshes awaiting
      their result, scheduled timers, and fetch-mores awaiting theirs. */
  datatype Machine<T> = Machine(
    view: ViewState<T>,
    gesture: GestureState,
    initPending: bool,
    refreshCycles: nat,
    timers: nat,
    fetches: nat)

  datatype Event<T> =
    | InitDone(items: seq<T>)
    | RefreshResult(data: Option<seq<T>>)
    | RefreshFailed
    | ScrollToLower
    | TapLoadMore
    | FetchMoreResult(data: Option<seq<T>>)
    | FetchMoreFailed
    | TouchStart(clientY: int)
    | TouchMove(clientY: int)
    | TouchEnd
    | Scroll(scrollTop: int)
    | TimerFired
    | Unmount

  /** Calls out of the component: the refresh and fetch-more callbacks
      (with the page asked for), the error callback, and the timer. */
  datatype Effect = CallOnRefresh | CallOnFetchMore(page: int) | CallOnFetchError | ScheduleTimer

  datatype Transition<T> = Transition(next: Machine<T>, effects: seq<Effect>)

  /** A freshly mounted list: the initial load is under way and the gesture
      variables hold their declared values. */
  function Mounted<T>(): (m: Machine<T>)
    ensures Inv(m)
    ensures m.initPending && m.view.initLoading && m.view.list == [] && m.view.index == 1 && m.view.hasMore
    ensures !m.view.moreLoading && !m.view.refreshLoading && m.view.slidingDistance == 0 && m.view.refreshText == PullPrompt
    ensures m.gesture == GestureState(0, 0, true, false, false)
    ensures m.refreshCycles == 0 && m.timers == 0 && m.fetches == 0
  {
    Machine(InitialView(), NeutralGesture, true, 0, 0, 0)
  }

  /** Facts that hold in every reachable state. */
  ghost predicate Inv<T>(m: Machine<T>) {
    && 0 <= m.view.slidingDistance <= ArmedOffset
    && m.view.index >= 1
    && (m.view.initLoading <==> m.initPending)
    && (m.view.moreLoading ==> m.fetches > 0)
    && (m.view.refreshLoading ==> m.refreshCycles > 0)
  }

  /** The error callback is called once when the caller supplied one. */
  function ErrorEffects(p: Props): (es: seq<Effect>)
    ensures multiset(es)[CallOnFetchError] == (if p.hasFetchErrorHandler then 1 else 0)
    ensures multiset(es)[CallOnRefresh] == 0 && multiset(es)[ScheduleTimer] == 0
    ensures forall e :: e in es ==> e == CallOnFetchError
  {
    if p.hasFetchErrorHandler then [CallOnFetchError] else []
  }

  /** A fetch-more starts: the footer spins and the page after the current
      index is asked for; nothing else changes. */
  function StartFetch<T>(m: Machine<T>): (r: Transition<T>)
    ensures r.next.view.moreLoading && r.next.fetches == m.fetches + 1
    ensures r.effects == [CallOnFetchMore(m.view.index + 1)]
    ensures r.next.view.list == m.view.list && r.next.view.index == m.view.index
    ensures r.next.view.hasMore == m.view.hasMore
    ensures r.next.view.(moreLoading := m.view.moreLoading) == m.view
    ensures r.next.(view := m.view, fetches := m.fetches) == m
  {
    Transition(m.(view := Pagination.StartFetchMore(m.view), fetches := m.fetches + 1),
               [CallOnFetchMore(m.view.index + 1)])
  }

  /** The handler run for `e`. A result or timer event with no outstanding
      continuation changes nothing: no such continuation exists. */
  function Step<T>(p: Props, m: Machine<T>, e: Event<T>): (r: Transition<T>)
    ensures Inv(m) ==> Inv(r.next)
    ensures |r.effects| <= 2
  {
    match e
    case InitDone(items) =>
      if m.initPending then
        Transition(m.(view := Pagination.ApplyInit(m.view, items), initPending := false), [])
      else Transition(m, [])
    case RefreshResult(data) =>
      if m.refreshCycles > 0 then
        Transition(m.(view := Gesture.CompleteView(Pagination.ApplyRefresh(m.view, data)),
                      refreshCycles := m.refreshCycles - 1, timers := m.timers + 1),
                   [ScheduleTimer])
      else Transition(m, [])
    case RefreshFailed =>
      if m.refreshCycles > 0 then
        Transition(m.(view := Gesture.CompleteView(Pagination.ApplyRefreshFailure(m.view)),
                      refreshCycles := m.refreshCycles - 1, timers := m.timers + 1),
                   ErrorEffects(p) + [ScheduleTimer])
      else Transition(m, [])
    case ScrollToLower =>
      if Presentation.AutoFetchEnabled(p, m.view) then StartFetch(m) else Transition(m, [])
    case TapLoadMore =>
      if Presentation.FooterOf(m.view) == Presentation.LoadMore then StartFetch(m) else Transition(m, [])
    case FetchMoreResult(data) =>
      if m.fetches > 0 then
        Transition(m.(view := Pagination.ApplyFetchMore(m.view, data), fetches := m.fetches - 1), [])
      else Transition(m, [])
    case FetchMoreFailed =>
      if m.fetches > 0 then
        Transition(m.(view := Pagination.ApplyFetchMoreFailure(m.view), fetches := m.fetches - 1),
                   ErrorEffects(p))
      else Transition(m, [])
    case TouchStart(y) =>
      Transition(m.(gesture := Gesture.TouchStart(m.gesture, y)), [])
    case TouchMove(y) =>
      var mv := Gesture.TouchMove(m.gesture, y);
      (match mv.action
       case Ignore => Transition(m.(gesture := mv.gesture), [])
       case Preview(d) => Transition(m.(gesture := mv.gesture, view := m.view.(slidingDistance := d)), [])
       case Arm =>
         Transition(m.(gesture := mv.gesture, view := Gesture.ArmView(m.view),
                       refreshCycles := m.refreshCycles + 1),
                    [CallOnRefresh]))
    case TouchEnd =>
      Transition(m.(view := m.view.(slidingDistance := Gesture.TouchEnd(m.gesture, m.view.slidingDistance))), [])
    case Scroll(top) =>
      Transition(m.(gesture := Gesture.Scroll(m.gesture, top)), [])
    case TimerFired =>
      if m.timers > 0 then
        Transition(m.(view := Gesture.SettleView(m.view), gesture := Gesture.ReleaseGuard(m.gesture),
                      timers := m.timers - 1), [])
      else Transition(m, [])
    case Unmount =>
      Transition(m.(gesture := NeutralGesture), [])
  }

  /** The machine after the events `es`, with every effect in order. */
  function Run<T>(p: Props, m: Machine<T>, es: seq<Event<T>>): (r: Transition<T>)
    decreases |es|
  {
    if es == [] then Transition(m, [])
    else
      var before := Run(p, m, es[..|es| - 1]);
      var t := Step(p, before.next, es[|es| - 1]);
      Transition(t.next, before.effects + t.effects)
  }
}
