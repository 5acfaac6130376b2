/** The records of the list component: the rendered view state, the
    module-level gesture flags, the caller's configuration, and the
    constants of the pull-to-refresh gesture. */
module ListState {

  datatype Option<+T> = None | Some(value: T)

  /** Pull distance, in pixels, above which a move counts as a pull. */
  const RefresherThreshold: int := 5

  /** The fixed offset held while a pull-triggered refresh is running. */
  const ArmedOffset: int := RefresherThreshold + 30

  /** The two messages the refresh banner ever shows. */
  datatype RefreshText = PullPrompt | RefreshDone

  /** The literal text of each banner message. */
  function Label(t: RefreshText): string {
    match t
    case PullPrompt => "继续下拉即可刷新"
    case RefreshDone => "刷新完成"
  }

  /** The component's state record; every update is a partial merge. */
  datatype ViewState<T> = ViewState(
    initLoading: bool,
    moreLoading: bool,
    refreshLoading: bool,
    list: seq<T>,
    index: int,
    hasMore: bool,
    slidingDistance: int,
    refreshText: RefreshText)

  /** The state a freshly mounted list starts from. */
  function InitialView<T>(): ViewState<T> {
    ViewState(true, false, false, [], 1, true, 0, PullPrompt)
  }

  /** The module-level gesture variables, shared by every mounted list:
      the touch-start coordinate, the last move's delta, whether the list
      was last reported at its top, whether the last delta passed the
      threshold, and the single-refresh guard. */
  datatype GestureState = GestureState(
    startFlag: int,
    flag: int,
    canRefresh: bool,
    refreshFlag: bool,
    refreshOnlyFlag: bool)

  /** The values the gesture variables are declared with and reset to. */
  const NeutralGesture: GestureState := GestureState(0, 0, true, false, false)

  /** The caller's optional properties that influence behaviour. The data
      callbacks and the item renderer are opaque and appear only as the
      effects and variants that mention them. */
  datatype Props = Props(
    autoFetchMore: Option<bool>,
    hasFetchErrorHandler: bool,
    hasEmptyHolder: bool,
    emptyText: Option<string>,
    fetchMoreThreshold: Option<int>)
}
