/** The gesture tracker: the touch, scroll and timer handlers acting on the
    module-level gesture variables, and the parts of the view they write. */
module Gesture {
  import opened ListState
  import Pagination

  /** What a touch-move asks of the view: nothing, a rubber-band preview of
      the given distance, or arming a refresh. */
  datatype MoveAction = Ignore | Preview(distance: int) | Arm

  datatype Move = Move(gesture: GestureState, action: MoveAction)

  /** A touch started at `clientY`: only the start coordinate is recorded. */
  function TouchStart(g: GestureState, clientY: int): (r: GestureState)
    ensures r.startFlag == clientY
    ensures r.(startFlag := g.startFlag) == g
  {
    g.(startFlag := clientY)
  }

  /** A touch moved to `clientY`. The delta and the over-threshold flag are
      recorded on every move; the view reacts only while the list is at its
      top and the delta is positive: a small delta is previewed as is, a
      large one arms a refresh unless the single-refresh guard is up. */
  function TouchMove(g: GestureState, clientY: int): (r: Move)
    ensures r.gesture.flag == clientY - g.startFlag
    ensures r.gesture.refreshFlag <==> clientY - g.startFlag > RefresherThreshold
    ensures r.action.Arm? <==>
      g.canRefresh && !g.refreshOnlyFlag && clientY - g.startFlag > RefresherThreshold
    ensures r.action.Preview? <==> g.canRefresh && 0 < clientY - g.startFlag <= RefresherThreshold
    ensures r.action.Preview? ==> r.action.distance == clientY - g.startFlag
    ensures r.action.Preview? ==> 0 < r.action.distance <= RefresherThreshold
    ensures r.gesture.refreshOnlyFlag <==> g.refreshOnlyFlag || r.action.Arm?
    ensures r.gesture.startFlag == g.startFlag && r.gesture.canRefresh == g.canRefresh
  {
    var delta := clientY - g.startFlag;
    var g' := g.(flag := delta, refreshFlag := delta > RefresherThreshold);
    if delta > 0 && g.canRefresh then
      if g'.refreshFlag then
        if !g.refreshOnlyFlag then Move(g'.(refreshOnlyFlag := true), Arm)
        else Move(g', Ignore)
      else Move(g', Preview(delta))
    else Move(g', Ignore)
  }

  /** Arming a refresh pins the armed offset and starts the refresh. */
  function ArmView<T>(v: ViewState<T>): (r: ViewState<T>)
    ensures r.slidingDistance == ArmedOffset && r.refreshLoading
    ensures r.(slidingDistance := v.slidingDistance, refreshLoading := v.refreshLoading) == v
  {
    Pagination.StartRefresh(v.(slidingDistance := ArmedOffset))
  }

  /** The sliding distance after a touch ends: it springs back to zero
      exactly when the last move did not pass the threshold, whether or not
      a refresh was armed during the gesture. */
  function TouchEnd(g: GestureState, slidingDistance: int): (r: int)
    ensures !g.refreshFlag ==> r == 0
    ensures g.refreshFlag ==> r == slidingDistance
  {
    if !g.refreshFlag then 0 else slidingDistance
  }

  /** A scroll position was reported: pulling is allowed exactly at the top. */
  function Scroll(g: GestureState, scrollTop: int): (r: GestureState)
    ensures r.canRefresh <==> scrollTop == 0
    ensures r.(canRefresh := g.canRefresh) == g
  {
    g.(canRefresh := scrollTop == 0)
  }

  /** The pull-triggered refresh has finished, successfully or not: the
      banner says so. */
  function CompleteView<T>(v: ViewState<T>): (r: ViewState<T>)
    ensures r.refreshText == RefreshDone
    ensures r.(refreshText := v.refreshText) == v
  {
    v.(refreshText := RefreshDone)
  }

  /** The one-second timer after a pull-triggered refresh: the banner goes
      back to the prompt and the list springs back. */
  function SettleView<T>(v: ViewState<T>): (r: ViewState<T>)
    ensures r.refreshText == PullPrompt && r.slidingDistance == 0
    ensures r.(refreshText := v.refreshText, slidingDistance := v.slidingDistance) == v
  {
    v.(refreshText := PullPrompt, slidingDistance := 0)
  }

  /** The same timer lowers the single-refresh guard. */
  function ReleaseGuard(g: GestureState): (r: GestureState)
    ensures !r.refreshOnlyFlag
    ensures r.(refreshOnlyFlag := g.refreshOnlyFlag) == g
  {
    g.(refreshOnlyFlag := false)
  }
}
