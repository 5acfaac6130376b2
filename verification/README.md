# HListView: the list component's state machine

`HListView` (`index.tsx`) is a Taro/React scrollable list with three
behaviours: a paginated data source (an initial load, a pull-to-refresh
that replaces the list, a fetch-more that appends to it), a touch gesture
that turns a downward pull at the top of the list into a refresh, and a
render that picks a banner, a body and a footer from the state. The logic
lives in the event handlers, which merge partial updates into one state
record and keep five module-level gesture variables.

This project models that logic as pure Dafny:

- `ListState` holds the records: `ViewState` (the component's state:
  `initLoading`, `moreLoading`, `refreshLoading`, `list`, `index`,
  `hasMore`, `slidingDistance`, `refreshText`), `GestureState` (the module
  variables `startFlag`, `flag`, `canRefresh`, `refreshFlag`,
  `refreshOnlyFlag`), the caller's optional `Props`, and the constants
  (threshold 5 pixels, armed offset 35 pixels, the two banner texts).
- `Pagination` holds the merges of `toRefreshData`, `toFetchMore` and the
  init effect.
- `Gesture` holds `onTouchStart`, `onTouchMove`, `onTouchEnd`, `onScroll`
  and the one-second timer continuation.
- `Presentation` holds the banner, body and footer choice, the
  `onScrollToLower` gate and the `lowerThreshold` default.
- `Controller` puts them together as `Step(props, machine, event)`. Every
  awaited callback result, UI event and timer expiry is an `Event`. The
  machine also counts the continuations still outstanding (the initial
  load, refreshes awaiting their result, scheduled timers, fetch-mores
  awaiting theirs). A result or timer event with none outstanding is a
  no-op, because no such continuation exists. Calls out into the caller's
  code (`onRefresh`, `onFetchMore(page)`, `onFetchError`) and the
  scheduling of the timer are returned as `Effect`s. `Run` folds `Step`
  over a sequence of events.
- `Runs` proves properties over arbitrary event sequences.

Items are a type parameter: the component never looks inside them.

Some behaviours of the code are easy to misread; the model follows the
code:

- A successful fetch-more sets `index` to the state's own `index + 1`
  (index.tsx:102), not to the page it asked for. The request uses the
  rendered `index + 1` (index.tsx:98). The bottom-of-list gate does not
  check `moreLoading` (index.tsx:167). So reaching the bottom twice before
  the first fetch returns asks for the same page twice, yet both batches
  are appended and `index` advances by two (`Runs.DuplicatePageRequests`).
- Touch-end springs back exactly when the last move's delta was at most
  5 pixels (index.tsx:130, index.tsx:139). It does not depend on whether a
  refresh ran. `refreshFlag` is recomputed on every move, even away from
  the top. So an offset can be left standing with nothing outstanding to
  reset it (`Runs.StaleOffsetAfterScrollAway`). The offset is not always
  zero when no gesture or refresh is active.
- `index` is not monotone: a refresh that returns items resets it to 1.
  It only rises between such refreshes (`Runs.ListGrowsBetweenReloads`).
  The initial load does not touch `index`; it is 1 only because the
  initial state says so.
- A failed pull-triggered refresh still shows the "refresh complete" text
  and schedules the timer. `toRefreshData` catches the failure, so the
  touch-move handler carries on (index.tsx:85-92, index.tsx:147-157).
- The gesture variables live at module level (index.tsx:13-17) and are
  shared by every mounted list. An unmounted list gets no more touch
  events, because its ScrollView is gone (index.tsx:174-185). But the
  cleanup of any list sharing those variables resets them
  (index.tsx:60-66). `Unmount` stands for that reset. It lowers the
  refresh guard even while this list's refresh is still outstanding.
  After that, a pull on this list can start a second concurrent refresh
  (`Runs.UnmountDropsGuard`). This is why the one-refresh-per-window
  bound (`Runs.RefreshCallsPerGuardWindow`) is stated for runs without
  an `Unmount`.

## Model

| member | source | states |
|---|---|---|
| `Pagination.ApplyInit` | index.tsx:53-59 | The initial load ends loading and installs the result as the list. `index` and `hasMore` are untouched and nothing else changes. |
| `Pagination.StartRefresh` | index.tsx:70 | Starting a refresh raises only the refresh spinner flag. |
| `Pagination.ApplyRefresh` | index.tsx:72-84 | A refresh result with items replaces the list, sets `index` to 1 and `hasMore` to true. An empty or undefined result keeps list, index and `hasMore`. Both clear `refreshLoading` and change nothing else. |
| `Pagination.ApplyRefreshFailure` | index.tsx:85-92 | A rejected refresh clears only `refreshLoading`. |
| `Pagination.StartFetchMore` | index.tsx:96 | Starting a fetch-more raises only the footer spinner flag. |
| `Pagination.ApplyFetchMore` | index.tsx:99-114 | A batch with items is appended with the old list as an unchanged prefix; `index` rises by one and `hasMore` is kept. `[]` sets `hasMore` false and keeps list and index. An undefined result only clears `moreLoading`. Every outcome clears `moreLoading` and keeps the refresh and gesture fields. |
| `Pagination.ApplyFetchMoreFailure` | index.tsx:115-122 | A rejected fetch-more clears only `moreLoading`. |
| `Gesture.TouchStart` | index.tsx:125-127 | Touch-start records only the start coordinate. |
| `Gesture.TouchMove` | index.tsx:137-165 | The delta and the over-threshold flag are recorded on every move. A refresh is armed iff the list is at the top, the guard is down and the delta exceeds 5. A preview of exactly the delta happens iff the list is at the top and 0 < delta <= 5. Otherwise nothing happens. The guard goes up only when arming. |
| `Gesture.ArmView` | index.tsx:143-147 | Arming pins the offset at threshold + 30 and raises the refresh spinner, changing nothing else. |
| `Gesture.TouchEnd` | index.tsx:129-135 | Touch-end sets the offset to 0 when the last move did not pass the threshold, and otherwise leaves it unchanged. |
| `Gesture.Scroll` | index.tsx:169-171 | A scroll report sets `canRefresh` to exactly `scrollTop == 0` and changes nothing else. |
| `Gesture.CompleteView` | index.tsx:148-150 | After the awaited refresh the banner text becomes "refresh complete". Nothing else changes. |
| `Gesture.SettleView` | index.tsx:151-155 | The timer sets the banner back to the prompt and the offset to 0. Nothing else in the view changes. |
| `Gesture.ReleaseGuard` | index.tsx:156 | The timer lowers the single-refresh guard and changes no other gesture variable. |
| `Presentation.BannerOf` | index.tsx:188-192 | The banner spins iff `initLoading` or `refreshLoading`. Otherwise it shows the literal text of the current message: '继续下拉即可刷新' for the prompt (index.tsx:43) and '刷新完成' after a refresh (index.tsx:149). |
| `Presentation.EmptyTextOf` | index.tsx:195 | The empty-list text is the caller's if it is present and non-empty. Otherwise it is the default '暂无数据'. |
| `Presentation.BodyOf` | index.tsx:194-196 | The body shows a placeholder iff the list is empty. The caller's placeholder wins when supplied. Otherwise the placeholder text is exactly the empty-list text above, so it is the caller's `emptyText` when that is present and non-empty. For a non-empty list there is one row per item in list order, each with its position. |
| `Presentation.FooterOf` | index.tsx:197-207 | The footer is chosen in priority order: an empty list shows nothing, then the spinner while `moreLoading`, then "load more" while `hasMore`, else end-of-list. Each variant is characterised both ways. |
| `Presentation.LowerThreshold` | index.tsx:180 | The bottom threshold is the caller's value when it is present and non-zero. Otherwise, whether missing or 0, it is 100. It is never 0. |
| `Presentation.Render` | index.tsx:187-207 | The footer area is empty exactly when the body shows a placeholder. Whenever the footer shows anything, the body lists every item, one row each. The content is offset by `slidingDistance`. |
| `Controller.Mounted` | index.tsx:13-59 | A fresh mount satisfies the reachability invariant. The initial load is outstanding with the spinner shown, the list is empty, the index is 1 and more data is expected. The other spinners are off, the offset is 0 and the banner text is the prompt. The gesture variables hold their declared values (0, 0, true, false, false). No refresh, timer or fetch-more is outstanding. |
| `Controller.ErrorEffects` | index.tsx:86-88 | A failure calls `onFetchError` exactly once if it is supplied and not at all otherwise. Every effect it produces is that call, so it calls nothing else and schedules no timer. |
| `Controller.StartFetch` | index.tsx:95-98 | A fetch-more asks for the page after the current index and raises the spinner. One more fetch becomes outstanding. Nothing else changes: no other view field, the gesture variables, or the outstanding refreshes and timers. |
| `Controller.Step` | index.tsx:53-171 | Every handler preserves the invariant. The offset stays in [0, 35], `index >= 1`, `initLoading` holds iff the init is outstanding, and a spinner shows only while its operation is outstanding. A step makes at most two calls out. |
| `Runs.FetchMoreGate` | index.tsx:167-203 | `onFetchMore` is only ever called while `hasMore` holds, and always for the page after the current index. Reaching the bottom calls it exactly when `autoFetchMore` is not an explicit `false` and `hasMore` holds, and otherwise changes nothing. Tapping the footer calls it exactly when the footer offers "load more", and otherwise changes nothing. |
| `Runs.InitialLoad` | index.tsx:35-59 | After mount, the initial load's result shows the loaded items on page 1, with more data expected. Loading has ended and no call out is made. |
| `Runs.ReachableInv` | index.tsx:35-171 | Every state reachable from mount satisfies that invariant, so `slidingDistance` stays within [0, threshold + 30] across all event sequences. |
| `Runs.RefreshCallsPerGuardWindow` | index.tsx:141-158 | Without an unmount, at most one refresh cycle is outstanding, the guard is up exactly while one is, and `refreshLoading` holds exactly while a refresh result is awaited. `onRefresh` is called at most once more than the number of timer expiries. |
| `Runs.NoSecondRefreshWhileGuarded` | index.tsx:141-158 | While the guard is up, no sequence of events short of the timer or an unmount calls `onRefresh`, however far the finger moves. |
| `Runs.NoPullAwayFromTop` | index.tsx:137-171 | Once a scroll has reported a position other than the top, no sequence of events starts a refresh until a scroll reports the top again or an `Unmount` resets the variables. Further scrolls away from the top are allowed in the sequence. The offset either stays where it was or returns to 0. |
| `Runs.FetchMoreBatchesAppend` | index.tsx:99-104 | A run of successful fetch-mores appends the batches in order after the list. `index` advances by the number of batches and `hasMore` is unchanged. |
| `Runs.ListGrowsBetweenReloads` | index.tsx:69-123 | Without an init result or a refresh that returned items, the old list stays a prefix. `index` never falls and rises by at most one per fetch-more result carrying items. |
| `Runs.ExhaustedUntilRefresh` | index.tsx:73-79 | Once `hasMore` is false it stays false until a refresh returns items. |
| `Runs.HasMoreChanges` | index.tsx:105-109 | `hasMore` falls only on a fetch-more result `[]` and rises only on a refresh result with items. |
| `Runs.EndOfListFollowsEmptyBatch` | index.tsx:105-109 | From mount, "no more data" and the end-of-list footer are reached only if some fetch-more returned `[]`. |
| `Runs.FailureLeavesData` | index.tsx:85-122 | A failed refresh or fetch-more calls `onFetchError` once if it is supplied and clears only its own spinner. List, index and `hasMore` are unchanged. |
| `Runs.UnmountRestoresGesture` | index.tsx:60-66 | Unmount restores every gesture variable to its declared value and leaves the view alone. |
| `Runs.UnmountDropsGuard` | index.tsx:60-66 | With this list's refresh still outstanding, a reset of the shared gesture variables followed by a pull starts a second refresh. The reset may come from the cleanup of any list instance. |
| `Runs.DuplicatePageRequests` | index.tsx:95-104 | Two bottom-of-list events before the first result ask for the same page twice. Both batches are then appended and `index` rises by two. |
| `Runs.StaleOffsetAfterScrollAway` | index.tsx:129-140 | A 3-pixel preview, then a scroll away from the top, then a long pull and a touch-end leave the offset at 3. Nothing is called and no refresh or timer becomes outstanding. |
| `Runs.PullRefreshArms` | index.tsx:137-150 | A pull of 40 then 60 pixels at the top calls `onRefresh` once and pins the offset at 35. A refresh result with items then replaces the list, resets `index` and `hasMore`, shows "refresh complete" and schedules the timer. |
| `Runs.PullRefreshSettles` | index.tsx:141-158 | The timer that follows returns the text and offset to rest and lowers the guard. The refreshed list stays. |

## Left out

- Rendering: JSX, the Taro `ScrollView`/`View`/`Text` components, the
  `Loading` widget and the stylesheet. Only the variant chosen is modelled.
- `stateHandler` is not part of this model. It is taken to be a shallow
  partial merge whose functional form reads the previous state.
- Promises and `setTimeout` become events. No timing is modelled, and the
  one-second delay is just the `TimerFired` event. The two merges after a
  pull-triggered refresh resolves (the end of `toRefreshData` and the
  "refresh complete" text) are one event: they write disjoint fields.
- No separate refresh-start or fetch-more-start event. `toRefreshData` is
  only called from the touch-move handler, so arming starts the refresh.
  `toFetchMore` is reached through `ScrollToLower` (the `onScrollToLower`
  gate) or `TapLoadMore`, which only acts while the footer shows "load more".
- The caller's callbacks are opaque. `init`, `onRefresh` and `onFetchMore`
  appear only as their outcomes, `onFetchError` and the two fetch callbacks
  as effects, and `renderItem` as the rows handed to it. A synchronous
  throw from `onFetchError` is not modelled, and neither is its return
  value, which the component discards.
- A rejected `init` has no handler in the component. It is modelled as an
  `InitDone` that never arrives, so `initLoading` stays true. An `init`
  result that is not an array is not modelled.
- Touch coordinates and scroll offsets are integers. Missing touches or
  `scrollTop` values (NaN or `undefined` in the source) are not modelled.
- Stale closures: the bottom-of-list gate and the fetch request read
  `hasMore` and `index` from the latest state rather than from the last
  render.
- Several mounted instances sharing the module variables, and remounting,
  are not modelled as separate machines. `Unmount` is the reset that any
  sharing instance's cleanup performs, so after it the machine still
  accepts events. The
  continuations of an unmounted instance still write the gesture
  variables, but their view updates would be discarded by React.
- Races between a refresh and a fetch-more are allowed in any order. No
  cross-operation consistency is claimed, because the code offers none.
