/** Properties of the list component over whole event sequences: the
    invariants every reachable state keeps, the pagination bookkeeping, the
    single-refresh guard, and a few concrete scenarios. */
module Runs {
  import opened ListState
  import opened Pagination
  import opened Presentation
  import opened Controller

  /** The number of timer events in `es`. */
  function Fired<T>(es: seq<Event<T>>): nat {
    if es == [] then 0 else Fired(es[..|es| - 1]) + (if es[|es| - 1].TimerFired? then 1 else 0)
  }

  /** The number of fetch-more results in `es` that carry items. */
  function Appends<T>(es: seq<Event<T>>): nat {
    if es == [] then 0
    else Appends(es[..|es| - 1]) + (if es[|es| - 1].FetchMoreResult? && HasItems(es[|es| - 1].data) then 1 else 0)
  }

  /** The batches `bs`, one after the other. */
  function Flatten<T>(bs: seq<seq<T>>): seq<T> {
    if bs == [] then [] else Flatten(bs[..|bs| - 1]) + bs[|bs| - 1]
  }

  /** One successful fetch-more result per batch. */
  function Successes<T>(bs: seq<seq<T>>): (es: seq<Event<T>>)
    ensures |es| == |bs|
    ensures forall i :: 0 <= i < |bs| ==> es[i] == FetchMoreResult(Some(bs[i]))
  {
    seq(|bs|, i requires 0 <= i < |bs| => FetchMoreResult(Some(bs[i])))
  }

  /** Events that replace the list wholesale: the initial load and a
      refresh that returned items. */
  predicate Reloads<T>(e: Event<T>) {
    e.InitDone? || (e.RefreshResult? && HasItems(e.data))
  }

  /** Running one more event is one more step. */
  lemma RunSnoc<T>(p: Props, m: Machine<T>, es: seq<Event<T>>, e: Event<T>)
    ensures Run(p, m, es + [e]).next == Step(p, Run(p, m, es).next, e).next
    ensures Run(p, m, es + [e]).effects == Run(p, m, es).effects + Step(p, Run(p, m, es).next, e).effects
  {
    assert (es + [e])[..|es + [e]| - 1] == es;
  }

  lemma RunThree<T>(p: Props, m: Machine<T>, e1: Event<T>, e2: Event<T>, e3: Event<T>)
    ensures var t1 := Step(p, m, e1); var t2 := Step(p, t1.next, e2); var t3 := Step(p, t2.next, e3);
      Run(p, m, [e1, e2, e3]) == Transition(t3.next, t1.effects + t2.effects + t3.effects)
  {
    var t1 := Step(p, m, e1);
    var t2 := Step(p, t1.next, e2);
    var t3 := Step(p, t2.next, e3);
    assert Run(p, m, [e1]) == Transition(t1.next, t1.effects) by {
      RunSnoc(p, m, [], e1);
      assert [] + [e1] == [e1];
      assert [] + t1.effects == t1.effects;
    }
    assert Run(p, m, [e1, e2]) == Transition(t2.next, t1.effects + t2.effects) by {
      RunSnoc(p, m, [e1], e2);
      assert [e1] + [e2] == [e1, e2];
    }
    RunSnoc(p, m, [e1, e2], e3);
    assert [e1, e2] + [e3] == [e1, e2, e3];
  }

  lemma RunFour<T>(p: Props, m: Machine<T>, e1: Event<T>, e2: Event<T>, e3: Event<T>, e4: Event<T>)
    ensures var r := Run(p, m, [e1, e2, e3]); var t4 := Step(p, r.next, e4);
      Run(p, m, [e1, e2, e3, e4]) == Transition(t4.next, r.effects + t4.effects)
  {
    RunSnoc(p, m, [e1, e2, e3], e4);
    assert [e1, e2, e3] + [e4] == [e1, e2, e3, e4];
  }

  lemma RunFive<T>(p: Props, m: Machine<T>, e1: Event<T>, e2: Event<T>, e3: Event<T>, e4: Event<T>, e5: Event<T>)
    ensures var r := Run(p, m, [e1, e2, e3, e4]); var t5 := Step(p, r.next, e5);
      Run(p, m, [e1, e2, e3, e4, e5]) == Transition(t5.next, r.effects + t5.effects)
  {
    RunSnoc(p, m, [e1, e2, e3, e4], e5);
    assert [e1, e2, e3, e4] + [e5] == [e1, e2, e3, e4, e5];
  }

  lemma StepWhileGuarded<T>(p: Props, m: Machine<T>, e: Event<T>)
    requires m.gesture.refreshOnlyFlag && !e.TimerFired? && !e.Unmount?
    ensures Step(p, m, e).next.gesture.refreshOnlyFlag
    ensures CallOnRefresh !in Step(p, m, e).effects
  {
  }

  lemma StepAwayFromTop<T>(p: Props, m: Machine<T>, e: Event<T>)
    requires !m.gesture.canRefresh && !(e.Scroll? && e.scrollTop == 0) && !e.Unmount?
    ensures !Step(p, m, e).next.gesture.canRefresh
    ensures CallOnRefresh !in Step(p, m, e).effects
    ensures Step(p, m, e).next.view.slidingDistance in {m.view.slidingDistance, 0}
  {
  }

  lemma StepWithoutReload<T>(p: Props, m: Machine<T>, e: Event<T>)
    requires !Reloads(e)
    ensures m.view.list <= Step(p, m, e).next.view.list
    ensures m.view.index <= Step(p, m, e).next.view.index
    ensures Step(p, m, e).next.view.index
         <= m.view.index + (if e.FetchMoreResult? && HasItems(e.data) then 1 else 0)
  {
  }

  /** A fetch-more is only ever asked for while more data is expected, and
      always for the page after the current index. Reaching the bottom asks
      for it exactly when automatic fetching is not switched off and more
      data is expected, and otherwise changes nothing; tapping the footer
      asks for it exactly when the footer offers to load more. */
  lemma FetchMoreGate<T>(p: Props, m: Machine<T>, e: Event<T>)
    ensures forall k :: CallOnFetchMore(k) in Step(p, m, e).effects ==> m.view.hasMore && k == m.view.index + 1
    ensures e.ScrollToLower? ==>
      (Step(p, m, e).effects == [CallOnFetchMore(m.view.index + 1)] <==> p.autoFetchMore != Some(false) && m.view.hasMore)
    ensures e.ScrollToLower? && !(p.autoFetchMore != Some(false) && m.view.hasMore) ==> Step(p, m, e) == Transition(m, [])
    ensures e.TapLoadMore? ==>
      (Step(p, m, e).effects == [CallOnFetchMore(m.view.index + 1)]
       <==> |m.view.list| > 0 && !m.view.moreLoading && m.view.hasMore)
    ensures e.TapLoadMore? && Step(p, m, e).effects == [] ==> Step(p, m, e).next == m
  {
  }

  /** The initial load of a freshly mounted list shows the loaded items on
      page one, with more data expected and nothing else outstanding. */
  lemma InitialLoad<T>(p: Props, items: seq<T>)
    ensures var r := Run(p, Mounted(), [InitDone(items)]);
      && !r.next.view.initLoading && r.next.view.list == items
      && r.next.view.index == 1 && r.next.view.hasMore
      && !r.next.initPending && r.effects == []
  {
    RunSnoc(p, Mounted(), [], InitDone(items));
    assert [] + [InitDone(items)] == [InitDone(items)];
  }

  /** Every state reachable from a fresh mount keeps the invariant: the
      offset stays within [0, threshold + 30], the index never drops below
      one, and a spinner never shows without its operation outstanding. */
  lemma {:induction false} ReachableInv<T>(p: Props, es: seq<Event<T>>)
    ensures Inv(Run(p, Mounted(), es).next)
    ensures 0 <= Run(p, Mounted(), es).next.view.slidingDistance <= RefresherThreshold + 30
    decreases |es|
  {
    if es != [] {
      ReachableInv(p, es[..|es| - 1]);
    }
  }

  /** While no unmount has reset the gesture variables, at most one
      pull-triggered refresh cycle (the refresh itself, then its timer) is
      outstanding, the guard is up exactly while one is, and the refresh
      spinner shows exactly while its result is awaited. */
  ghost predicate GuardInv<T>(m: Machine<T>) {
    && m.refreshCycles + m.timers <= 1
    && (m.gesture.refreshOnlyFlag <==> m.refreshCycles + m.timers == 1)
    && (m.view.refreshLoading <==> m.refreshCycles == 1)
  }

  lemma StepKeepsGuard<T>(p: Props, m: Machine<T>, e: Event<T>)
    requires GuardInv(m) && !e.Unmount?
    ensures GuardInv(Step(p, m, e).next)
    ensures multiset(Step(p, m, e).effects)[CallOnRefresh] + m.refreshCycles + m.timers
            <= (if e.TimerFired? then 1 else 0) + Step(p, m, e).next.refreshCycles + Step(p, m, e).next.timers
  {
  }

  /** Without an unmount, the refresh callback is called at most once more
      than the number of timer events: a second refresh can only start after
      the timer of the first has lowered the guard. */
  lemma {:induction false} RefreshCallsPerGuardWindow<T>(p: Props, es: seq<Event<T>>)
    requires forall i :: 0 <= i < |es| ==> !es[i].Unmount?
    ensures GuardInv(Run(p, Mounted(), es).next)
    ensures multiset(Run(p, Mounted(), es).effects)[CallOnRefresh]
            <= Fired(es) + Run(p, Mounted(), es).next.refreshCycles + Run(p, Mounted(), es).next.timers
    ensures multiset(Run(p, Mounted(), es).effects)[CallOnRefresh] <= Fired(es) + 1
    decreases |es|
  {
    if es != [] {
      var es' := es[..|es| - 1];
      RefreshCallsPerGuardWindow(p, es');
      StepKeepsGuard(p, Run(p, Mounted(), es').next, es[|es| - 1]);
    }
  }

  /** While the guard is up, no run of events short of the timer or an
      unmount starts a second refresh, however far the finger moves. */
  lemma {:induction false} NoSecondRefreshWhileGuarded<T>(p: Props, m: Machine<T>, es: seq<Event<T>>)
    requires m.gesture.refreshOnlyFlag
    requires forall i :: 0 <= i < |es| ==> !es[i].TimerFired? && !es[i].Unmount?
    ensures Run(p, m, es).next.gesture.refreshOnlyFlag
    ensures CallOnRefresh !in Run(p, m, es).effects
    decreases |es|
  {
    if es != [] {
      var es' := es[..|es| - 1];
      NoSecondRefreshWhileGuarded(p, m, es');
      StepWhileGuarded(p, Run(p, m, es').next, es[|es| - 1]);
    }
  }

  /** Away from the top of the list no pull does anything until a scroll
      reports the top again: no refresh starts, and the offset either stays
      where it was or returns to zero. */
  lemma {:induction false} NoPullAwayFromTop<T>(p: Props, m: Machine<T>, es: seq<Event<T>>)
    requires !m.gesture.canRefresh
    requires forall i :: 0 <= i < |es| ==> !(es[i].Scroll? && es[i].scrollTop == 0) && !es[i].Unmount?
    ensures !Run(p, m, es).next.gesture.canRefresh
    ensures CallOnRefresh !in Run(p, m, es).effects
    ensures Run(p, m, es).next.view.slidingDistance == m.view.slidingDistance
         || Run(p, m, es).next.view.slidingDistance == 0
    decreases |es|
  {
    if es != [] {
      var es' := es[..|es| - 1];
      NoPullAwayFromTop(p, m, es');
      StepAwayFromTop(p, Run(p, m, es').next, es[|es| - 1]);
    }
  }

  /** A run of successful fetch-more results appends the batches in order
      after the existing list and advances the index by one per batch. */
  lemma {:induction false} FetchMoreBatchesAppend<T>(p: Props, m: Machine<T>, bs: seq<seq<T>>)
    requires m.fetches >= |bs|
    requires forall i :: 0 <= i < |bs| ==> |bs[i]| > 0
    ensures Run(p, m, Successes(bs)).next.view.list == m.view.list + Flatten(bs)
    ensures Run(p, m, Successes(bs)).next.view.index == m.view.index + |bs|
    ensures Run(p, m, Successes(bs)).next.view.hasMore == m.view.hasMore
    ensures Run(p, m, Successes(bs)).next.fetches == m.fetches - |bs|
    ensures |bs| > 0 ==> !Run(p, m, Successes(bs)).next.view.moreLoading
    decreases |bs|
  {
    if bs != [] {
      var bs' := bs[..|bs| - 1];
      assert Successes(bs)[..|bs| - 1] == Successes(bs');
      FetchMoreBatchesAppend(p, m, bs');
    }
  }

  /** Between reloads the list only grows at its end, and the index only
      rises, by at most one per fetch-more result that carried items. */
  lemma {:induction false} ListGrowsBetweenReloads<T>(p: Props, m: Machine<T>, es: seq<Event<T>>)
    requires forall i :: 0 <= i < |es| ==> !Reloads(es[i])
    ensures m.view.list <= Run(p, m, es).next.view.list
    ensures m.view.index <= Run(p, m, es).next.view.index <= m.view.index + Appends(es)
    decreases |es|
  {
    if es != [] {
      var es' := es[..|es| - 1];
      ListGrowsBetweenReloads(p, m, es');
      StepWithoutReload(p, Run(p, m, es').next, es[|es| - 1]);
    }
  }

  /** Once exhausted, the list stays exhausted until a refresh returns items. */
  lemma {:induction false} ExhaustedUntilRefresh<T>(p: Props, m: Machine<T>, es: seq<Event<T>>)
    requires !m.view.hasMore
    requires forall i :: 0 <= i < |es| ==> !(es[i].RefreshResult? && HasItems(es[i].data))
    ensures !Run(p, m, es).next.view.hasMore
    decreases |es|
  {
    if es != [] {
      var es' := es[..|es| - 1];
      ExhaustedUntilRefresh(p, m, es');
      HasMoreChanges(p, Run(p, m, es').next, es[|es| - 1]);
    }
  }

  /** `hasMore` falls only on an empty fetch-more result and rises only on
      a refresh that returned items. */
  lemma HasMoreChanges<T>(p: Props, m: Machine<T>, e: Event<T>)
    ensures m.view.hasMore && !Step(p, m, e).next.view.hasMore ==>
      e.FetchMoreResult? && e.data.Some? && e.data.value == []
    ensures !m.view.hasMore && Step(p, m, e).next.view.hasMore ==>
      e.RefreshResult? && HasItems(e.data)
  {
  }

  /** On a freshly mounted list, "no more data" and the end-of-list footer
      are only ever reached through a fetch-more that returned `[]`. */
  lemma {:induction false} EndOfListFollowsEmptyBatch<T>(p: Props, es: seq<Event<T>>)
    ensures !Run(p, Mounted(), es).next.view.hasMore ==>
      exists i :: 0 <= i < |es| && es[i].FetchMoreResult? && es[i].data.Some? && es[i].data.value == []
    ensures FooterOf(Run(p, Mounted(), es).next.view) == EndOfList ==>
      exists i :: 0 <= i < |es| && es[i].FetchMoreResult? && es[i].data.Some? && es[i].data.value == []
    decreases |es|
  {
    if es != [] {
      var es' := es[..|es| - 1];
      EndOfListFollowsEmptyBatch(p, es');
      var before := Run(p, Mounted(), es').next;
      HasMoreChanges(p, before, es[|es| - 1]);
      if !Run(p, Mounted(), es).next.view.hasMore {
        if !before.view.hasMore {
          var i :| 0 <= i < |es'| && es'[i].FetchMoreResult? && es'[i].data.Some? && es'[i].data.value == [];
          assert es[i] == es'[i];
        } else {
          assert es[|es| - 1].FetchMoreResult?;
        }
      }
    }
  }

  /** A failed refresh or fetch-more calls the error callback once if the
      caller supplied one, clears only its own spinner, and leaves the list,
      the index and `hasMore` alone. */
  lemma FailureLeavesData<T>(p: Props, m: Machine<T>, e: Event<T>)
    requires (e.RefreshFailed? && m.refreshCycles > 0) || (e.FetchMoreFailed? && m.fetches > 0)
    ensures multiset(Step(p, m, e).effects)[CallOnFetchError] == (if p.hasFetchErrorHandler then 1 else 0)
    ensures Step(p, m, e).next.view.list == m.view.list
    ensures Step(p, m, e).next.view.index == m.view.index
    ensures Step(p, m, e).next.view.hasMore == m.view.hasMore
    ensures e.RefreshFailed? ==>
      !Step(p, m, e).next.view.refreshLoading && Step(p, m, e).next.view.moreLoading == m.view.moreLoading
    ensures e.FetchMoreFailed? ==>
      !Step(p, m, e).next.view.moreLoading && Step(p, m, e).next.view.refreshLoading == m.view.refreshLoading
  {
  }

  /** Unmounting restores every gesture variable to its declared value and
      leaves the view alone. */
  lemma UnmountRestoresGesture<T>(p: Props, m: Machine<T>)
    ensures Step(p, m, Unmount).next.gesture == GestureState(0, 0, true, false, false)
    ensures Step(p, m, Unmount).next.view == m.view
  {
  }

  /** The gesture variables are shared by every mounted list, so the cleanup
      of any list that shares them (the `Unmount` event) lowers the guard
      while this list's refresh may still be outstanding, and a later pull on
      this list starts a second concurrent refresh. This is why the
      single-refresh bound holds only between such resets. */
  lemma UnmountDropsGuard<T>(p: Props, m: Machine<T>)
    requires m.refreshCycles > 0
    ensures Run(p, m, [Unmount, TouchStart(0), TouchMove(10)]).effects == [CallOnRefresh]
    ensures Run(p, m, [Unmount, TouchStart(0), TouchMove(10)]).next.refreshCycles == m.refreshCycles + 1
  {
    var e1: Event<T>, e2: Event<T>, e3: Event<T> := Unmount, TouchStart(0), TouchMove(10);
    var t1 := Step(p, m, e1);
    assert t1.next.gesture == NeutralGesture && t1.effects == [];
    var t2 := Step(p, t1.next, e2);
    assert t2.next.gesture.canRefresh && !t2.next.gesture.refreshOnlyFlag && t2.effects == [];
    var t3 := Step(p, t2.next, e3);
    assert t3.effects == [CallOnRefresh] && t3.next.refreshCycles == m.refreshCycles + 1;
    RunThree(p, m, e1, e2, e3);
  }

  /** Reaching the bottom twice before the first fetch-more returns asks
      for the same page twice, yet both batches are appended and the index
      moves on by two. */
  lemma DuplicatePageRequests<T>(p: Props, m: Machine<T>, b1: seq<T>, b2: seq<T>)
    requires AutoFetchEnabled(p, m.view)
    requires |b1| > 0 && |b2| > 0
    ensures Run(p, m, [ScrollToLower, ScrollToLower, FetchMoreResult(Some(b1)), FetchMoreResult(Some(b2))]).effects
         == [CallOnFetchMore(m.view.index + 1), CallOnFetchMore(m.view.index + 1)]
    ensures Run(p, m, [ScrollToLower, ScrollToLower, FetchMoreResult(Some(b1)), FetchMoreResult(Some(b2))]).next.view.index
         == m.view.index + 2
    ensures Run(p, m, [ScrollToLower, ScrollToLower, FetchMoreResult(Some(b1)), FetchMoreResult(Some(b2))]).next.view.list
         == m.view.list + b1 + b2
  {
    var e1: Event<T>, e3: Event<T>, e4: Event<T> := ScrollToLower, FetchMoreResult(Some(b1)), FetchMoreResult(Some(b2));
    var t1 := Step(p, m, e1);
    var ask := [CallOnFetchMore(m.view.index + 1)];
    assert t1.next.view.index == m.view.index && t1.next.view.hasMore && t1.effects == ask;
    var t2 := Step(p, t1.next, e1);
    assert t2.next.view.index == m.view.index && t2.next.fetches == m.fetches + 2 && t2.effects == ask;
    var t3 := Step(p, t2.next, e3);
    assert t3.next.view.list == m.view.list + b1 && t3.next.view.index == m.view.index + 1 && t3.effects == [];
    var t4 := Step(p, t3.next, e4);
    assert t4.next.view.list == m.view.list + b1 + b2 && t4.next.view.index == m.view.index + 2 && t4.effects == [];
    RunThree(p, m, e1, e1, e3);
    RunFour(p, m, e1, e1, e3, e4);
  }

  /** A small pull followed by a scroll away from the top and a long pull
      leaves the preview offset in place after the touch ends without
      starting a refresh or a timer, so if none was outstanding nothing will
      reset it: spring-back follows the last move's delta, not whether a
      refresh ran. */
  lemma StaleOffsetAfterScrollAway<T>(p: Props, m: Machine<T>, y: int)
    requires m.gesture.canRefresh
    ensures Run(p, m, [TouchStart(y), TouchMove(y + 3), Scroll(1), TouchMove(y + 10), TouchEnd]).next.view.slidingDistance == 3
    ensures Run(p, m, [TouchStart(y), TouchMove(y + 3), Scroll(1), TouchMove(y + 10), TouchEnd]).effects == []
    ensures Run(p, m, [TouchStart(y), TouchMove(y + 3), Scroll(1), TouchMove(y + 10), TouchEnd]).next.refreshCycles == m.refreshCycles
    ensures Run(p, m, [TouchStart(y), TouchMove(y + 3), Scroll(1), TouchMove(y + 10), TouchEnd]).next.timers == m.timers
  {
    var e1: Event<T>, e2: Event<T>, e3: Event<T>, e4: Event<T>, e5: Event<T> :=
      TouchStart(y), TouchMove(y + 3), Scroll(1), TouchMove(y + 10), TouchEnd;
    var t1 := Step(p, m, e1);
    assert t1.next.gesture.startFlag == y && t1.next.gesture.canRefresh && t1.effects == [];
    var t2 := Step(p, t1.next, e2);
    assert t2.next.view.slidingDistance == 3 && t2.effects == [];
    var t3 := Step(p, t2.next, e3);
    assert !t3.next.gesture.canRefresh && t3.next.view.slidingDistance == 3 && t3.effects == [];
    var t4 := Step(p, t3.next, e4);
    assert t4.next.gesture.refreshFlag && t4.next.view.slidingDistance == 3 && t4.effects == [];
    var t5 := Step(p, t4.next, e5);
    assert t5.next.view.slidingDistance == 3 && t5.effects == [];
    assert t5.next.refreshCycles == m.refreshCycles && t5.next.timers == m.timers;
    RunThree(p, m, e1, e2, e3);
    RunFour(p, m, e1, e2, e3, e4);
    RunFive(p, m, e1, e2, e3, e4, e5);
  }

  /** A pull at the top of the list: the first move past the threshold pins
      the armed offset and calls the refresh callback, a second such move
      does nothing more, and the refresh result replaces the list and
      restarts paging while the banner reports completion and the offset
      stays armed. */
  lemma PullRefreshArms<T>(p: Props, m: Machine<T>, y: int, batch: seq<T>)
    requires m.gesture.canRefresh && !m.gesture.refreshOnlyFlag
    requires |batch| > 0
    ensures var r := Run(p, m, [TouchStart(y), TouchMove(y + 40), TouchMove(y + 60), RefreshResult(Some(batch))]);
      && r.effects == [CallOnRefresh, ScheduleTimer]
      && r.next.view.slidingDistance == ArmedOffset
      && r.next.view.refreshText == RefreshDone
      && r.next.view.list == batch && r.next.view.index == 1 && r.next.view.hasMore
      && !r.next.view.refreshLoading
      && r.next.gesture.refreshOnlyFlag && r.next.timers > 0
  {
    var e1: Event<T>, e2: Event<T>, e3: Event<T>, e4: Event<T> :=
      TouchStart(y), TouchMove(y + 40), TouchMove(y + 60), RefreshResult(Some(batch));
    var t1 := Step(p, m, e1);
    assert t1.next.gesture.canRefresh && !t1.next.gesture.refreshOnlyFlag && t1.effects == [];
    var t2 := Step(p, t1.next, e2);
    assert t2.next.view.slidingDistance == ArmedOffset && t2.next.gesture.refreshOnlyFlag;
    assert t2.effects == [CallOnRefresh] && t2.next.refreshCycles > 0;
    var t3 := Step(p, t2.next, e3);
    assert t3.next.view.slidingDistance == ArmedOffset && t3.effects == [] && t3.next.refreshCycles > 0;
    assert t3.next.gesture.refreshOnlyFlag;
    var t4 := Step(p, t3.next, e4);
    assert t4.next.view.slidingDistance == ArmedOffset && t4.next.view.refreshText == RefreshDone;
    assert t4.next.view.list == batch && t4.effects == [ScheduleTimer] && t4.next.timers > 0;
    RunThree(p, m, e1, e2, e3);
    RunFour(p, m, e1, e2, e3, e4);
  }

  /** The one-second timer that follows completes the cycle: the banner
      and the offset return to rest and the guard is lowered, while the
      refreshed list stays. */
  lemma PullRefreshSettles<T>(p: Props, m: Machine<T>, y: int, batch: seq<T>)
    requires m.gesture.canRefresh && !m.gesture.refreshOnlyFlag
    requires |batch| > 0
    ensures var r := Run(p, m, [TouchStart(y), TouchMove(y + 40), TouchMove(y + 60), RefreshResult(Some(batch)), TimerFired]);
      && r.effects == [CallOnRefresh, ScheduleTimer]
      && r.next.view.list == batch && r.next.view.index == 1 && r.next.view.hasMore
      && r.next.view.refreshText == PullPrompt && r.next.view.slidingDistance == 0
      && !r.next.gesture.refreshOnlyFlag
  {
    var e1: Event<T>, e2: Event<T>, e3: Event<T>, e4: Event<T>, e5: Event<T> :=
      TouchStart(y), TouchMove(y + 40), TouchMove(y + 60), RefreshResult(Some(batch)), TimerFired;
    PullRefreshArms(p, m, y, batch);
    RunFive(p, m, e1, e2, e3, e4, e5);
  }
}
