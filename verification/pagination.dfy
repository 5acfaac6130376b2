/** The pagination engine: how the outcome of the initial load, of a refresh
    and of a fetch-more is merged into the view state. The awaited callbacks
    themselves are opaque; each outcome arrives as a value. */
module Pagination {
  import opened ListState

  /** The initial load resolved with `items`: loading ends, the list is
      the result, and the page index is left as it was. */
  function ApplyInit<T>(v: ViewState<T>, items: seq<T>): (r: ViewState<T>)
    ensures !r.initLoading && r.list == items
    ensures r.index == v.index && r.hasMore == v.hasMore
    ensures r.(initLoading := v.initLoading, list := v.list) == v
  {
    v.(initLoading := false, list := items)
  }

  /** A refresh was started: only the refresh spinner flag is raised. */
  function StartRefresh<T>(v: ViewState<T>): (r: ViewState<T>)
    ensures r.refreshLoading
    ensures r.(refreshLoading := v.refreshLoading) == v
  {
    v.(refreshLoading := true)
  }

  /** True of a callback result that holds at least one item; an undefined
      result (`None`) and an empty array both fail it. */
  predicate HasItems<T>(data: Option<seq<T>>) {
    data.Some? && |data.value| > 0
  }

  /** A refresh resolved with `data`. A non-empty result replaces the list
      and restarts paging; anything else only ends the refresh, so the
      existing list is never shrunk or reordered. */
  function ApplyRefresh<T>(v: ViewState<T>, data: Option<seq<T>>): (r: ViewState<T>)
    ensures !r.refreshLoading
    ensures HasItems(data) ==> r.list == data.value && r.index == 1 && r.hasMore
    ensures !HasItems(data) ==> r.list == v.list && r.index == v.index && r.hasMore == v.hasMore
    ensures r.(refreshLoading := v.refreshLoading, list := v.list, index := v.index, hasMore := v.hasMore) == v
  {
    if HasItems(data) then
      v.(refreshLoading := false, index := 1, hasMore := true, list := data.value)
    else
      v.(refreshLoading := false)
  }

  /** A refresh was rejected: only the refresh spinner flag is cleared. */
  function ApplyRefreshFailure<T>(v: ViewState<T>): (r: ViewState<T>)
    ensures !r.refreshLoading
    ensures r.(refreshLoading := v.refreshLoading) == v
  {
    v.(refreshLoading := false)
  }

  /** A fetch-more was started: only the footer spinner flag is raised. */
  function StartFetchMore<T>(v: ViewState<T>): (r: ViewState<T>)
    ensures r.moreLoading
    ensures r.(moreLoading := v.moreLoading) == v
  {
    v.(moreLoading := true)
  }

  /** A fetch-more resolved with `data`. A non-empty batch is appended after
      the existing list and the index moves one past the state's own index
      (not to the page that was requested); an empty array marks the end of
      the data; an undefined result only ends the fetch. */
  function ApplyFetchMore<T>(v: ViewState<T>, data: Option<seq<T>>): (r: ViewState<T>)
    ensures !r.moreLoading
    ensures r.refreshLoading == v.refreshLoading && r.initLoading == v.initLoading
    ensures r.slidingDistance == v.slidingDistance && r.refreshText == v.refreshText
    ensures HasItems(data) ==>
      && r.list == v.list + data.value
      && r.list[..|v.list|] == v.list
      && r.index == v.index + 1
      && r.hasMore == v.hasMore
    ensures data == Some([]) ==> r.list == v.list && r.index == v.index && !r.hasMore
    ensures data.None? ==> r == v.(moreLoading := false)
  {
    if HasItems(data) then
      v.(moreLoading := false, index := v.index + 1, list := v.list + data.value)
    else if data == Some([]) then
      v.(moreLoading := false, hasMore := false)
    else
      v.(moreLoading := false)
  }

  /** A fetch-more was rejected: only the footer spinner flag is cleared. */
  function ApplyFetchMoreFailure<T>(v: ViewState<T>): (r: ViewState<T>)
    ensures !r.moreLoading
    ensures r.(moreLoading := v.moreLoading) == v
  {
    v.(moreLoading := false)
  }
}
