/** The presentation mapping: which banner, body and footer variant the
    component shows for a given view state. The widgets themselves are
    not modelled, only the variant chosen. */
module Presentation {
  import opened ListState

  datatype Banner = BannerSpinner | BannerText(text: string)

  /** The body either shows the caller's placeholder, a placeholder text,
      or one row per item, each handed to the item renderer together with
      its position. */
  datatype Body<T> = CustomEmpty | EmptyText(text: string) | Rows(rows: seq<(T, nat)>)

  datatype Footer = NoFooter | FooterSpinner | LoadMore | EndOfList

  /** Everything a render chooses, plus the vertical offset of the body. */
  datatype Screen<T> = Screen(banner: Banner, offset: int, body: Body<T>, footer: Footer)

  const DefaultEmptyText: string := "暂无数据"

  /** The refresh banner spins while the initial load or a refresh is
      running, and otherwise shows the text of the current message. */
  function BannerOf<T>(v: ViewState<T>): (b: Banner)
    ensures b == BannerSpinner <==> v.initLoading || v.refreshLoading
    ensures b.BannerText? && v.refreshText == PullPrompt ==> b.text == "继续下拉即可刷新"
    ensures b.BannerText? && v.refreshText == RefreshDone ==> b.text == "刷新完成"
  {
    if v.initLoading || v.refreshLoading then BannerSpinner else BannerText(Label(v.refreshText))
  }

  /** The text shown for an empty list: the caller's, unless it is missing
      or empty. */
  function EmptyTextOf(p: Props): (s: string)
    ensures |s| > 0
    ensures p.emptyText.Some? && p.emptyText.value != "" ==> s == p.emptyText.value
    ensures !(p.emptyText.Some? && p.emptyText.value != "") ==> s == "暂无数据"
  {
    if p.emptyText.Some? && p.emptyText.value != "" then p.emptyText.value else DefaultEmptyText
  }

  /** The body: a placeholder exactly when the list is empty, otherwise
      every item in list order with its position. */
  function BodyOf<T>(p: Props, v: ViewState<T>): (b: Body<T>)
    ensures b.Rows? <==> |v.list| > 0
    ensures b == CustomEmpty <==> |v.list| == 0 && p.hasEmptyHolder
    ensures b.EmptyText? ==> b.text == EmptyTextOf(p)
    ensures b.Rows? ==> |b.rows| == |v.list|
    ensures b.Rows? ==> forall i :: 0 <= i < |b.rows| ==> b.rows[i] == (v.list[i], i)
  {
    if |v.list| == 0 then
      if p.hasEmptyHolder then CustomEmpty else EmptyText(EmptyTextOf(p))
    else
      Rows(seq(|v.list|, i requires 0 <= i < |v.list| => (v.list[i], i)))
  }

  /** The footer, in priority order: nothing for an empty list, then the
      spinner while fetching more, then "load more" while more data may
      exist, and otherwise the end-of-list message. */
  function FooterOf<T>(v: ViewState<T>): (f: Footer)
    ensures f == NoFooter <==> |v.list| == 0
    ensures f == FooterSpinner <==> |v.list| > 0 && v.moreLoading
    ensures f == LoadMore <==> |v.list| > 0 && !v.moreLoading && v.hasMore
    ensures f == EndOfList <==> |v.list| > 0 && !v.moreLoading && !v.hasMore
  {
    if |v.list| == 0 then NoFooter
    else if v.moreLoading then FooterSpinner
    else if v.hasMore then LoadMore
    else EndOfList
  }

  /** Reaching the bottom of the list fetches more exactly when the caller
      did not switch it off with an explicit `false` and more data may
      exist. */
  predicate AutoFetchEnabled<T>(p: Props, v: ViewState<T>) {
    p.autoFetchMore != Some(false) && v.hasMore
  }

  /** The distance from the bottom at which the host reports reaching it:
      the caller's value unless it is missing or zero, else 100 pixels. */
  function LowerThreshold(p: Props): (px: int)
    ensures px != 0
    ensures p.fetchMoreThreshold.Some? && p.fetchMoreThreshold.value != 0 ==> px == p.fetchMoreThreshold.value
    ensures !(p.fetchMoreThreshold.Some? && p.fetchMoreThreshold.value != 0) ==> px == 100
  {
    if p.fetchMoreThreshold.Some? && p.fetchMoreThreshold.value != 0 then p.fetchMoreThreshold.value else 100
  }

  /** A whole render of the view state. The footer is hidden exactly when
      the body shows a placeholder, and whenever the footer shows anything
      the body lists every item. */
  function Render<T>(p: Props, v: ViewState<T>): (s: Screen<T>)
    ensures s.offset == v.slidingDistance
    ensures s.banner == BannerOf(v) && s.body == BodyOf(p, v) && s.footer == FooterOf(v)
    ensures s.footer == NoFooter <==> !s.body.Rows?
    ensures s.footer != NoFooter ==> |s.body.rows| == |v.list| > 0
  {
    Screen(BannerOf(v), v.slidingDistance, BodyOf(p, v), FooterOf(v))
  }
}
