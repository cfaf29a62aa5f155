/** `ScrollingText`, the home-page news ticker: the news items are rendered
    twice in a row, half of the measured row width is the loop distance, and
    the loop takes one second per 50 pixels. The browser's layout is a
    parameter: `w` gives the rendered width, margins included, of one item. */
module Ticker {
  import opened Snapshot

  const PixelsPerSecond: real := 50.0

  /** `newsItems.length > 0 && [...newsItems, ...newsItems]`. */
  function Rendered(items: seq<string>): seq<string> {
    if |items| > 0 then items + items else []
  }

  /** The rendered row is the news list twice: twice as long, with news item
      `i` at positions `i` and `n + i`. */
  lemma RenderedIsTwoCopies(items: seq<string>)
    ensures |Rendered(items)| == 2 * |items|
    ensures forall i :: 0 <= i < |items| ==>
              Rendered(items)[i] == items[i] && Rendered(items)[|items| + i] == items[i]
    ensures Rendered(items)[..|items|] == items && Rendered(items)[|items|..] == items
  {
  }

  /** The width of a row of items laid out one after the other. */
  function RowWidth(w: string -> nat, row: seq<string>): nat {
    if |row| == 0 then 0 else w(row[0]) + RowWidth(w, row[1..])
  }

  lemma {:induction false} RowWidthConcat(w: string -> nat, a: seq<string>, b: seq<string>)
    ensures RowWidth(w, a + b) == RowWidth(w, a) + RowWidth(w, b)
  {
    if |a| == 0 {
      assert a + b == b;
    } else {
      assert (a + b)[1..] == a[1..] + b;
      RowWidthConcat(w, a[1..], b);
    }
  }

  /** The row's `scrollWidth`: the measured element is a block-level flex
      row that stretches to its container's inner width `clientWidth`, so it
      measures the larger of that box and its laid-out content. */
  function ScrollWidth(clientWidth: nat, w: string -> nat, row: seq<string>): (r: nat)
    ensures r >= clientWidth && r >= RowWidth(w, row)
    ensures r == clientWidth || r == RowWidth(w, row)
  {
    if RowWidth(w, row) > clientWidth then RowWidth(w, row) else clientWidth
  }

  /** `scrollWidth / 2`: the loop distance measured from the rendered row. */
  function LoopWidth(scrollWidth: nat): real {
    scrollWidth as real / 2.0
  }

  /** `scrollingWidth / 50`: the loop duration in seconds. */
  function LoopDuration(width: real): real {
    width / PixelsPerSecond
  }

  /** The loop distance of a news list shown in a box `clientWidth` wide:
      one copy's width, or half the box when two copies do not fill it. */
  function MeasuredLoop(clientWidth: nat, w: string -> nat, items: seq<string>): real {
    LoopWidth(ScrollWidth(clientWidth, w, Rendered(items)))
  }

  /** The loop distance is the larger of one copy's width and half the box,
      and it falls exactly on the seam between the two copies iff the two
      copies fill the box. */
  lemma LoopWidthIsOneCopy(clientWidth: nat, w: string -> nat, items: seq<string>)
    ensures MeasuredLoop(clientWidth, w, items) ==
              if clientWidth <= 2 * RowWidth(w, items) then RowWidth(w, items) as real
              else clientWidth as real / 2.0
    ensures MeasuredLoop(clientWidth, w, items) == RowWidth(w, items) as real <==>
              clientWidth <= 2 * RowWidth(w, items)
  {
    if |items| > 0 {
      RowWidthConcat(w, items, items);
    }
  }

  /** An empty news list renders nothing, yet the empty row still measures
      the box: the loop is half the box wide and lasts one second per 100
      pixels of it. */
  lemma EmptyTickerSpansBox(clientWidth: nat, w: string -> nat)
    ensures Rendered([]) == []
    ensures MeasuredLoop(clientWidth, w, []) == clientWidth as real / 2.0
    ensures LoopDuration(MeasuredLoop(clientWidth, w, [])) == clientWidth as real / 100.0
  {
  }

  /** The translation runs at 50 pixels per second whatever the width. */
  lemma ConstantSpeed(width: real)
    requires width > 0.0
    ensures width / LoopDuration(width) == PixelsPerSecond
  {
  }

  /** The ticker's state: the news list and the measured loop width. */
  datatype TickerState = TickerState(newsItems: seq<string>, scrollingWidth: real)

  /** The state of the first render, before any effect has run. */
  const InitialTicker := TickerState([], 0.0)

  /** The width is in step with the list: one copy's width, or half the box
      when two copies are narrower than the box. */
  ghost predicate WidthInSync(clientWidth: nat, w: string -> nat, s: TickerState) {
    var copy := RowWidth(w, s.newsItems) as real;
    var half := clientWidth as real / 2.0;
    s.scrollingWidth == if copy >= half then copy else half
  }

  /** The width effect: it runs on mount and again whenever `newsItems`
      changes, and stores half of the row's measured width. */
  function Measure(clientWidth: nat, w: string -> nat, s: TickerState): (r: TickerState)
    ensures r.newsItems == s.newsItems
    ensures WidthInSync(clientWidth, w, r)
  {
    LoopWidthIsOneCopy(clientWidth, w, s.newsItems);
    s.(scrollingWidth := MeasuredLoop(clientWidth, w, s.newsItems))
  }

  /** A `flashnews` snapshot: a truthy payload replaces the list (its values
      in order), and since the list changed the width effect measures the new
      row; a null payload changes nothing. */
  function OnFlashNews(clientWidth: nat, w: string -> nat, s: TickerState,
                       payload: Option<seq<string>>): TickerState {
    match payload
    case None => s
    case Some(items) => Measure(clientWidth, w, TickerState(items, s.scrollingWidth))
  }

  /** The width is never stale: every state after mount keeps it in step
      with the list, and a null snapshot leaves the state as it was. */
  lemma OnFlashNewsKeepsSync(clientWidth: nat, w: string -> nat, s: TickerState,
                             payload: Option<seq<string>>)
    requires WidthInSync(clientWidth, w, s)
    ensures WidthInSync(clientWidth, w, OnFlashNews(clientWidth, w, s, payload))
    ensures payload.None? ==> OnFlashNews(clientWidth, w, s, payload) == s
    ensures payload.Some? ==> OnFlashNews(clientWidth, w, s, payload).newsItems == payload.value
  {
  }

  /** Mounting measures the empty row: before any news arrives the loop is
      half the box, and it is zero only for a box of zero width. */
  lemma MountInSync(clientWidth: nat, w: string -> nat)
    ensures WidthInSync(clientWidth, w, Measure(clientWidth, w, InitialTicker))
    ensures Measure(clientWidth, w, InitialTicker).scrollingWidth == clientWidth as real / 2.0
    ensures WidthInSync(clientWidth, w, InitialTicker) <==> clientWidth == 0
  {
    EmptyTickerSpansBox(clientWidth, w);
  }
}
