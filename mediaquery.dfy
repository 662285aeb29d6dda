/**
 * The page-load handler of the media-query script: with a non-empty list of
 * breakpoints it picks the widest breakpoint the window reaches and requests
 * the table for that width through a `media_query` element, creating the
 * element when the page lacks it; with no breakpoints it starts the table
 * script instead.
 */
module MediaQuery {
  /** The width the loop settles on: the last breakpoint in list order that
      the window width reaches, or 0 when none does. */
  function Chosen(breakpoints: seq<int>, outerWidth: int): (w: int)
    ensures (w == 0 && forall j :: 0 <= j < |breakpoints| ==> breakpoints[j] > outerWidth) ||
      exists i :: 0 <= i < |breakpoints| && breakpoints[i] == w && w <= outerWidth &&
        forall j :: i < j < |breakpoints| ==> breakpoints[j] > outerWidth
    decreases |breakpoints|
  {
    if breakpoints == [] then 0
    else
      var last := |breakpoints| - 1;
      if outerWidth >= breakpoints[last] then breakpoints[last]
      else
        var w := Chosen(breakpoints[..last], outerWidth);
        assert forall j :: 0 <= j < last ==> breakpoints[..last][j] == breakpoints[j];
        w
  }

  /** The `for…of` loop over the breakpoints. */
  method ChooseWidth(breakpoints: seq<int>, outerWidth: int) returns (width: int)
    ensures width == Chosen(breakpoints, outerWidth)
  {
    width := 0;
    for i := 0 to |breakpoints|
      invariant width == Chosen(breakpoints[..i], outerWidth)
    {
      assert breakpoints[..i + 1][..i] == breakpoints[..i];
      if outerWidth >= breakpoints[i] {
        width := breakpoints[i];
      }
    }
    assert breakpoints[..|breakpoints|] == breakpoints;
  }

  /** The page as far as the handler sees it: whether a `media_query`
      element exists, the widths requested so far and the calls to the
      table script's `init`. */
  class Document {
    var hasMediaQuery: bool
    var requestedWidths: seq<int>
    var initCalls: nat

    constructor (mediaQuery: bool)
      ensures hasMediaQuery == mediaQuery && requestedWidths == [] && initCalls == 0
    {
      hasMediaQuery := mediaQuery;
      requestedWidths := [];
      initCalls := 0;
    }

    /** The `load` handler; `created` tells whether it created the element. */
    method OnLoad(breakpoints: seq<int>, outerWidth: int) returns (created: bool)
      modifies this
      ensures |breakpoints| == 0 ==>
        !created && initCalls == old(initCalls) + 1 &&
        requestedWidths == old(requestedWidths) && hasMediaQuery == old(hasMediaQuery)
      ensures |breakpoints| > 0 ==>
        created == !old(hasMediaQuery) && hasMediaQuery &&
        requestedWidths == old(requestedWidths) + [Chosen(breakpoints, outerWidth)] &&
        initCalls == old(initCalls)
    {
      created := false;
      if |breakpoints| > 0 {
        var width := ChooseWidth(breakpoints, outerWidth);
        if !hasMediaQuery {
          hasMediaQuery := true;
          created := true;
        }
        requestedWidths := requestedWidths + [width];
      } else {
        initCalls := initCalls + 1;
      }
    }
  }
}
