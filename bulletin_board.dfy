/** The free-placement board (`BulletinBoardState`): children pinned at cell
    offsets, overlapping freely, pushed back inside the board when drawn. */
module BulletinBoard {
  import opened Dimensions
  import opened SeqMath
  import Row

  /** A child and the offset it was added at. */
  datatype Pinned = Pinned(offset: Point, widget: WidgetId)

  /** Each child estimated at the board width less its own x offset. */
  function PinnedDims(ws: seq<Pinned>, est: Estimator, width: int): (ds: seq<Dims>)
    ensures |ds| == |ws|
    ensures forall i :: 0 <= i < |ws| ==> ds[i] == est(ws[i].widget, width - ws[i].offset.x)
  {
    seq(|ws|, i requires 0 <= i < |ws| => est(ws[i].widget, width - ws[i].offset.x))
  }

  /** How far right each child's preferred extent reaches. */
  function ReachX(ws: seq<Pinned>, ds: seq<Dims>): (r: seq<int>)
    requires |ws| == |ds|
    ensures |r| == |ds| && forall i :: 0 <= i < |ds| ==> r[i] == ds[i].preferred.width + ws[i].offset.x
  {
    seq(|ds|, i requires 0 <= i < |ds| => ds[i].preferred.width + ws[i].offset.x)
  }

  /** How far down each child's preferred extent reaches. */
  function ReachY(ws: seq<Pinned>, ds: seq<Dims>): (r: seq<int>)
    requires |ws| == |ds|
    ensures |r| == |ds| && forall i :: 0 <= i < |ds| ==> r[i] == ds[i].preferred.height + ws[i].offset.y
  {
    seq(|ds|, i requires 0 <= i < |ds| => ds[i].preferred.height + ws[i].offset.y)
  }

  /** The board's dimensions from its children's: largest minimum, largest
      preferred reach, no maximum, unit alignment, no spacers. */
  function BoardDims(ws: seq<Pinned>, ds: seq<Dims>): Dims
    requires |ws| == |ds|
  {
    Dims(Size(Max0(Row.MinWidths(ds)), Max0(Row.MinHeights(ds))),
         Size(Max0(ReachX(ws, ds)), Max0(ReachY(ws, ds))),
         None, Size(1, 1), 0, 0)
  }

  /** The board's minimum ignores offsets, its preferred size covers every
      child at its offset, and with no children everything is 0. */
  lemma BoardDimsMeaning(ws: seq<Pinned>, ds: seq<Dims>)
    requires |ws| == |ds|
    ensures var d := BoardDims(ws, ds);
            && IsMax0(d.min.width, Row.MinWidths(ds)) && IsMax0(d.min.height, Row.MinHeights(ds))
            && IsMax0(d.preferred.width, ReachX(ws, ds)) && IsMax0(d.preferred.height, ReachY(ws, ds))
            && d.max == None && d.alignSizeTo == Size(1, 1)
            && d.horizontalSpacerCount == 0 && d.verticalSpacerCount == 0
    ensures ws == [] ==> BoardDims(ws, ds) == Dims(Size(0, 0), Size(0, 0), None, Size(1, 1), 0, 0)
  {
    Max0IsMax(Row.MinWidths(ds));
    Max0IsMax(Row.MinHeights(ds));
    Max0IsMax(ReachX(ws, ds));
    Max0IsMax(ReachY(ws, ds));
  }

  /** The running maximum after one more element. */
  lemma Max0Step(s: seq<int>, i: nat)
    requires i < |s|
    ensures Max0(s[..i + 1]) == if Max0(s[..i]) < s[i] then s[i] else Max0(s[..i])
  {
    assert s[..i + 1] == s[..i] + [s[i]];
    Max0Append(s[..i], s[i]);
  }

  /** Where a child with preferred size `pref` pinned at `offset` is drawn on a
      board of size `board`: moved left and up to fit, never past the origin,
      and cut to what is left of the board. It starts inside the board and
      never extends past its right or bottom edge; a child that fits is drawn
      whole, and one that fits at its offset is drawn exactly there. */
  function Place(offset: Point, pref: Size, board: Size): (p: Rect)
    ensures p.x >= 0 && p.y >= 0
    ensures p.x + p.width <= board.width && p.y + p.height <= board.height
    ensures 0 <= pref.width <= board.width ==> p.width == pref.width && p.x <= Max(offset.x, 0)
    ensures 0 <= pref.height <= board.height ==> p.height == pref.height && p.y <= Max(offset.y, 0)
    ensures 0 <= offset.x && offset.x + pref.width <= board.width ==> p.x == offset.x && p.width == pref.width
    ensures 0 <= offset.y && offset.y + pref.height <= board.height ==> p.y == offset.y && p.height == pref.height
  {
    var x := Max(Min(offset.x, board.width - pref.width), 0);
    var y := Max(Min(offset.y, board.height - pref.height), 0);
    Rect(x, y, Min(pref.width, board.width - x), Min(pref.height, board.height - y))
  }

  /** A rectangle lies within the board's right and bottom edges, from the origin. */
  predicate InsideBoard(p: Rect, board: Size) {
    p.x >= 0 && p.y >= 0 && p.x + p.width <= board.width && p.y + p.height <= board.height
  }

  class BulletinBoardState {
    var widgets: seq<Pinned>

    constructor()
      ensures widgets == []
    {
      widgets := [];
    }

    /** `add`: pins `w` at `at`, after every child already there. */
    method Add(at: Point, w: WidgetId)
      modifies this
      ensures widgets == old(widgets) + [Pinned(at, w)]
    {
      widgets := widgets + [Pinned(at, w)];
    }

    /** `clear_layout_cache`: forwards the clear to each child in order;
        `forwarded` lists them. */
    method ClearLayoutCache() returns (forwarded: seq<WidgetId>)
      ensures |forwarded| == |widgets|
      ensures forall i :: 0 <= i < |widgets| ==> forwarded[i] == widgets[i].widget
    {
      forwarded := [];
      for i := 0 to |widgets|
        invariant |forwarded| == i
        invariant forall k :: 0 <= k < i ==> forwarded[k] == widgets[k].widget
      {
        forwarded := forwarded + [widgets[i].widget];
      }
    }

    /** `estimate_dimensions`: four running maxima over the children. */
    method EstimateDimensions(est: Estimator, width: int) returns (d: Dims)
      ensures d == BoardDims(widgets, PinnedDims(widgets, est, width))
    {
      ghost var ds := PinnedDims(widgets, est, width);
      ghost var minX, minY := Row.MinWidths(ds), Row.MinHeights(ds);
      ghost var prefX, prefY := ReachX(widgets, ds), ReachY(widgets, ds);
      var maxMinX, maxMinY := 0, 0;
      var maxPrefX, maxPrefY := 0, 0;
      for i := 0 to |widgets|
        invariant maxMinX == Max0(minX[..i]) && maxMinY == Max0(minY[..i])
        invariant maxPrefX == Max0(prefX[..i]) && maxPrefY == Max0(prefY[..i])
      {
        var offset := widgets[i].offset;
        var dims := est(widgets[i].widget, width - offset.x);
        Max0Step(minX, i);
        Max0Step(minY, i);
        Max0Step(prefX, i);
        Max0Step(prefY, i);
        maxMinX := if maxMinX < dims.min.width then dims.min.width else maxMinX;
        maxMinY := if maxMinY < dims.min.height then dims.min.height else maxMinY;
        maxPrefX := if maxPrefX < dims.preferred.width + offset.x then dims.preferred.width + offset.x else maxPrefX;
        maxPrefY := if maxPrefY < dims.preferred.height + offset.y then dims.preferred.height + offset.y else maxPrefY;
      }
      assert minX[..|widgets|] == minX && minY[..|widgets|] == minY;
      assert prefX[..|widgets|] == prefX && prefY[..|widgets|] == prefY;
      d := Dims(Size(maxMinX, maxMinY), Size(maxPrefX, maxPrefY), None, Size(1, 1), 0, 0);
    }

    /** The placement arithmetic of `draw`: each child is estimated at the
        board width and placed by `Place`, inside the board. */
    method Placements(est: Estimator, board: Size) returns (rs: seq<Rect>)
      ensures |rs| == |widgets|
      ensures forall i :: 0 <= i < |widgets| ==>
                rs[i] == Place(widgets[i].offset, est(widgets[i].widget, board.width).preferred, board)
      ensures forall i :: 0 <= i < |widgets| ==> InsideBoard(rs[i], board)
    {
      rs := [];
      for i := 0 to |widgets|
        invariant |rs| == i
        invariant forall k :: 0 <= k < i ==>
                    rs[k] == Place(widgets[k].offset, est(widgets[k].widget, board.width).preferred, board)
        invariant forall k :: 0 <= k < i ==> InsideBoard(rs[k], board)
      {
        var offset := widgets[i].offset;
        var dims := est(widgets[i].widget, board.width);
        var x := Max(Min(offset.x, board.width - dims.preferred.width), 0);
        var y := Max(Min(offset.y, board.height - dims.preferred.height), 0);
        rs := rs + [Rect(x, y, Min(dims.preferred.width, board.width - x), Min(dims.preferred.height, board.height - y))];
      }
    }
  }
}
